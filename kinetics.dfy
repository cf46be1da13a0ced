/**
 * The rate-coefficient evaluators of the browser kinetics engine: one
 * datatype per kinetics model object (their fields are set once, by the
 * constructor, and never updated) and one evaluation per `getRateCoefficient`.
 * The loops of the source become methods proved against specification
 * functions.
 */
module Kinetics {
  import opened Common
  import opened JsMath
  import opened Tables

  // ---------------------------------------------------------------------
  // Tabulated data

  datatype KineticsDataModel = KineticsDataModel(Tdata: seq<real>, kdata: seq<real>, Tmin: real, Tmax: real)

  /** The Arrhenius-interpolated value on segment i, interpolating log k linearly in 1/T. */
  function SegmentRate(m: KineticsDataModel, i: nat, T: real): real
    requires i + 1 < |m.Tdata| && |m.kdata| == |m.Tdata|
  {
    var Tlo := m.Tdata[i];
    var Thi := m.Tdata[i + 1];
    var fraction := Div(Div(1.0, T) - Div(1.0, Tlo), Div(1.0, Thi) - Div(1.0, Tlo));
    Exp((Log(m.kdata[i + 1]) - Log(m.kdata[i])) * fraction + Log(m.kdata[i]))
  }

  /** The value `getRateCoefficient` returns: clamp below and above, else the last bracketing segment, else 0. */
  function TabulatedRate(m: KineticsDataModel, T: real): real
    requires |m.kdata| == |m.Tdata|
  {
    if |m.Tdata| == 0 then 0.0
    else if T < m.Tdata[0] then m.kdata[0]
    else if T >= m.Tdata[|m.Tdata| - 1] then m.kdata[|m.kdata| - 1]
    else
      match LastBracket(m.Tdata, T, |m.Tdata| - 1)
      case None => 0.0
      case Some(i) => SegmentRate(m, i, T)
  }

  method GetTabulatedRate(m: KineticsDataModel, T: real) returns (k: real)
    requires |m.kdata| == |m.Tdata|
    ensures k == TabulatedRate(m, T)
  {
    k := 0.0;
    if |m.Tdata| == 0 {
      // Both comparisons against `undefined` are false and the loop is empty.
      return;
    }
    if T < m.Tdata[0] {
      k := m.kdata[0];
    } else if T >= m.Tdata[|m.Tdata| - 1] {
      k := m.kdata[|m.kdata| - 1];
    } else {
      var i := 0;
      while i < |m.Tdata| - 1
        invariant 0 <= i <= |m.Tdata| - 1
        invariant k == match LastBracket(m.Tdata, T, i) case None => 0.0 case Some(j) => SegmentRate(m, j, T)
      {
        if m.Tdata[i] <= T && T < m.Tdata[i + 1] {
          k := SegmentRate(m, i, T);
        }
        i := i + 1;
      }
    }
  }

  /**
   * A temperature inside the table is always bracketed, whatever the order
   * of the table, so the initial 0.0 is only ever returned for an empty table.
   */
  lemma InteriorNeverZeroDefault(m: KineticsDataModel, T: real)
    requires |m.kdata| == |m.Tdata| >= 2
    requires m.Tdata[0] <= T < m.Tdata[|m.Tdata| - 1]
    ensures exists i :: 0 <= i < |m.Tdata| - 1 && Brackets(m.Tdata, i, T) && TabulatedRate(m, T) == SegmentRate(m, i, T)
  {
    SomePairBrackets(m.Tdata, T, |m.Tdata| - 1);
  }

  /** A segment evaluated at its own lower temperature gives its lower rate. */
  lemma SegmentRateAtLowerEnd(m: KineticsDataModel, i: nat)
    requires i + 1 < |m.Tdata| && |m.kdata| == |m.Tdata|
    requires m.Tdata[i] != 0.0 && m.Tdata[i + 1] != 0.0 && m.Tdata[i] != m.Tdata[i + 1]
    requires m.kdata[i] > 0.0 && ExpInvertsLog()
    ensures SegmentRate(m, i, m.Tdata[i]) == m.kdata[i]
  {
    var Tlo, Thi := m.Tdata[i], m.Tdata[i + 1];
    assert 1.0 / Thi != 1.0 / Tlo;
    assert Div(Div(1.0, Tlo) - Div(1.0, Tlo), Div(1.0, Thi) - Div(1.0, Tlo)) == 0.0;
  }

  /** At a tabulated temperature of an increasing table the model returns the tabulated rate. */
  lemma TabulatedRateAtDataPoint(m: KineticsDataModel, i: nat)
    requires |m.kdata| == |m.Tdata| && i < |m.Tdata|
    requires StrictlyIncreasing(m.Tdata) && forall j :: 0 <= j < |m.Tdata| ==> m.Tdata[j] != 0.0
    requires m.kdata[i] > 0.0
    requires ExpInvertsLog()
    ensures TabulatedRate(m, m.Tdata[i]) == m.kdata[i]
  {
    if i + 1 < |m.Tdata| {
      BracketAtDataPoint(m.Tdata, i);
      SegmentRateAtLowerEnd(m, i);
    }
  }

  // ---------------------------------------------------------------------
  // Arrhenius family

  datatype ArrheniusModel = ArrheniusModel(A: real, n: real, Ea: real, T0: real, Tmin: real, Tmax: real)

  /**
   * The constructor: every argument is kept unless it is omitted or zero
   * (JavaScript's falsy test), when its default takes its place: 0 for A, n,
   * Ea and Tmin, 1 for T0 (so the ratio T/T0 is always defined) and 99999.9
   * for Tmax. A zero given for a field whose default is 0 is therefore kept.
   */
  function NewArrhenius(A: Option<real>, n: Option<real>, Ea: Option<real>, T0: Option<real>,
                        Tmin: Option<real>, Tmax: Option<real>): (a: ArrheniusModel)
    ensures A.Some? ==> a.A == A.value
    ensures n.Some? ==> a.n == n.value
    ensures Ea.Some? ==> a.Ea == Ea.value
    ensures Tmin.Some? ==> a.Tmin == Tmin.value
    ensures A.None? ==> a.A == 0.0
    ensures n.None? ==> a.n == 0.0
    ensures Ea.None? ==> a.Ea == 0.0
    ensures Tmin.None? ==> a.Tmin == 0.0
    ensures T0.Some? && T0.value != 0.0 ==> a.T0 == T0.value
    ensures T0.None? || T0.value == 0.0 ==> a.T0 == 1.0
    ensures Tmax.Some? && Tmax.value != 0.0 ==> a.Tmax == Tmax.value
    ensures Tmax.None? || Tmax.value == 0.0 ==> a.Tmax == 99999.9
    ensures a.T0 != 0.0
  {
    ArrheniusModel(OrDefault(A, 0.0), OrDefault(n, 0.0), OrDefault(Ea, 0.0), OrDefault(T0, 1.0),
                   OrDefault(Tmin, 0.0), OrDefault(Tmax, 99999.9))
  }

  /** The Boltzmann exponent -Ea/(R T). */
  function BoltzmannExponent(Ea: real, T: real): real
  {
    Div(-Ea / GasConstant, T)
  }

  /** k(T) = A (T/T0)^n exp(-Ea/(R T)). */
  function ArrheniusRate(a: ArrheniusModel, T: real): real
  {
    a.A * Pow(Div(T, a.T0), a.n) * Exp(BoltzmannExponent(a.Ea, T))
  }

  /** With no temperature exponent and no barrier the rate is the prefactor. */
  lemma ArrheniusConstantWhenFlat(a: ArrheniusModel, T: real)
    requires a.n == 0.0 && a.Ea == 0.0 && T != 0.0
    requires PowZeroIsOne() && ExpOfZero()
    ensures ArrheniusRate(a, T) == a.A
  {
  }

  datatype ArrheniusEPModel = ArrheniusEPModel(A: real, n: real, alpha: real, E0: real, Tmin: real, Tmax: real)

  /** The Evans-Polanyi barrier E0 + alpha dHrxn. */
  function EvansPolanyiBarrier(m: ArrheniusEPModel, dHrxn: real): real
  {
    m.E0 + m.alpha * dHrxn
  }

  /** k(T, dHrxn) = A T^n exp(-(E0 + alpha dHrxn)/(R T)). */
  function ArrheniusEPRate(m: ArrheniusEPModel, T: real, dHrxn: real): real
  {
    m.A * Pow(T, m.n) * Exp(BoltzmannExponent(EvansPolanyiBarrier(m, dHrxn), T))
  }

  /**
   * Evans-Polanyi is plain Arrhenius with reference temperature 1 (T^n, not
   * (T/T0)^n) and activation energy E0 + alpha dHrxn.
   */
  lemma ArrheniusEPIsShiftedArrhenius(m: ArrheniusEPModel, T: real, dHrxn: real)
    ensures ArrheniusEPRate(m, T, dHrxn)
         == ArrheniusRate(ArrheniusModel(m.A, m.n, EvansPolanyiBarrier(m, dHrxn), 1.0, m.Tmin, m.Tmax), T)
  {
    assert Div(T, 1.0) == T;
  }

  /** The sum of the first n rates of the list, accumulated front to back. */
  function SumOfRates(list: seq<ArrheniusModel>, T: real): real
  {
    if |list| == 0 then 0.0 else SumOfRates(list[..|list| - 1], T) + ArrheniusRate(list[|list| - 1], T)
  }

  method GetMultiArrheniusRate(list: seq<ArrheniusModel>, T: real) returns (k: real)
    ensures k == SumOfRates(list, T)
  {
    k := 0.0;
    var i := 0;
    while i < |list|
      invariant 0 <= i <= |list|
      invariant k == SumOfRates(list[..i], T)
    {
      assert list[..i + 1][..i] == list[..i];
      k := k + ArrheniusRate(list[i], T);
      i := i + 1;
    }
    assert list[..|list|] == list;
  }

  /** Summing is additive over concatenation, so splitting a multi-Arrhenius list splits its rate. */
  lemma {:induction false} SumOfRatesAppend(a: seq<ArrheniusModel>, b: seq<ArrheniusModel>, T: real)
    ensures SumOfRates(a + b, T) == SumOfRates(a, T) + SumOfRates(b, T)
    decreases |b|
  {
    if |b| == 0 {
      assert a + b == a;
    } else {
      var b' := b[..|b| - 1];
      assert (a + b)[..|a + b| - 1] == a + b';
      SumOfRatesAppend(a, b', T);
    }
  }

  // ---------------------------------------------------------------------
  // Pressure-dependent Arrhenius

  datatype PDepArrheniusModel = PDepArrheniusModel(pressures: seq<real>, arrhenius: seq<ArrheniusModel>,
                                                   Tmin: real, Tmax: real, Pmin: real, Pmax: real)

  predicate AtOrBelow(pressures: seq<real>, i: int, P: real)
    requires 0 <= i < |pressures|
  {
    pressures[i] <= P
  }

  /** Some entry after the first lies at or below P. */
  predicate AnyAtOrBelow(pressures: seq<real>, P: real)
  {
    exists i :: 1 <= i < |pressures| && AtOrBelow(pressures, i, P)
  }

  /**
   * The search of `getAdjacentExpressions`. `ilow` is the last index from 1 on
   * whose pressure is at most P (0 if none), `ihigh` the first (null if none);
   * `plow` and `phigh` both become P as soon as one index matches; otherwise
   * they keep pressures[0] (undefined for an empty list) and 0.0.
   */
  method GetAdjacentExpressions(pressures: seq<real>, P: real)
      returns (plow: Option<real>, phigh: real, ilow: nat, ihigh: Option<nat>)
    ensures ihigh.Some? <==> AnyAtOrBelow(pressures, P)
    ensures ihigh.Some? ==> (1 <= ihigh.value < |pressures| && AtOrBelow(pressures, ihigh.value, P)
      && forall i :: 1 <= i < ihigh.value ==> !AtOrBelow(pressures, i, P))
    ensures ihigh.Some? ==> (1 <= ilow < |pressures| && AtOrBelow(pressures, ilow, P)
      && forall i :: ilow < i < |pressures| ==> !AtOrBelow(pressures, i, P))
    ensures ihigh.Some? ==> plow == Some(P) && phigh == P
    ensures ihigh.None? ==> (ilow == 0 && phigh == 0.0
      && plow == (if |pressures| > 0 then Some(pressures[0]) else None))
  {
    ilow := 0;
    ihigh := None;
    plow := if |pressures| > 0 then Some(pressures[0]) else None;
    phigh := 0.0;
    var i := 1;
    while i < |pressures|
      invariant 1 <= i <= |pressures| || (|pressures| == 0 && i == 1)
      invariant ihigh.None? ==> forall j :: 1 <= j < i && j < |pressures| ==> !AtOrBelow(pressures, j, P)
      invariant ihigh.Some? ==> (1 <= ihigh.value < i && ihigh.value < |pressures|
        && AtOrBelow(pressures, ihigh.value, P)
        && forall j :: 1 <= j < ihigh.value ==> !AtOrBelow(pressures, j, P))
      invariant ihigh.Some? ==> (1 <= ilow < i && ilow < |pressures| && AtOrBelow(pressures, ilow, P)
        && forall j :: ilow < j < i && j < |pressures| ==> !AtOrBelow(pressures, j, P))
      invariant ihigh.Some? ==> plow == Some(P) && phigh == P
      invariant ihigh.None? ==> (ilow == 0 && phigh == 0.0
        && plow == (if |pressures| > 0 then Some(pressures[0]) else None))
    {
      if pressures[i] <= P {
        ilow := i;
        plow := Some(P);
      }
      if pressures[i] <= P && ihigh.None? {
        ihigh := Some(i);
        phigh := P;
      }
      i := i + 1;
    }
  }

  /**
   * `getRateCoefficient` of the pressure-dependent model. When an index from 1
   * on matches, Plow and Phigh are both P and the rate of the LAST matching
   * branch is returned. When none matches, Plow = pressures[0] and Phigh = 0,
   * which agree only for a zero first pressure; otherwise the branch at `ihigh`
   * is `arrhenius[null]`, undefined, and calling it raises. The logarithmic
   * interpolation between two pressures is therefore never evaluated.
   */
  method GetPDepRate(m: PDepArrheniusModel, T: real, P: real) returns (r: Result<real, JsError>)
    ensures AnyAtOrBelow(m.pressures, P) ==>
      exists i :: 1 <= i < |m.pressures| && AtOrBelow(m.pressures, i, P)
        && (forall j :: i < j < |m.pressures| ==> !AtOrBelow(m.pressures, j, P))
        && r == (if i < |m.arrhenius| then Ok(ArrheniusRate(m.arrhenius[i], T)) else Err(TypeError))
    ensures !AnyAtOrBelow(m.pressures, P) && |m.pressures| > 0 && m.pressures[0] == 0.0 ==>
      r == (if |m.arrhenius| > 0 then Ok(ArrheniusRate(m.arrhenius[0], T)) else Err(TypeError))
    ensures !AnyAtOrBelow(m.pressures, P) && (|m.pressures| == 0 || m.pressures[0] != 0.0) ==>
      r == Err(TypeError)
  {
    var plow, phigh, ilow, ihigh := GetAdjacentExpressions(m.pressures, P);
    if plow == Some(phigh) {
      if ilow < |m.arrhenius| {
        r := Ok(ArrheniusRate(m.arrhenius[ilow], T));
      } else {
        r := Err(TypeError);
      }
    } else {
      // `ahigh` is `arrhenius[null]`: undefined whenever the pressures differ.
      r := Err(TypeError);
    }
  }

  // ---------------------------------------------------------------------
  // Chebyshev

  datatype ChebyshevModel = ChebyshevModel(coeffs: seq<seq<real>>, Tmin: real, Tmax: real, Pmin: real, Pmax: real)

  function ReducedTemperature(m: ChebyshevModel, T: real): real
  {
    Div(Div(2.0, T) - Div(1.0, m.Tmin) - Div(1.0, m.Tmax), Div(1.0, m.Tmax) - Div(1.0, m.Tmin))
  }

  function ReducedPressure(m: ChebyshevModel, P: real): real
  {
    Div(2.0 * Log(P) - Log(m.Pmin) - Log(m.Pmax), Log(m.Pmax) - Log(m.Pmin))
  }

  /** The reduced temperature maps Tmin to -1 and Tmax to +1. */
  lemma ReducedTemperatureEndpoints(m: ChebyshevModel)
    requires m.Tmin != 0.0 && m.Tmax != 0.0 && m.Tmin != m.Tmax
    ensures ReducedTemperature(m, m.Tmin) == -1.0
    ensures ReducedTemperature(m, m.Tmax) == 1.0
  {
    var a, b := 1.0 / m.Tmin, 1.0 / m.Tmax;
    assert a != b;
    assert 2.0 / m.Tmin == 2.0 * a;
    assert 2.0 / m.Tmax == 2.0 * b;
    var d := b - a;
    assert ReducedTemperature(m, m.Tmin) == (-d) / d;
    assert ReducedTemperature(m, m.Tmax) == d / d;
    assert (-d) / d == -1.0;
  }

  /** The reduced pressure maps Pmin to -1 and Pmax to +1, whatever the logarithm. */
  lemma ReducedPressureEndpoints(m: ChebyshevModel)
    requires Log(m.Pmin) != Log(m.Pmax)
    ensures ReducedPressure(m, m.Pmin) == -1.0
    ensures ReducedPressure(m, m.Pmax) == 1.0
  {
    var a, b := Log(m.Pmin), Log(m.Pmax);
    var d := b - a;
    assert 2.0 * a - a - b == -d;
    assert 2.0 * b - a - b == d;
    assert (-d) / d == -1.0;
    assert d / d == 1.0;
  }

  /** The closed forms of the first ten Chebyshev polynomials, cos(n acos x) beyond. */
  function ChebyshevPolynomial(n: nat, x: real): real
  {
    if n == 0 then 1.0
    else if n == 1 then x
    else if n == 2 then -1.0 + 2.0 * x * x
    else if n == 3 then x * (-3.0 + 4.0 * x * x)
    else if n == 4 then 1.0 + x * x * (-8.0 + 8.0 * x * x)
    else if n == 5 then x * (5.0 + x * x * (-20.0 + 16.0 * x * x))
    else if n == 6 then -1.0 + x * x * (18.0 + x * x * (-48.0 + 32.0 * x * x))
    else if n == 7 then x * (-7.0 + x * x * (56.0 + x * x * (-112.0 + 64.0 * x * x)))
    else if n == 8 then 1.0 + x * x * (-32.0 + x * x * (160.0 + x * x * (-256.0 + 128.0 * x * x)))
    else if n == 9 then x * (9.0 + x * x * (-120.0 + x * x * (432.0 + x * x * (-576.0 + 256.0 * x * x))))
    else Cos(n as real * Acos(x))
  }

  /** One application of the three-term recurrence: 2x a - b. */
  function RecurrenceStep(x: real, a: real, b: real): real
  {
    2.0 * x * a - b
  }

  /** The defining recurrence T(0) = 1, T(1) = x, T(n) = 2x T(n-1) - T(n-2). */
  function ChebyshevByRecurrence(n: nat, x: real): real
  {
    if n == 0 then 1.0
    else if n == 1 then x
    else RecurrenceStep(x, ChebyshevByRecurrence(n - 1, x), ChebyshevByRecurrence(n - 2, x))
  }

  /** Each hard-coded closed form is the recurrence applied to the two before it. */
  lemma ClosedFormStep(n: nat, x: real)
    requires 2 <= n <= 9
    ensures ChebyshevPolynomial(n, x)
         == RecurrenceStep(x, ChebyshevPolynomial(n - 1, x), ChebyshevPolynomial(n - 2, x))
  {
    var y := x * x;
    if n == 2 {
    } else if n == 3 {
    } else if n == 4 {
      assert 2.0 * x * (x * (-3.0 + 4.0 * y)) == y * (-6.0 + 8.0 * y);
    } else if n == 5 {
      assert 2.0 * x * (1.0 + y * (-8.0 + 8.0 * y)) == x * (2.0 + y * (-16.0 + 16.0 * y));
    } else if n == 6 {
      assert 2.0 * x * (x * (5.0 + y * (-20.0 + 16.0 * y))) == y * (10.0 + y * (-40.0 + 32.0 * y));
    } else if n == 7 {
      assert 2.0 * x * (-1.0 + y * (18.0 + y * (-48.0 + 32.0 * y)))
          == x * (-2.0 + y * (36.0 + y * (-96.0 + 64.0 * y)));
    } else if n == 8 {
      assert 2.0 * x * (x * (-7.0 + y * (56.0 + y * (-112.0 + 64.0 * y))))
          == y * (-14.0 + y * (112.0 + y * (-224.0 + 128.0 * y)));
    } else {
      assert 2.0 * x * (1.0 + y * (-32.0 + y * (160.0 + y * (-256.0 + 128.0 * y))))
          == x * (2.0 + y * (-64.0 + y * (320.0 + y * (-512.0 + 256.0 * y))));
    }
  }

  /** The closed forms are the Chebyshev polynomials of the first kind. */
  lemma ClosedFormsAreChebyshev(n: nat, x: real)
    requires n <= 9
    ensures ChebyshevPolynomial(n, x) == ChebyshevByRecurrence(n, x)
  {
    var k := 2;
    while k <= n
      invariant 2 <= k <= n + 2 && k <= 10
      invariant ChebyshevPolynomial(k - 1, x) == ChebyshevByRecurrence(k - 1, x)
      invariant ChebyshevPolynomial(k - 2, x) == ChebyshevByRecurrence(k - 2, x)
    {
      ClosedFormStep(k, x);
      k := k + 1;
    }
  }

  /** Row t of the double sum: sum over p of coeffs[t][p] T_t(Tred) T_p(Pred). */
  function RowSum(row: seq<real>, t: nat, Tred: real, Pred: real): real
  {
    if |row| == 0 then 0.0
    else RowSum(row[..|row| - 1], t, Tred, Pred)
         + row[|row| - 1] * ChebyshevPolynomial(t, Tred) * ChebyshevPolynomial(|row| - 1, Pred)
  }

  /** The double sum over the first rows of the coefficient matrix. */
  function ChebyshevSum(coeffs: seq<seq<real>>, Tred: real, Pred: real): real
  {
    if |coeffs| == 0 then 0.0
    else ChebyshevSum(coeffs[..|coeffs| - 1], Tred, Pred) + RowSum(coeffs[|coeffs| - 1], |coeffs| - 1, Tred, Pred)
  }

  lemma RowSumExtend(row: seq<real>, p: nat, t: nat, Tred: real, Pred: real)
    requires p < |row|
    ensures RowSum(row[..p + 1], t, Tred, Pred)
         == RowSum(row[..p], t, Tred, Pred) + row[p] * ChebyshevPolynomial(t, Tred) * ChebyshevPolynomial(p, Pred)
  {
    assert row[..p + 1][..p] == row[..p];
  }

  method GetChebyshevRate(m: ChebyshevModel, T: real, P: real) returns (k: real)
    ensures k == Pow(10.0, ChebyshevSum(m.coeffs, ReducedTemperature(m, T), ReducedPressure(m, P)))
  {
    var sum := 0.0;
    var Tred := ReducedTemperature(m, T);
    var Pred := ReducedPressure(m, P);
    var t := 0;
    while t < |m.coeffs|
      invariant 0 <= t <= |m.coeffs|
      invariant sum == ChebyshevSum(m.coeffs[..t], Tred, Pred)
    {
      var row := m.coeffs[t];
      var p := 0;
      while p < |row|
        invariant 0 <= p <= |row|
        invariant sum == ChebyshevSum(m.coeffs[..t], Tred, Pred) + RowSum(row[..p], t, Tred, Pred)
      {
        RowSumExtend(row, p, t, Tred, Pred);
        sum := sum + row[p] * ChebyshevPolynomial(t, Tred) * ChebyshevPolynomial(p, Pred);
        p := p + 1;
      }
      assert row[..|row|] == row;
      assert m.coeffs[..t + 1][..t] == m.coeffs[..t];
      t := t + 1;
    }
    assert m.coeffs[..|m.coeffs|] == m.coeffs;
    k := Pow(10.0, sum);
  }

  /** A one-by-one coefficient matrix is a temperature- and pressure-independent log10 k. */
  lemma {:induction false} SingleCoefficientChebyshev(c: real, Tred: real, Pred: real)
    ensures ChebyshevSum([[c]], Tred, Pred) == c
  {
    assert [[c]][..0] == [];
    assert [c][..0] == [];
    assert RowSum([c], 0, Tred, Pred) == 0.0 + c * 1.0 * 1.0;
  }

  // ---------------------------------------------------------------------
  // Third-body and falloff models

  datatype ThirdBodyModel = ThirdBodyModel(high: ArrheniusModel, Tmin: real, Tmax: real, Pmin: real, Pmax: real)

  /** The bath-gas concentration [M] = P/(R T) of an ideal gas. */
  function Concentration(T: real, P: real): real
  {
    Div(P / GasConstant, T)
  }

  /** k = k_inf(T) [M]. */
  function ThirdBodyRate(m: ThirdBodyModel, T: real, P: real): (k: real)
    ensures T != 0.0 && P == 0.0 ==> k == 0.0
    ensures T > 0.0 && P > 0.0 && ArrheniusRate(m.high, T) > 0.0 ==> k > 0.0
  {
    ArrheniusRate(m.high, T) * Concentration(T, P)
  }

  datatype LindemannModel = LindemannModel(high: ArrheniusModel, low: ArrheniusModel,
                                           Tmin: real, Tmax: real, Pmin: real, Pmax: real)

  /** The reduced pressure Pr = k0 [M] / k_inf. */
  function ReducedPressureRatio(high: ArrheniusModel, low: ArrheniusModel, T: real, P: real): real
  {
    Div(ArrheniusRate(low, T) * Concentration(T, P), ArrheniusRate(high, T))
  }

  /** k = k_inf Pr/(1 + Pr), with broadening factor F = 1. */
  function LindemannRate(m: LindemannModel, T: real, P: real): real
  {
    var Pr := ReducedPressureRatio(m.high, m.low, T, P);
    ArrheniusRate(m.high, T) * Div(Pr, 1.0 + Pr) * 1.0
  }

  /** With positive limits the falloff rate lies below both the high- and the low-pressure limit. */
  lemma LindemannBelowBothLimits(m: LindemannModel, T: real, P: real)
    requires T > 0.0 && P > 0.0
    requires ArrheniusRate(m.high, T) > 0.0 && ArrheniusRate(m.low, T) > 0.0
    ensures 0.0 < LindemannRate(m, T, P) < ArrheniusRate(m.high, T)
    ensures LindemannRate(m, T, P) < ArrheniusRate(m.low, T) * Concentration(T, P)
  {
    var kinf, k0, C := ArrheniusRate(m.high, T), ArrheniusRate(m.low, T), Concentration(T, P);
    assert C > 0.0;
    var Pr := ReducedPressureRatio(m.high, m.low, T, P);
    assert Pr == k0 * C / kinf;
    assert Pr > 0.0;
    var f := Pr / (1.0 + Pr);
    assert 0.0 < f < 1.0;
    assert LindemannRate(m, T, P) == kinf * f;
    assert kinf * f < kinf;
    assert kinf * f == k0 * C / (1.0 + Pr) by {
      assert kinf * Pr == k0 * C;
    }
    assert k0 * C / (1.0 + Pr) < k0 * C;
  }

  datatype TroeModel = TroeModel(high: ArrheniusModel, low: ArrheniusModel, alpha: real, T3: real, T1: real, T2: real,
                                 Tmin: real, Tmax: real, Pmin: real, Pmax: real)

  /**
   * The constructor: the Troe parameters alpha, T3, T1 and T2 and Tmin and
   * Pmin default to 0, so a given value is always kept; Tmax and Pmax are
   * kept unless omitted or zero, when they become 99999.9 and 1e100. An
   * omitted T2 is thus 0, not the sentinel 1e100.
   */
  function NewTroe(high: ArrheniusModel, low: ArrheniusModel, alpha: Option<real>, T3: Option<real>,
                   T1: Option<real>, T2: Option<real>, Tmin: Option<real>, Tmax: Option<real>,
                   Pmin: Option<real>, Pmax: Option<real>): (m: TroeModel)
    ensures m.high == high && m.low == low
    ensures alpha.Some? ==> m.alpha == alpha.value
    ensures T3.Some? ==> m.T3 == T3.value
    ensures T1.Some? ==> m.T1 == T1.value
    ensures T2.Some? ==> m.T2 == T2.value
    ensures Tmin.Some? ==> m.Tmin == Tmin.value
    ensures Pmin.Some? ==> m.Pmin == Pmin.value
    ensures alpha.None? ==> m.alpha == 0.0
    ensures T3.None? ==> m.T3 == 0.0
    ensures T1.None? ==> m.T1 == 0.0
    ensures T2.None? ==> m.T2 == 0.0
    ensures Tmin.None? ==> m.Tmin == 0.0
    ensures Pmin.None? ==> m.Pmin == 0.0
    ensures Tmax.Some? && Tmax.value != 0.0 ==> m.Tmax == Tmax.value
    ensures Tmax.None? || Tmax.value == 0.0 ==> m.Tmax == 99999.9
    ensures Pmax.Some? && Pmax.value != 0.0 ==> m.Pmax == Pmax.value
    ensures Pmax.None? || Pmax.value == 0.0 ==> m.Pmax == 1.0e100
  {
    TroeModel(high, low, OrDefault(alpha, 0.0), OrDefault(T3, 0.0), OrDefault(T1, 0.0), OrDefault(T2, 0.0),
              OrDefault(Tmin, 0.0), OrDefault(Tmax, 99999.9), OrDefault(Pmin, 0.0), OrDefault(Pmax, 1.0e100))
  }

  /** The centre broadening Fcent; the T2 term is left out only when T2 is exactly 1e100. */
  function TroeCentre(m: TroeModel, T: real): real
  {
    var base := (1.0 - m.alpha) * Exp(Div(-T, m.T3)) + m.alpha * Exp(Div(-T, m.T1));
    if m.T2 != 1.0e100 then base + Exp(Div(-m.T2, T)) else base
  }

  /** The broadening factor F at reduced pressure Pr. */
  function TroeBroadening(Fcent: real, Pr: real): real
  {
    var d := 0.14;
    var n := 0.75 - 1.27 * Log(Fcent) / Ln10;
    var c := -0.4 - 0.67 * Log(Fcent) / Ln10;
    var x := Div(Log10(Pr) + c, n - d * Log10(Pr));
    Pow(10.0, Div(Log10(Fcent), 1.0 + Pow(x, 2.0)))
  }

  function TroeRate(m: TroeModel, T: real, P: real): real
  {
    var Pr := ReducedPressureRatio(m.high, m.low, T, P);
    ArrheniusRate(m.high, T) * Div(Pr, 1.0 + Pr) * TroeBroadening(TroeCentre(m, T), Pr)
  }

  /** Troe is the Lindemann rate of the same limits scaled by its broadening factor. */
  lemma TroeIsScaledLindemann(m: TroeModel, T: real, P: real)
    ensures TroeRate(m, T, P)
         == LindemannRate(LindemannModel(m.high, m.low, m.Tmin, m.Tmax, m.Pmin, m.Pmax), T, P)
            * TroeBroadening(TroeCentre(m, T), ReducedPressureRatio(m.high, m.low, T, P))
  {
  }

  /**
   * An omitted T2 is stored as 0, which is not the 1e100 sentinel, so the
   * term exp(-0/T) = 1 is still added to Fcent.
   */
  lemma OmittedT2AddsOne(high: ArrheniusModel, low: ArrheniusModel, alpha: Option<real>, T3: Option<real>,
                         T1: Option<real>, T: real)
    requires T != 0.0 && ExpOfZero()
    ensures var m := NewTroe(high, low, alpha, T3, T1, None, None, None, None, None);
      TroeCentre(m, T) == (1.0 - m.alpha) * Exp(Div(-T, m.T3)) + m.alpha * Exp(Div(-T, m.T1)) + 1.0
  {
  }

  /** Only the exact sentinel 1e100 switches the T2 term off. */
  lemma SentinelT2DropsTerm(m: TroeModel, T: real)
    requires m.T2 == 1.0e100
    ensures TroeCentre(m, T) == (1.0 - m.alpha) * Exp(Div(-T, m.T3)) + m.alpha * Exp(Div(-T, m.T1))
  {
  }
}
