/**
 * The thermodynamics evaluators of the browser thermo engine: group
 * additivity (tabulated heat capacity), Wilhoit, a single NASA polynomial and
 * a set of NASA polynomials. The group-additivity loops become methods proved
 * against specification functions; the closed forms stay functions.
 */
module Thermo {
  import opened Common
  import opened JsMath
  import opened Tables

  // ---------------------------------------------------------------------
  // Group additivity: tabulated heat capacity

  datatype ThermoGAModel = ThermoGAModel(Tdata: seq<real>, Cpdata: seq<real>, H298: real, S298: real,
                                         Tmin: real, Tmax: real)

  predicate WellFormed(m: ThermoGAModel)
  {
    |m.Cpdata| == |m.Tdata|
  }

  /** Linear interpolation of Cp in T on segment i. */
  function SegmentHeatCapacity(m: ThermoGAModel, i: nat, T: real): real
    requires WellFormed(m) && i + 1 < |m.Tdata|
  {
    (m.Cpdata[i + 1] - m.Cpdata[i]) * Div(T - m.Tdata[i], m.Tdata[i + 1] - m.Tdata[i]) + m.Cpdata[i]
  }

  /** What `getHeatCapacity` returns: clamp below and above, else the last bracketing segment, else 0. */
  function HeatCapacity(m: ThermoGAModel, T: real): real
    requires WellFormed(m)
  {
    if |m.Tdata| == 0 then 0.0
    else if T < m.Tdata[0] then m.Cpdata[0]
    else if T >= m.Tdata[|m.Tdata| - 1] then m.Cpdata[|m.Cpdata| - 1]
    else
      match LastBracket(m.Tdata, T, |m.Tdata| - 1)
      case None => 0.0
      case Some(i) => SegmentHeatCapacity(m, i, T)
  }

  method GetHeatCapacity(m: ThermoGAModel, T: real) returns (Cp: real)
    requires WellFormed(m)
    ensures Cp == HeatCapacity(m, T)
  {
    Cp := 0.0;
    if |m.Tdata| == 0 {
      return;
    }
    if T < m.Tdata[0] {
      Cp := m.Cpdata[0];
    } else if T >= m.Tdata[|m.Tdata| - 1] {
      Cp := m.Cpdata[|m.Cpdata| - 1];
    } else {
      var i := 0;
      while i < |m.Tdata| - 1
        invariant 0 <= i <= |m.Tdata| - 1
        invariant Cp == match LastBracket(m.Tdata, T, i) case None => 0.0 case Some(j) => SegmentHeatCapacity(m, j, T)
      {
        if m.Tdata[i] <= T && T < m.Tdata[i + 1] {
          Cp := SegmentHeatCapacity(m, i, T);
        }
        i := i + 1;
      }
    }
  }

  /** At a tabulated temperature of an increasing table the tabulated heat capacity comes back. */
  lemma HeatCapacityAtDataPoint(m: ThermoGAModel, i: nat)
    requires WellFormed(m) && i < |m.Tdata| && StrictlyIncreasing(m.Tdata)
    ensures HeatCapacity(m, m.Tdata[i]) == m.Cpdata[i]
  {
    var last := |m.Tdata| - 1;
    if i == last {
      return;
    }
    assert m.Tdata[0] <= m.Tdata[i] < m.Tdata[last];
    BracketAtDataPoint(m.Tdata, i);
    SegmentStart(m, i);
  }

  /** At the left end of a segment the interpolation gives that end's value. */
  lemma SegmentStart(m: ThermoGAModel, i: nat)
    requires WellFormed(m) && i + 1 < |m.Tdata| && m.Tdata[i] < m.Tdata[i + 1]
    ensures SegmentHeatCapacity(m, i, m.Tdata[i]) == m.Cpdata[i]
  {
    var f := Div(m.Tdata[i] - m.Tdata[i], m.Tdata[i + 1] - m.Tdata[i]);
    assert f == 0.0;
    assert (m.Cpdata[i + 1] - m.Cpdata[i]) * f == 0.0;
  }

  /** Inside a segment the interpolated heat capacity lies between its two end values. */
  lemma SegmentHeatCapacityBetween(m: ThermoGAModel, i: nat, T: real)
    requires WellFormed(m) && i + 1 < |m.Tdata|
    requires m.Tdata[i] <= T < m.Tdata[i + 1]
    ensures m.Cpdata[i] <= m.Cpdata[i + 1] ==> m.Cpdata[i] <= SegmentHeatCapacity(m, i, T) <= m.Cpdata[i + 1]
    ensures m.Cpdata[i + 1] <= m.Cpdata[i] ==> m.Cpdata[i + 1] <= SegmentHeatCapacity(m, i, T) <= m.Cpdata[i]
  {
    var f := (T - m.Tdata[i]) / (m.Tdata[i + 1] - m.Tdata[i]);
    assert 0.0 <= f <= 1.0;
    var d := m.Cpdata[i + 1] - m.Cpdata[i];
    assert SegmentHeatCapacity(m, i, T) == d * f + m.Cpdata[i];
    if d >= 0.0 {
      assert 0.0 <= d * f <= d;
    } else {
      assert d <= d * f <= 0.0;
    }
  }

  // ---------------------------------------------------------------------
  // Group additivity: enthalpy and entropy by exact integration of the interpolant

  /** Slope and intercept of the straight line through the segment's end points. */
  function Slope(m: ThermoGAModel, i: nat): real
    requires WellFormed(m) && i + 1 < |m.Tdata|
  {
    Div(m.Cpdata[i + 1] - m.Cpdata[i], m.Tdata[i + 1] - m.Tdata[i])
  }

  function Intercept(m: ThermoGAModel, i: nat): real
    requires WellFormed(m) && i + 1 < |m.Tdata|
  {
    Div(m.Cpdata[i] * m.Tdata[i + 1] - m.Cpdata[i + 1] * m.Tdata[i], m.Tdata[i + 1] - m.Tdata[i])
  }

  /** The integral of the line a + bT from lo to hi. */
  function LineIntegral(slope: real, intercept: real, lo: real, hi: real): real
  {
    0.5 * slope * (hi * hi - lo * lo) + intercept * (hi - lo)
  }

  /** The enthalpy gained over segment i up to T: nothing below it, part of it inside, all of it above. */
  function EnthalpyIncrement(m: ThermoGAModel, i: nat, T: real): real
    requires WellFormed(m) && i + 1 < |m.Tdata|
  {
    var lo, hi := m.Tdata[i], m.Tdata[i + 1];
    if T > lo then
      if T < hi then LineIntegral(Slope(m, i), Intercept(m, i), lo, T)
      else LineIntegral(Slope(m, i), Intercept(m, i), lo, hi)
    else 0.0
  }

  function EnthalpyOverSegments(m: ThermoGAModel, T: real, n: nat): real
    requires WellFormed(m) && n < |m.Tdata|
  {
    if n == 0 then m.H298 else EnthalpyOverSegments(m, T, n - 1) + EnthalpyIncrement(m, n - 1, T)
  }

  /** One more segment; one at or above T adds nothing. */
  lemma EnthalpyStep(m: ThermoGAModel, T: real, i: nat)
    requires WellFormed(m) && i + 1 < |m.Tdata|
    ensures EnthalpyOverSegments(m, T, i + 1) == EnthalpyOverSegments(m, T, i) + EnthalpyIncrement(m, i, T)
    ensures T <= m.Tdata[i] ==> EnthalpyIncrement(m, i, T) == 0.0
  {
  }

  /** What `getEnthalpy` returns: H298, every segment's increment, and a constant-Cp tail past the table. */
  function Enthalpy(m: ThermoGAModel, T: real): real
    requires WellFormed(m)
  {
    if |m.Tdata| == 0 then m.H298
    else
      var last := |m.Tdata| - 1;
      var H := EnthalpyOverSegments(m, T, last);
      if T > m.Tdata[last] then H + m.Cpdata[last] * (T - m.Tdata[last]) else H
  }

  method GetEnthalpy(m: ThermoGAModel, T: real) returns (H: real)
    requires WellFormed(m)
    ensures H == Enthalpy(m, T)
  {
    H := m.H298;
    if |m.Tdata| == 0 {
      // The loop is empty and `T > undefined` is false.
      return;
    }
    var i := 0;
    while i < |m.Tdata| - 1
      invariant 0 <= i <= |m.Tdata| - 1
      invariant H == EnthalpyOverSegments(m, T, i)
    {
      EnthalpyStep(m, T, i);
      if T > m.Tdata[i] {
        H := H + EnthalpyIncrement(m, i, T);
      }
      i := i + 1;
    }
    var last := |m.Tdata| - 1;
    if T > m.Tdata[last] {
      EnthalpyPastTable(m, T, H);
      H := H + m.Cpdata[last] * (T - m.Tdata[last]);
    } else {
      EnthalpyWithinTable(m, T, H);
    }
  }

  /** The segment's line passes through its lower end point. */
  lemma LineThroughLowerEnd(m: ThermoGAModel, i: nat)
    requires WellFormed(m) && i + 1 < |m.Tdata| && m.Tdata[i] != m.Tdata[i + 1]
    ensures Slope(m, i) * m.Tdata[i] + Intercept(m, i) == m.Cpdata[i]
  {
    var lo, hi, clo, chi := m.Tdata[i], m.Tdata[i + 1], m.Cpdata[i], m.Cpdata[i + 1];
    var d := hi - lo;
    var s, b := Slope(m, i), Intercept(m, i);
    assert s * d == chi - clo;
    assert b * d == clo * hi - chi * lo;
    assert (s * lo + b) * d == clo * d;
  }

  /**
   * The enthalpy gained inside a segment is the trapezoid under the
   * interpolated heat capacity: (T - lo)(Cp(lo) + Cp(T))/2, so getEnthalpy
   * integrates exactly the curve getHeatCapacity draws.
   */
  lemma EnthalpyIncrementIsTrapezoid(m: ThermoGAModel, i: nat, T: real)
    requires WellFormed(m) && i + 1 < |m.Tdata| && m.Tdata[i] < m.Tdata[i + 1]
    requires m.Tdata[i] < T < m.Tdata[i + 1]
    ensures EnthalpyIncrement(m, i, T) == (T - m.Tdata[i]) * (m.Cpdata[i] + SegmentHeatCapacity(m, i, T)) / 2.0
  {
    var lo, s, b := m.Tdata[i], Slope(m, i), Intercept(m, i);
    LineThroughLowerEnd(m, i);
    SegmentOnLine(m, i, T);
    assert EnthalpyIncrement(m, i, T) == LineIntegral(s, b, lo, T);
    Trapezoid(s, b, lo, T, m.Cpdata[i]);
  }

  /** Inside a segment the interpolated heat capacity is the line through its lower end with the segment's slope. */
  lemma SegmentOnLine(m: ThermoGAModel, i: nat, T: real)
    requires WellFormed(m) && i + 1 < |m.Tdata| && m.Tdata[i] < m.Tdata[i + 1]
    ensures SegmentHeatCapacity(m, i, T) == Slope(m, i) * (T - m.Tdata[i]) + m.Cpdata[i]
  {
    var d := m.Tdata[i + 1] - m.Tdata[i];
    var c := m.Cpdata[i + 1] - m.Cpdata[i];
    assert c * ((T - m.Tdata[i]) / d) == (c / d) * (T - m.Tdata[i]);
  }

  /** The integral of a line from lo to T is the trapezoid under it. */
  lemma Trapezoid(s: real, b: real, lo: real, T: real, c0: real)
    requires s * lo + b == c0
    ensures LineIntegral(s, b, lo, T) == (T - lo) * (c0 + (s * (T - lo) + c0)) / 2.0
  {
    assert T * T - lo * lo == (T - lo) * (T + lo);
    assert LineIntegral(s, b, lo, T) == (T - lo) * (0.5 * s * (T + lo) + b);
  }

  /** A whole segment contributes (hi - lo)(Cp(lo) + Cp(hi))/2. */
  lemma FullSegmentIsTrapezoid(m: ThermoGAModel, i: nat, T: real)
    requires WellFormed(m) && i + 1 < |m.Tdata| && m.Tdata[i] < m.Tdata[i + 1]
    requires T >= m.Tdata[i + 1]
    ensures EnthalpyIncrement(m, i, T)
         == (m.Tdata[i + 1] - m.Tdata[i]) * (m.Cpdata[i] + m.Cpdata[i + 1]) / 2.0
  {
    var lo, hi := m.Tdata[i], m.Tdata[i + 1];
    var s, b := Slope(m, i), Intercept(m, i);
    LineThroughLowerEnd(m, i);
    assert s * (hi - lo) == m.Cpdata[i + 1] - m.Cpdata[i];
    assert hi * hi - lo * lo == (hi - lo) * (hi + lo);
    assert LineIntegral(s, b, lo, hi) == (hi - lo) * (0.5 * s * (hi + lo) + b);
  }

  lemma {:induction false} NoIncrementBelowTable(m: ThermoGAModel, T: real, n: nat)
    requires WellFormed(m) && n < |m.Tdata| && StrictlyIncreasing(m.Tdata) && T <= m.Tdata[0]
    ensures EnthalpyOverSegments(m, T, n) == m.H298
    ensures EntropyOverSegments(m, T, n) == m.S298
  {
    if n > 0 {
      NoIncrementBelowTable(m, T, n - 1);
    }
  }

  /** At or below the first tabulated temperature the enthalpy and entropy are the 298 K values. */
  lemma BelowTableIsReference(m: ThermoGAModel, T: real)
    requires WellFormed(m) && |m.Tdata| > 0 && StrictlyIncreasing(m.Tdata) && T <= m.Tdata[0]
    ensures Enthalpy(m, T) == m.H298
    ensures Entropy(m, T) == m.S298
  {
    NoIncrementBelowTable(m, T, |m.Tdata| - 1);
  }

  lemma {:induction false} SegmentsFullPastTable(m: ThermoGAModel, T: real, n: nat)
    requires WellFormed(m) && StrictlyIncreasing(m.Tdata) && n < |m.Tdata|
    requires T >= m.Tdata[|m.Tdata| - 1]
    ensures EnthalpyOverSegments(m, T, n) == EnthalpyOverSegments(m, m.Tdata[|m.Tdata| - 1], n)
    ensures EntropyOverSegments(m, T, n) == EntropyOverSegments(m, m.Tdata[|m.Tdata| - 1], n)
  {
    if n > 0 {
      SegmentsFullPastTable(m, T, n - 1);
    }
  }

  /**
   * Past the last tabulated temperature the heat capacity is held at its last
   * value: H(T) = H(T_last) + Cp_last (T - T_last) and
   * S(T) = S(T_last) + Cp_last log(T / T_last).
   */
  lemma PastTableUsesLastHeatCapacity(m: ThermoGAModel, T: real)
    requires WellFormed(m) && |m.Tdata| > 0 && StrictlyIncreasing(m.Tdata)
    requires T > m.Tdata[|m.Tdata| - 1]
    ensures Enthalpy(m, T)
         == Enthalpy(m, m.Tdata[|m.Tdata| - 1]) + m.Cpdata[|m.Tdata| - 1] * (T - m.Tdata[|m.Tdata| - 1])
    ensures Entropy(m, T)
         == Entropy(m, m.Tdata[|m.Tdata| - 1]) + m.Cpdata[|m.Tdata| - 1] * Log(Div(T, m.Tdata[|m.Tdata| - 1]))
  {
    var last := |m.Tdata| - 1;
    SegmentsFullPastTable(m, T, last);
    var H, S := EnthalpyOverSegments(m, T, last), EntropyOverSegments(m, T, last);
    EnthalpyPastTable(m, T, H);
    EnthalpyAtTableEnd(m, H);
    EntropyPastTable(m, T, S);
    EntropyAtTableEnd(m, S);
  }

  /** Past the table the enthalpy adds the constant-Cp tail to what the segments contribute. */
  lemma EnthalpyPastTable(m: ThermoGAModel, T: real, H: real)
    requires WellFormed(m) && |m.Tdata| > 0 && T > m.Tdata[|m.Tdata| - 1]
    requires H == EnthalpyOverSegments(m, T, |m.Tdata| - 1)
    ensures Enthalpy(m, T) == H + m.Cpdata[|m.Tdata| - 1] * (T - m.Tdata[|m.Tdata| - 1])
  {
  }

  /** At the last tabulated temperature the enthalpy is what the segments contribute. */
  lemma EnthalpyAtTableEnd(m: ThermoGAModel, H: real)
    requires WellFormed(m) && |m.Tdata| > 0
    requires H == EnthalpyOverSegments(m, m.Tdata[|m.Tdata| - 1], |m.Tdata| - 1)
    ensures Enthalpy(m, m.Tdata[|m.Tdata| - 1]) == H
  {
  }

  /** Past the table the entropy adds the constant-Cp tail to what the segments contribute. */
  lemma EntropyPastTable(m: ThermoGAModel, T: real, S: real)
    requires WellFormed(m) && |m.Tdata| > 0 && T > m.Tdata[|m.Tdata| - 1]
    requires S == EntropyOverSegments(m, T, |m.Tdata| - 1)
    ensures Entropy(m, T) == S + m.Cpdata[|m.Tdata| - 1] * Log(Div(T, m.Tdata[|m.Tdata| - 1]))
  {
  }

  /** Up to the last tabulated temperature the entropy is what the segments contribute. */
  lemma EntropyWithinTable(m: ThermoGAModel, T: real, S: real)
    requires WellFormed(m) && |m.Tdata| > 0 && T <= m.Tdata[|m.Tdata| - 1]
    requires S == EntropyOverSegments(m, T, |m.Tdata| - 1)
    ensures Entropy(m, T) == S
  {
  }

  /** Up to the last tabulated temperature the enthalpy is what the segments contribute. */
  lemma EnthalpyWithinTable(m: ThermoGAModel, T: real, H: real)
    requires WellFormed(m) && |m.Tdata| > 0 && T <= m.Tdata[|m.Tdata| - 1]
    requires H == EnthalpyOverSegments(m, T, |m.Tdata| - 1)
    ensures Enthalpy(m, T) == H
  {
  }

  /** At the last tabulated temperature the entropy is what the segments contribute. */
  lemma EntropyAtTableEnd(m: ThermoGAModel, S: real)
    requires WellFormed(m) && |m.Tdata| > 0
    requires S == EntropyOverSegments(m, m.Tdata[|m.Tdata| - 1], |m.Tdata| - 1)
    ensures Entropy(m, m.Tdata[|m.Tdata| - 1]) == S
  {
  }

  /** The entropy gained over segment i up to T: the integral of Cp/T under the same line. */
  function EntropyIncrement(m: ThermoGAModel, i: nat, T: real): real
    requires WellFormed(m) && i + 1 < |m.Tdata|
  {
    var lo, hi := m.Tdata[i], m.Tdata[i + 1];
    if T > lo then
      if T < hi then Slope(m, i) * (T - lo) + Intercept(m, i) * Log(Div(T, lo))
      else Slope(m, i) * (hi - lo) + Intercept(m, i) * Log(Div(hi, lo))
    else 0.0
  }

  function EntropyOverSegments(m: ThermoGAModel, T: real, n: nat): real
    requires WellFormed(m) && n < |m.Tdata|
  {
    if n == 0 then m.S298 else EntropyOverSegments(m, T, n - 1) + EntropyIncrement(m, n - 1, T)
  }

  /** One more segment; one at or above T adds nothing. */
  lemma EntropyStep(m: ThermoGAModel, T: real, i: nat)
    requires WellFormed(m) && i + 1 < |m.Tdata|
    ensures EntropyOverSegments(m, T, i + 1) == EntropyOverSegments(m, T, i) + EntropyIncrement(m, i, T)
    ensures T <= m.Tdata[i] ==> EntropyIncrement(m, i, T) == 0.0
  {
  }

  /** What `getEntropy` returns. */
  function Entropy(m: ThermoGAModel, T: real): real
    requires WellFormed(m)
  {
    if |m.Tdata| == 0 then m.S298
    else
      var last := |m.Tdata| - 1;
      var S := EntropyOverSegments(m, T, last);
      if T > m.Tdata[last] then S + m.Cpdata[last] * Log(Div(T, m.Tdata[last])) else S
  }

  method GetEntropy(m: ThermoGAModel, T: real) returns (S: real)
    requires WellFormed(m)
    ensures S == Entropy(m, T)
  {
    S := m.S298;
    if |m.Tdata| == 0 {
      return;
    }
    var i := 0;
    while i < |m.Tdata| - 1
      invariant 0 <= i <= |m.Tdata| - 1
      invariant S == EntropyOverSegments(m, T, i)
    {
      EntropyStep(m, T, i);
      if T > m.Tdata[i] {
        S := S + EntropyIncrement(m, i, T);
      }
      i := i + 1;
    }
    var last := |m.Tdata| - 1;
    if T > m.Tdata[last] {
      EntropyPastTable(m, T, S);
      S := S + m.Cpdata[last] * Log(Div(T, m.Tdata[last]));
    } else {
      EntropyWithinTable(m, T, S);
    }
  }

  /** G = H - T S, from the two evaluations. */
  method GetFreeEnergy(m: ThermoGAModel, T: real) returns (G: real)
    requires WellFormed(m)
    ensures G == Enthalpy(m, T) - Times(T, Entropy(m, T))
  {
    var H := GetEnthalpy(m, T);
    var S := GetEntropy(m, T);
    G := H - Times(T, S);
  }

  // ---------------------------------------------------------------------
  // Wilhoit

  datatype WilhoitModel = WilhoitModel(cp0: real, cpInf: real, a0: real, a1: real, a2: real, a3: real,
                                       B: real, H0: real, S0: real, Tmin: real, Tmax: real)

  /** The Wilhoit scaled temperature y = T/(T + B). */
  function WilhoitY(w: WilhoitModel, T: real): real
  {
    Div(T, T + w.B)
  }

  /** Cp as a function of y: cp0 + (cpInf - cp0) y^2 (1 + (y - 1)(a0 + a1 y + a2 y^2 + a3 y^3)). */
  function WilhoitHeatCapacityAtY(w: WilhoitModel, y: real): real
  {
    w.cp0 + (w.cpInf - w.cp0) * y * y * (1.0 + (y - 1.0) * (w.a0 + y * (w.a1 + y * (w.a2 + y * w.a3))))
  }

  function WilhoitHeatCapacity(w: WilhoitModel, T: real): real
  {
    WilhoitHeatCapacityAtY(w, WilhoitY(w, T))
  }

  /** The Wilhoit form interpolates between cp0 at y = 0 (T = 0) and cpInf at y = 1 (T infinite). */
  lemma WilhoitLimits(w: WilhoitModel)
    ensures WilhoitHeatCapacityAtY(w, 0.0) == w.cp0
    ensures WilhoitHeatCapacityAtY(w, 1.0) == w.cpInf
    ensures w.B != 0.0 ==> WilhoitHeatCapacity(w, 0.0) == w.cp0
  {
  }

  /** With all polynomial coefficients zero and B > 0, Cp rises from cp0 toward cpInf without overshoot. */
  lemma WilhoitBoundedWhenUnperturbed(w: WilhoitModel, T: real)
    requires w.a0 == 0.0 && w.a1 == 0.0 && w.a2 == 0.0 && w.a3 == 0.0
    requires w.B > 0.0 && T >= 0.0 && w.cp0 <= w.cpInf
    ensures w.cp0 <= WilhoitHeatCapacity(w, T) <= w.cpInf
  {
    var y := WilhoitY(w, T);
    assert y == T / (T + w.B);
    assert y * (T + w.B) == T;
    if y >= 1.0 {
      ScaleByNonnegative(y - 1.0, T + w.B);
    }
    assert 0.0 <= y < 1.0;
    assert 0.0 <= y * y <= 1.0;
    var d := w.cpInf - w.cp0;
    assert WilhoitHeatCapacity(w, T) == w.cp0 + d * (y * y);
    assert 0.0 <= d * (y * y) <= d;
  }

  lemma ScaleByNonnegative(a: real, b: real)
    requires a >= 0.0 && b >= 0.0
    ensures a * b >= 0.0
  {
  }

  function WilhoitEnthalpy(w: WilhoitModel, T: real): real
  {
    var y := WilhoitY(w, T);
    var y2 := y * y;
    var logBplusT := Log(w.B + T);
    w.H0 + w.cp0 * T - (w.cpInf - w.cp0) * T * (
      y2 * ((3.0 * w.a0 + w.a1 + w.a2 + w.a3) / 6.0 + (4.0 * w.a1 + w.a2 + w.a3) * y / 12.0
            + (5.0 * w.a2 + w.a3) * y2 / 20.0 + w.a3 * y2 * y / 5.0)
      + (2.0 + w.a0 + w.a1 + w.a2 + w.a3) * (y / 2.0 - 1.0 + (Div(1.0, y) - 1.0) * logBplusT))
  }

  function WilhoitEntropy(w: WilhoitModel, T: real): real
  {
    var y := WilhoitY(w, T);
    w.S0 + w.cpInf * Log(T)
      - (w.cpInf - w.cp0) * (Log(y) + y * (1.0 + y * (w.a0 / 2.0 + y * (w.a1 / 3.0 + y * (w.a2 / 4.0 + y * w.a3 / 5.0)))))
  }

  function WilhoitFreeEnergy(w: WilhoitModel, T: real): real
  {
    WilhoitEnthalpy(w, T) - T * WilhoitEntropy(w, T)
  }

  // ---------------------------------------------------------------------
  // NASA polynomials

  datatype NASAPolynomial = NASAPolynomial(coeffs: seq<real>, Tmin: real, Tmax: real)

  /** A NASA polynomial carries its nine coefficients a0 .. a8. */
  predicate HasNineCoefficients(p: NASAPolynomial)
  {
    |p.coeffs| >= 9
  }

  /** Cp/R = a0/T^2 + a1/T + a2 + a3 T + a4 T^2 + a5 T^3 + a6 T^4. */
  function NASAHeatCapacity(p: NASAPolynomial, T: real): real
    requires HasNineCoefficients(p)
  {
    var c := p.coeffs;
    (Div(Div(c[0], T) + c[1], T) + c[2] + T * (c[3] + T * (c[4] + T * (c[5] + c[6] * T)))) * GasConstant
  }

  /** The part of H/(R T) that does not involve the integration constant a7. */
  function NASAEnthalpyShape(c: seq<real>, T: real): real
    requires |c| == 7
  {
    var T2 := T * T;
    var T4 := T2 * T2;
    Div(Div(-c[0], T) + c[1] * Log(T), T) + c[2] + c[3] * T / 2.0 + c[4] * T2 / 3.0
      + c[5] * T2 * T / 4.0 + c[6] * T4 / 5.0
  }

  /** H = R T (-a0/T^2 + a1 ln T / T + a2 + a3 T/2 + a4 T^2/3 + a5 T^3/4 + a6 T^4/5 + a7/T). */
  function NASAEnthalpy(p: NASAPolynomial, T: real): real
    requires HasNineCoefficients(p)
  {
    (NASAEnthalpyShape(p.coeffs[..7], T) + Div(p.coeffs[7], T)) * GasConstant * T
  }

  /** The part of S/R that does not involve the integration constant a8. */
  function NASAEntropyShape(c: seq<real>, T: real): real
    requires |c| == 7
  {
    var T2 := T * T;
    var T4 := T2 * T2;
    Div(Div(-c[0], T) / 2.0 - c[1], T) + c[2] * Log(T) + c[3] * T + c[4] * T2 / 2.0
      + c[5] * T2 * T / 3.0 + c[6] * T4 / 4.0
  }

  /** S = R (-a0/(2T^2) - a1/T + a2 ln T + a3 T + a4 T^2/2 + a5 T^3/3 + a6 T^4/4 + a8). */
  function NASAEntropy(p: NASAPolynomial, T: real): real
    requires HasNineCoefficients(p)
  {
    (NASAEntropyShape(p.coeffs[..7], T) + p.coeffs[8]) * GasConstant
  }

  function NASAFreeEnergy(p: NASAPolynomial, T: real): real
    requires HasNineCoefficients(p)
  {
    NASAEnthalpy(p, T) - T * NASAEntropy(p, T)
  }

  /** Coefficients a0 .. a6 fix Cp; the two integration constants a7 and a8 do not enter it. */
  lemma NASAHeatCapacityIgnoresConstants(p: NASAPolynomial, q: NASAPolynomial, T: real)
    requires HasNineCoefficients(p) && HasNineCoefficients(q)
    requires p.coeffs[..7] == q.coeffs[..7]
    ensures NASAHeatCapacity(p, T) == NASAHeatCapacity(q, T)
  {
    assert forall i :: 0 <= i < 7 ==> p.coeffs[i] == p.coeffs[..7][i];
    assert forall i :: 0 <= i < 7 ==> q.coeffs[i] == q.coeffs[..7][i];
  }

  /** Raising a7 by delta raises H by R delta at every nonzero T, and leaves S alone. */
  lemma NASAEnthalpyConstant(p: NASAPolynomial, delta: real, T: real)
    requires HasNineCoefficients(p) && T != 0.0
    ensures var q := p.(coeffs := p.coeffs[7 := p.coeffs[7] + delta]);
      NASAEnthalpy(q, T) == NASAEnthalpy(p, T) + delta * GasConstant
      && NASAEntropy(q, T) == NASAEntropy(p, T)
  {
    var q := p.(coeffs := p.coeffs[7 := p.coeffs[7] + delta]);
    assert q.coeffs[..7] == p.coeffs[..7];
    var X := NASAEnthalpyShape(p.coeffs[..7], T);
    var a := p.coeffs[7];
    assert Div(a + delta, T) == Div(a, T) + delta / T;
    assert (X + Div(a, T) + delta / T) * GasConstant * T
        == (X + Div(a, T)) * GasConstant * T + (delta / T) * T * GasConstant;
    assert (delta / T) * T == delta;
  }

  /** Raising a8 by delta raises S by R delta, and leaves H alone. */
  lemma NASAEntropyConstant(p: NASAPolynomial, delta: real, T: real)
    requires HasNineCoefficients(p)
    ensures var q := p.(coeffs := p.coeffs[8 := p.coeffs[8] + delta]);
      NASAEntropy(q, T) == NASAEntropy(p, T) + delta * GasConstant
      && NASAEnthalpy(q, T) == NASAEnthalpy(p, T)
  {
    var q := p.(coeffs := p.coeffs[8 := p.coeffs[8] + delta]);
    assert q.coeffs[..7] == p.coeffs[..7];
    EntropyShift(p, q, delta, T);
    EnthalpyKeepsShape(p, q, T);
  }

  lemma EntropyShift(p: NASAPolynomial, q: NASAPolynomial, delta: real, T: real)
    requires HasNineCoefficients(p) && HasNineCoefficients(q)
    requires q.coeffs[..7] == p.coeffs[..7] && q.coeffs[8] == p.coeffs[8] + delta
    ensures NASAEntropy(q, T) == NASAEntropy(p, T) + delta * GasConstant
  {
    var X := NASAEntropyShape(p.coeffs[..7], T);
    assert NASAEntropy(q, T) == (X + (p.coeffs[8] + delta)) * GasConstant;
  }

  lemma EnthalpyKeepsShape(p: NASAPolynomial, q: NASAPolynomial, T: real)
    requires HasNineCoefficients(p) && HasNineCoefficients(q)
    requires q.coeffs[..7] == p.coeffs[..7] && q.coeffs[7] == p.coeffs[7]
    ensures NASAEnthalpy(q, T) == NASAEnthalpy(p, T)
  {
  }

  // ---------------------------------------------------------------------
  // A set of NASA polynomials

  /**
   * A NASA model as its methods see it: they iterate over the constructor's
   * `polynomials` argument itself, so an omitted argument (None) makes every
   * evaluation read `.length` of undefined and raise.
   */
  datatype NASAModel = NASAModel(polynomials: Option<seq<NASAPolynomial>>)

  datatype Quantity = HeatCapacityOf | EnthalpyOf | EntropyOf | FreeEnergyOf

  function Evaluate(p: NASAPolynomial, q: Quantity, T: real): real
    requires HasNineCoefficients(p)
  {
    match q
    case HeatCapacityOf => NASAHeatCapacity(p, T)
    case EnthalpyOf => NASAEnthalpy(p, T)
    case EntropyOf => NASAEntropy(p, T)
    case FreeEnergyOf => NASAFreeEnergy(p, T)
  }

  predicate Covers(p: NASAPolynomial, T: real)
  {
    p.Tmin <= T <= p.Tmax
  }

  /** The first polynomial whose closed range contains T. */
  function FirstCovering(polys: seq<NASAPolynomial>, T: real): (r: Option<nat>)
    ensures r.Some? ==> (r.value < |polys| && Covers(polys[r.value], T)
      && forall j :: 0 <= j < r.value ==> !Covers(polys[j], T))
    ensures r.None? <==> forall j :: 0 <= j < |polys| ==> !Covers(polys[j], T)
  {
    if |polys| == 0 then None
    else if Covers(polys[0], T) then Some(0)
    else match FirstCovering(polys[1..], T)
      case None => None
      case Some(j) => Some(j + 1)
  }

  /**
   * `getHeatCapacity`, `getEnthalpy`, `getEntropy` and `getFreeEnergy` of the
   * NASA model, which share one loop: the first polynomial covering T is
   * evaluated, null comes back when none does.
   */
  method EvaluateNASAModel(m: NASAModel, q: Quantity, T: real) returns (r: Result<Option<real>, JsError>)
    requires m.polynomials.Some? ==> forall p :: p in m.polynomials.value ==> HasNineCoefficients(p)
    ensures m.polynomials.None? ==> r == Err(TypeError)
    ensures m.polynomials.Some? ==> (r.Ok? && r.value ==
      match FirstCovering(m.polynomials.value, T)
      case None => None
      case Some(j) => Some(Evaluate(m.polynomials.value[j], q, T)))
  {
    if m.polynomials.None? {
      return Err(TypeError);
    }
    var polys := m.polynomials.value;
    var j := 0;
    while j < |polys|
      invariant 0 <= j <= |polys|
      invariant forall k :: 0 <= k < j ==> !Covers(polys[k], T)
    {
      if polys[j].Tmin <= T && T <= polys[j].Tmax {
        assert FirstCovering(polys, T) == Some(j);
        return Ok(Some(Evaluate(polys[j], q, T)));
      }
      j := j + 1;
    }
    return Ok(None);
  }
}
