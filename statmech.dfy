/**
 * The statistical-mechanics engine of the browser: Bessel approximations,
 * the complete elliptic integral by the arithmetic-geometric mean, the
 * density-of-states combiner, and the four kinds of molecular degree of
 * freedom (translation, rigid rotor, harmonic oscillators, hindered rotor).
 * The loops of the source are methods proved against the functions here;
 * the closed-form formulas are functions.
 */
module StatMech {
  import opened Common
  import opened JsMath

  /** The physical constants as the engine writes them. */
  const Planck: real := 6.626e-34
  const Boltzmann: real := 1.381e-23
  const Avogadro: real := 6.022e23
  /** The speed of light in cm/s. */
  const SpeedOfLight: real := 2.9979e10
  /** kB in cm^-1/K. */
  const BoltzmannWavenumber: real := 0.695039

  // ---------------------------------------------------------------------
  // Modified Bessel functions (polynomial approximations)

  /** (x / 3.75)^2, the variable of the small-argument series. */
  function BesselSmallVariable(x: real): real
  {
    var y := x / 3.75;
    y * y
  }

  function BesselI0Series(y: real): real
  {
    1.0 + y * (3.5156229 + y * (3.0899424 + y * (1.2067492 + y * (0.2659732 + y * (0.360768e-1 + y * 0.45813e-2)))))
  }

  function BesselI0Asymptotic(ax: real): real
  {
    var y := Div(3.75, ax);
    Div(Exp(ax), Sqrt(ax)) * (0.39894228 + y * (0.1328592e-1 + y * (0.225319e-2 + y * (-0.157565e-2 + y * (0.916281e-2
      + y * (-0.2057706e-1 + y * (0.2635537e-1 + y * (-0.1647633e-1 + y * 0.392377e-2))))))))
  }

  /** `besseli0`: the series below |x| = 3.75, the asymptotic form above. */
  function BesselI0(x: real): real
  {
    var ax := Abs(x);
    if ax < 3.75 then BesselI0Series(BesselSmallVariable(x)) else BesselI0Asymptotic(ax)
  }

  function BesselI1Series(y: real): real
  {
    0.5 + y * (0.87890594 + y * (0.51498869 + y * (0.15084934 + y * (0.2658733e-1 + y * (0.301532e-2 + y * 0.32411e-3)))))
  }

  function BesselI1Asymptotic(ax: real): real
  {
    var y := Div(3.75, ax);
    var inner := 0.2282967e-1 + y * (-0.2895312e-1 + y * (0.1787654e-1 - y * 0.420059e-2));
    (0.39894228 + y * (-0.3988024e-1 + y * (-0.362018e-2 + y * (0.163801e-2 + y * (-0.1031555e-1 + y * inner)))))
      * Div(Exp(ax), Sqrt(ax))
  }

  /** `besseli1`: computed on |x|, then given the sign of x. */
  function BesselI1(x: real): real
  {
    var ax := Abs(x);
    var ans := if ax < 3.75 then ax * BesselI1Series(BesselSmallVariable(x)) else BesselI1Asymptotic(ax);
    if x < 0.0 then -ans else ans
  }

  /** I0 is even with I0(0) = 1. */
  lemma BesselI0Even(x: real)
    ensures BesselI0(-x) == BesselI0(x) && BesselI0(0.0) == 1.0
  {
  }

  /** I1 is odd with I1(0) = 0. */
  lemma BesselI1Odd(x: real)
    ensures BesselI1(-x) == -BesselI1(x) && BesselI1(0.0) == 0.0
  {
  }

  // ---------------------------------------------------------------------
  // Complete elliptic integral of the first kind

  lemma NonnegativeProduct(a: real, b: real)
    requires 0.0 <= a && 0.0 <= b
    ensures 0.0 <= a * b
  {
  }

  lemma PositiveProduct(a: real, b: real)
    requires 0.0 < a && 0.0 < b
    ensures 0.0 < a * b
  {
  }

  /** For nonnegative a, b: a <= b exactly when a^2 <= b^2. */
  lemma SquaresOrdered(a: real, b: real)
    requires 0.0 <= a && 0.0 <= b && a * a <= b * b
    ensures a <= b
  {
    if a > b {
      PositiveProduct(a - b, a + b);
    }
  }

  /** One step of the arithmetic-geometric mean keeps G <= A and at least halves the gap. */
  lemma AgmStep(A: real, G: real)
    requires SqrtIsRoot() && 0.0 <= G <= A
    ensures 0.0 <= G <= Sqrt(A * G) <= 0.5 * (A + G) <= A
    ensures 0.5 * (A + G) - Sqrt(A * G) <= (A - G) / 2.0
  {
    NonnegativeProduct(A, G);
    var g := Sqrt(A * G);
    var a := 0.5 * (A + G);
    assert g * g == A * G;
    assert G * G <= A * G;
    SquaresOrdered(G, g);
    assert a * a - A * G == 0.25 * (A - G) * (A - G);
    NonnegativeProduct(A - G, A - G);
    SquaresOrdered(g, a);
  }

  /** The integer measure the AGM loop decreases: the gap in units of the tolerance. */
  lemma GapMeasureDecreases(gap: real, next: real)
    requires gap > 1.0e-6 && 0.0 <= next <= gap / 2.0
    ensures 0 <= (next * 1000000.0).Floor < (gap * 1000000.0).Floor
  {
    var x, y := gap * 1000000.0, next * 1000000.0;
    assert x > 1.0 && 0.0 <= y <= x / 2.0;
  }

  /** The arithmetic mean the AGM loop stops on, started from A and G. */
  function AgmMean(A: real, G: real): (r: real)
    requires SqrtIsRoot() && 0.0 <= G <= A
    ensures G <= r <= A
    ensures 0.0 < A ==> 0.0 < r
    decreases (Abs(A - G) * 1000000.0).Floor
  {
    if Abs(A - G) > 1.0e-6 then
      AgmStep(A, G);
      GapMeasureDecreases(A - G, 0.5 * (A + G) - Sqrt(A * G));
      AgmMean(0.5 * (A + G), Sqrt(A * G))
    else A
  }

  /** A nonnegative argument at most 1 has a square root at most 1. */
  lemma SqrtAtMostOne(p: real)
    requires SqrtIsRoot() && 0.0 <= p <= 1.0
    ensures 0.0 <= Sqrt(p) <= 1.0
  {
    assert Sqrt(p) * Sqrt(p) == p;
    SquaresOrdered(Sqrt(p), 1.0);
  }

  /**
   * What `cellipk(m)` returns: pi/2 over the AGM of 1 and sqrt((1-m)(1+m)).
   * When |m| > 1 the square root is NaN, the loop test `NaN > 1e-6` is
   * false at once, and pi/2 comes back. K is never below pi/2 and is
   * exactly pi/2 at m = 0.
   */
  function CompleteEllipticK(m: real): (K: real)
    requires SqrtIsRoot()
    ensures K >= Pi / 2.0
    ensures (1.0 - m) * (1.0 + m) < 0.0 ==> K == Pi / 2.0
    ensures m == 0.0 ==> K == Pi / 2.0
  {
    var p := (1.0 - m) * (1.0 + m);
    if p < 0.0 then Pi / 2.0 / 1.0
    else
      SqrtAtMostOne(p);
      var A := AgmMean(1.0, Sqrt(p));
      assert 0.0 < A <= 1.0;
      assert m == 0.0 ==> Sqrt(p) == 1.0 by {
        if m == 0.0 {
          assert Sqrt(1.0) * Sqrt(1.0) == 1.0;
          SquaresOrdered(1.0, Sqrt(1.0));
        }
      }
      assert Div(Pi / 2.0, A) * A == Pi / 2.0;
      Div(Pi / 2.0, A)
  }

  /** `cellipk`: the AGM loop itself. */
  method Cellipk(m: real) returns (K: real)
    requires SqrtIsRoot()
    ensures K == CompleteEllipticK(m)
  {
    var p := (1.0 - m) * (1.0 + m);
    if p < 0.0 {
      // Math.sqrt of a negative number is NaN and the loop does not run.
      K := Pi / 2.0 / 1.0;
      return;
    }
    SqrtAtMostOne(p);
    var A := 1.0;
    var G := Sqrt(p);
    while Abs(A - G) > 1.0e-6
      invariant 0.0 <= G <= A
      invariant AgmMean(A, G) == AgmMean(1.0, Sqrt(p))
      decreases (Abs(A - G) * 1000000.0).Floor
    {
      var A0, G0 := A, G;
      AgmStep(A0, G0);
      GapMeasureDecreases(A0 - G0, 0.5 * (A0 + G0) - Sqrt(A0 * G0));
      A := 0.5 * (A0 + G0);
      G := Sqrt(A0 * G0);
    }
    K := Div(Pi / 2.0, A);
  }

  // ---------------------------------------------------------------------
  // Combining densities of states

  /** `Elist[1] - Elist[0]`, which is NaN when the grid has fewer than two energies. */
  function GridSpacing(Elist: seq<real>): Num
  {
    if |Elist| >= 2 then Val(Elist[1] - Elist[0]) else NaN
  }

  /** An operand takes part in `convolve` only if its length matches and some entry is > 0. */
  predicate Present(rho: seq<Num>, size: nat)
  {
    |rho| == size && exists r :: 0 <= r < size && IsPositive(rho[r])
  }

  /** The first n terms rho2[r-s] * rho1[r] * dE, s = 0 .. n-1, accumulated onto 0. */
  function ConvolutionTerms(rho1: seq<Num>, rho2: seq<Num>, r: nat, dE: Num, n: nat): Num
    requires r < |rho1| && r < |rho2| && n <= r + 1
  {
    if n == 0 then Val(0.0)
    else Add(ConvolutionTerms(rho1, rho2, r, dE, n - 1), Mul(Mul(rho2[r - (n - 1)], rho1[r]), dE))
  }

  /**
   * What `convolve(rho1, rho2, Elist)` returns: the combined sum when both
   * operands are present, a copy of the one present operand, or zeros.
   */
  function Convolution(rho1: seq<Num>, rho2: seq<Num>, Elist: seq<real>): (rho: seq<Num>)
    ensures |rho| == |Elist|
  {
    var size := |Elist|;
    if Present(rho1, size) && Present(rho2, size) then
      seq(size, r requires 0 <= r < size => ConvolutionTerms(rho1, rho2, r, GridSpacing(Elist), r + 1))
    else if Present(rho1, size) then rho1
    else if Present(rho2, size) then rho2
    else seq(size, _ => Val(0.0))
  }

  method Convolve(rho1: seq<Num>, rho2: seq<Num>, Elist: seq<real>) returns (rho: seq<Num>)
    ensures rho == Convolution(rho1, rho2, Elist)
  {
    var size := |Elist|;
    var out := new Num[size](_ => Val(0.0));
    var found1 := FindPositive(rho1, size);
    var found2 := FindPositive(rho2, size);
    if found1 && found2 {
      var dE := GridSpacing(Elist);
      for r := 0 to size
        invariant forall k :: 0 <= k < r ==> out[k] == ConvolutionTerms(rho1, rho2, k, dE, k + 1)
        invariant forall k :: r <= k < size ==> out[k] == Val(0.0)
      {
        AccumulateEntry(out, rho1, rho2, r, dE);
      }
      rho := out[..];
      assert rho == Convolution(rho1, rho2, Elist) by {
        forall r | 0 <= r < size
          ensures rho[r] == Convolution(rho1, rho2, Elist)[r]
        {
          ConvolutionEntry(rho1, rho2, Elist, r);
        }
      }
    } else if found1 {
      for r := 0 to size
        invariant forall k :: 0 <= k < r ==> out[k] == rho1[k]
      {
        out[r] := rho1[r];
      }
      rho := out[..];
    } else if found2 {
      for r := 0 to size
        invariant forall k :: 0 <= k < r ==> out[k] == rho2[k]
      {
        out[r] := rho2[r];
      }
      rho := out[..];
    } else {
      rho := out[..];
    }
  }

  /** The scan `convolve` makes of one operand: its length matches and some entry is > 0. */
  method FindPositive(rho: seq<Num>, size: nat) returns (found: bool)
    ensures found <==> Present(rho, size)
  {
    found := false;
    if |rho| != size {
      return;
    }
    var r := 0;
    while r < size
      invariant 0 <= r <= size
      invariant forall k :: 0 <= k < r ==> !IsPositive(rho[k])
    {
      if IsPositive(rho[r]) {
        found := true;
        return;
      }
      r := r + 1;
    }
  }

  /** The inner loop of `convolve`: entry r accumulates its r + 1 terms onto 0. */
  method AccumulateEntry(out: array<Num>, rho1: seq<Num>, rho2: seq<Num>, r: nat, dE: Num)
    requires r < out.Length <= |rho1| && out.Length <= |rho2| && out[r] == Val(0.0)
    modifies out
    ensures out[r] == ConvolutionTerms(rho1, rho2, r, dE, r + 1)
    ensures forall k :: 0 <= k < out.Length && k != r ==> out[k] == old(out[k])
  {
    for s := 0 to r + 1
      invariant out[r] == ConvolutionTerms(rho1, rho2, r, dE, s)
      invariant forall k :: 0 <= k < out.Length && k != r ==> out[k] == old(out[k])
    {
      out[r] := Add(out[r], Mul(Mul(rho2[r - s], rho1[r]), dE));
    }
  }

  /** rho[r] + rho[r-1] + ... + rho[r-n+1], the n entries ending at r, over entries without NaN. */
  function SumDown(rho: seq<Num>, r: nat, n: nat): real
    requires r < |rho| && n <= r + 1 && forall j :: 0 <= j < |rho| ==> rho[j].Val?
  {
    if n == 0 then 0.0 else SumDown(rho, r, n - 1) + rho[r - (n - 1)].v
  }

  /**
   * The first n terms of entry r are the sum of the n entries of rho2
   * ending at r, times rho1[r], times dE.
   */
  lemma {:induction false} ConvolutionTermsFactor(rho1: seq<Num>, rho2: seq<Num>, r: nat, dE: Num, n: nat)
    requires r < |rho1| && r < |rho2| && n <= r + 1
    requires dE.Val? && rho1[r].Val? && forall j :: 0 <= j < |rho2| ==> rho2[j].Val?
    ensures ConvolutionTerms(rho1, rho2, r, dE, n) == Mul(Mul(Val(SumDown(rho2, r, n)), rho1[r]), dE)
  {
    if n > 0 {
      ConvolutionTermsFactor(rho1, rho2, r, dE, n - 1);
      Distribute(SumDown(rho2, r, n - 1), rho2[r - (n - 1)].v, rho1[r].v, dE.v);
    }
  }

  lemma Distribute(S: real, x: real, a: real, d: real)
    ensures S * a * d + x * a * d == (S + x) * a * d
  {
  }

  /**
   * When both operands are present and real-valued, entry r is
   * (rho2[0] + ... + rho2[r]) * rho1[r] * dE: the second operand's running
   * sum scaled by the first operand's own entry, which is not symmetric in
   * the two operands.
   */
  lemma ConvolutionFactorizes(rho1: seq<Num>, rho2: seq<Num>, Elist: seq<real>, r: nat)
    requires |Elist| >= 2 && Present(rho1, |Elist|) && Present(rho2, |Elist|) && r < |Elist|
    requires forall j :: 0 <= j < |Elist| ==> rho1[j].Val? && rho2[j].Val?
    ensures Convolution(rho1, rho2, Elist)[r] == Mul(Mul(Val(SumDown(rho2, r, r + 1)), rho1[r]), GridSpacing(Elist))
  {
    ConvolutionEntry(rho1, rho2, Elist, r);
    ConvolutionTermsFactor(rho1, rho2, r, GridSpacing(Elist), r + 1);
  }

  lemma ConvolutionEntry(rho1: seq<Num>, rho2: seq<Num>, Elist: seq<real>, r: nat)
    requires Present(rho1, |Elist|) && Present(rho2, |Elist|) && r < |Elist|
    ensures Convolution(rho1, rho2, Elist)[r] == ConvolutionTerms(rho1, rho2, r, GridSpacing(Elist), r + 1)
  {
  }

  /** An operand with no positive entry leaves the other untouched; two absent operands give zeros. */
  lemma ConvolutionWithAbsent(rho: seq<Num>, absent: seq<Num>, Elist: seq<real>)
    requires !Present(absent, |Elist|)
    ensures Present(rho, |Elist|) ==> Convolution(rho, absent, Elist) == rho && Convolution(absent, rho, Elist) == rho
    ensures !Present(rho, |Elist|) ==> forall r :: 0 <= r < |Elist| ==> Convolution(rho, absent, Elist)[r] == Val(0.0)
  {
  }

  // ---------------------------------------------------------------------
  // Degrees of freedom

  datatype Mode =
    | Translation(mass: real)
    | RigidRotor(linear: bool, inertia: seq<real>, symmetry: real)
    | HarmonicOscillator(frequencies: seq<real>)
    | HinderedRotor(hrInertia: real, hrSymmetry: real, barrier: real, fourierA: seq<real>, fourierB: seq<real>)

  /** The constructors' `(x) ? x : default` handling of omitted arguments. */
  function NewTranslation(mass: Option<real>): (t: Mode)
    ensures t.Translation? && (mass.None? ==> t.mass == 0.0)
  {
    Translation(OrDefault(mass, 0.0))
  }

  function NewRigidRotor(linear: Option<bool>, inertia: Option<seq<real>>, symmetry: Option<real>): (m: Mode)
    ensures m.RigidRotor? && m.symmetry != 0.0
    ensures linear.None? ==> !m.linear
    ensures inertia.None? ==> m.inertia == []
  {
    RigidRotor(linear.Some? && linear.value, if inertia.Some? then inertia.value else [], OrDefault(symmetry, 1.0))
  }

  function NewHarmonicOscillator(frequencies: Option<seq<real>>): (m: Mode)
    ensures m.HarmonicOscillator? && (frequencies.None? ==> m.frequencies == [])
  {
    HarmonicOscillator(if frequencies.Some? then frequencies.value else [])
  }

  function NewHinderedRotor(inertia: Option<real>, symmetry: Option<real>, barrier: Option<real>,
                            fourierA: Option<seq<real>>, fourierB: Option<seq<real>>): (m: Mode)
    ensures m.HinderedRotor? && m.hrSymmetry != 0.0
    ensures fourierA.None? || fourierB.None? ==> !IsFourier(m)
  {
    HinderedRotor(OrDefault(inertia, 0.0), OrDefault(symmetry, 1.0), OrDefault(barrier, 0.0),
                  if fourierA.Some? then fourierA.value else [], if fourierB.Some? then fourierB.value else [])
  }

  // Translation

  function TranslationPartitionFunction(mass: real, T: real): real
  {
    var qt := Pow(2.0 * Pi * mass / Avogadro / (Planck * Planck), 1.5) / 101325.0;
    qt * Pow(Boltzmann * T, 2.5)
  }

  /** 3/2 R: the heat capacity of translation, independent of T. */
  function TranslationHeatCapacity(T: real): real
  {
    1.5 * GasConstant
  }

  function TranslationEnthalpy(T: real): real
  {
    1.5 * GasConstant * T
  }

  function TranslationEntropy(mass: real, T: real): real
  {
    Log(TranslationPartitionFunction(mass, T) + 1.5) * GasConstant
  }

  /**
   * The translational density of states divides by `Math.sqrt(Math.pi)`,
   * and `Math.pi` is undefined, so every entry is NaN.
   */
  function TranslationDensity(Elist: seq<real>): (rho: seq<Num>)
    ensures |rho| == |Elist|
  {
    seq(|Elist|, _ => NaN)
  }

  /** Since no entry of it is > 0, a translation never changes the density it is convolved into. */
  lemma TranslationDensityIsIgnored(rho: seq<Num>, Elist: seq<real>)
    ensures Present(rho, |Elist|) ==> Convolution(rho, TranslationDensity(Elist), Elist) == rho
    ensures !Present(TranslationDensity(Elist), |Elist|)
  {
    ConvolutionWithAbsent(rho, TranslationDensity(Elist), Elist);
  }

  // Rigid rotor

  /** h^2 / (8 pi^2 I kB), the rotational temperature of one moment of inertia. */
  function RotationalTemperature(inertia: real): real
  {
    Div(Planck * Planck, 8.0 * Pi * Pi * inertia * Boltzmann)
  }

  /** The running product of rotational temperatures the nonlinear-rotor loop builds, in list order. */
  function RotationalTemperatureProduct(inertia: seq<real>): real
  {
    if |inertia| == 0 then 1.0
    else
      var last := inertia[|inertia| - 1];
      Div(RotationalTemperatureProduct(inertia[..|inertia| - 1]) * Planck * Planck, 8.0 * Pi * Pi * last * Boltzmann)
  }

  /** The loop of the nonlinear rotor, multiplying in one rotational temperature per moment. */
  method GetRotationalTemperatureProduct(inertia: seq<real>) returns (theta: real)
    ensures theta == RotationalTemperatureProduct(inertia)
  {
    theta := 1.0;
    for n := 0 to |inertia|
      invariant theta == RotationalTemperatureProduct(inertia[..n])
    {
      assert inertia[..n + 1][..n] == inertia[..n];
      theta := Div(theta * Planck * Planck, 8.0 * Pi * Pi * inertia[n] * Boltzmann);
    }
    assert inertia[..|inertia|] == inertia;
  }

  /** R for a linear rotor, 3/2 R for a nonlinear one. */
  function RigidRotorHeatCapacity(linear: bool, T: real): real
  {
    if linear then GasConstant else 1.5 * GasConstant
  }

  function RigidRotorEnthalpy(linear: bool, T: real): real
  {
    if linear then GasConstant * T else 1.5 * GasConstant * T
  }

  function RigidRotorEntropy(linear: bool, inertia: seq<real>, symmetry: real, T: real): real
    requires linear ==> |inertia| > 0
  {
    var q := RigidRotorPartitionFunction(linear, inertia, symmetry, T);
    if linear then Log(q + 1.0) * GasConstant else Log(q + 1.5) * GasConstant
  }

  /**
   * Translation and rigid rotation are treated classically: the enthalpy
   * is the (constant) heat capacity times T, and the entropy is
   * R ln(Q + Cv/R).
   */
  lemma ClassicalModes(linear: bool, inertia: seq<real>, symmetry: real, mass: real, T: real)
    requires linear ==> |inertia| > 0
    ensures TranslationEnthalpy(T) == TranslationHeatCapacity(T) * T
    ensures RigidRotorEnthalpy(linear, T) == RigidRotorHeatCapacity(linear, T) * T
    ensures TranslationEntropy(mass, T)
         == Log(TranslationPartitionFunction(mass, T) + TranslationHeatCapacity(T) / GasConstant) * GasConstant
    ensures RigidRotorEntropy(linear, inertia, symmetry, T)
         == Log(RigidRotorPartitionFunction(linear, inertia, symmetry, T) + RigidRotorHeatCapacity(linear, T) / GasConstant) * GasConstant
  {
  }

  function RigidRotorPartitionFunction(linear: bool, inertia: seq<real>, symmetry: real, T: real): real
    requires linear ==> |inertia| > 0
  {
    if linear then Div(Div(T, RotationalTemperature(inertia[0])), symmetry)
    else Div(Sqrt(Div(Pi * Pow(T, |inertia| as real), RotationalTemperatureProduct(inertia))), symmetry)
  }

  /**
   * The rotor's density at each energy. A linear rotor without a moment of
   * inertia reads `inertia[0]` as undefined, so every entry is NaN.
   */
  function RigidRotorDensity(linear: bool, inertia: seq<real>, symmetry: real, Elist: seq<real>): (rho: seq<Num>)
    ensures |rho| == |Elist|
    ensures linear && |inertia| == 0 ==> forall r :: 0 <= r < |rho| ==> rho[r] == NaN
    ensures !(linear && |inertia| == 0) ==> forall r :: 0 <= r < |rho| ==> rho[r].Val?
  {
    seq(|Elist|, r requires 0 <= r < |Elist| =>
      if linear && |inertia| == 0 then NaN
      else if linear then Val(Div(Div(1.0, RotationalTemperature(inertia[0])), symmetry))
      else Val(Div(2.0 * Sqrt(Div(Elist[r], RotationalTemperatureProduct(inertia))), symmetry)))
  }

  method GetRigidRotorPartitionFunction(linear: bool, inertia: seq<real>, symmetry: real, T: real) returns (Q: real)
    requires linear ==> |inertia| > 0
    ensures Q == RigidRotorPartitionFunction(linear, inertia, symmetry, T)
  {
    if linear {
      Q := Div(Div(T, RotationalTemperature(inertia[0])), symmetry);
    } else {
      var theta := GetRotationalTemperatureProduct(inertia);
      Q := Div(Sqrt(Div(Pi * Pow(T, |inertia| as real), theta)), symmetry);
    }
  }

  /** The density loop, which recomputes the rotational temperature at every grid point. */
  method GetRigidRotorDensity(linear: bool, inertia: seq<real>, symmetry: real, Elist: seq<real>) returns (rho: seq<Num>)
    ensures rho == RigidRotorDensity(linear, inertia, symmetry, Elist)
  {
    var a := new Num[|Elist|];
    for r := 0 to |Elist|
      invariant forall k :: 0 <= k < r ==> a[k] == RigidRotorDensity(linear, inertia, symmetry, Elist)[k]
    {
      if linear && |inertia| == 0 {
        a[r] := NaN;
      } else if linear {
        a[r] := Val(Div(Div(1.0, RotationalTemperature(inertia[0])), symmetry));
      } else {
        var theta := GetRotationalTemperatureProduct(inertia);
        a[r] := Val(Div(2.0 * Sqrt(Div(Elist[r], theta)), symmetry));
      }
    }
    rho := a[..];
  }

  // Harmonic oscillators

  /** x = frequency / (kB T), with the frequency in cm^-1. */
  function ReducedFrequency(f: real, T: real): real
  {
    Div(f, BoltzmannWavenumber * T)
  }

  function OscillatorHeatCapacity(x: real): real
  {
    Div(Div(x * x * Exp(x), 1.0 - Exp(x)), 1.0 - Exp(x))
  }

  function OscillatorEnergy(x: real): real
  {
    Div(x, Exp(x) - 1.0)
  }

  /** Each oscillator's partition function is 1 / (1 - exp(-x)); the loop divides by this. */
  function OscillatorDivisor(x: real): real
  {
    1.0 - Exp(-x)
  }

  function HeatCapacityTerm(T: real): real -> real
  {
    f => OscillatorHeatCapacity(ReducedFrequency(f, T))
  }

  function EnergyTerm(T: real): real -> real
  {
    f => OscillatorEnergy(ReducedFrequency(f, T))
  }

  function PartitionDivisor(T: real): real -> real
  {
    f => OscillatorDivisor(ReducedFrequency(f, T))
  }

  /** The sum of term(f) over fs, added in list order. */
  function SumOver(fs: seq<real>, term: real -> real): real
  {
    if |fs| == 0 then 0.0 else SumOver(fs[..|fs| - 1], term) + term(fs[|fs| - 1])
  }

  /** q divided by divisor(f) for each f of fs in list order. */
  function DivideOver(q: real, fs: seq<real>, divisor: real -> real): real
  {
    if |fs| == 0 then q else Div(DivideOver(q, fs[..|fs| - 1], divisor), divisor(fs[|fs| - 1]))
  }

  lemma {:induction false} SumOverAppend(a: seq<real>, b: seq<real>, term: real -> real)
    ensures SumOver(a + b, term) == SumOver(a, term) + SumOver(b, term)
    decreases |b|
  {
    if |b| > 0 {
      var b' := b[..|b| - 1];
      assert (a + b)[..|a + b| - 1] == a + b';
      SumOverAppend(a, b', term);
    } else {
      assert a + b == a;
    }
  }

  lemma {:induction false} DivideOverAppend(q: real, a: seq<real>, b: seq<real>, divisor: real -> real)
    ensures DivideOver(q, a + b, divisor) == DivideOver(DivideOver(q, a, divisor), b, divisor)
    decreases |b|
  {
    if |b| > 0 {
      var b' := b[..|b| - 1];
      assert (a + b)[..|a + b| - 1] == a + b';
      DivideOverAppend(q, a, b', divisor);
    } else {
      assert a + b == a;
    }
  }

  function OscillatorsHeatCapacity(fs: seq<real>, T: real): real
  {
    SumOver(fs, HeatCapacityTerm(T)) * GasConstant
  }

  function OscillatorsEnthalpy(fs: seq<real>, T: real): real
  {
    ScaledTotal(fs, EnergyTerm(T), GasConstant, T)
  }

  /** The sum of the terms over fs, multiplied by c and then by d. */
  function ScaledTotal(fs: seq<real>, term: real -> real, c: real, d: real): real
  {
    SumOver(fs, term) * c * d
  }

  function OscillatorsPartitionFunction(fs: seq<real>, T: real): real
  {
    DivideOver(1.0, fs, PartitionDivisor(T))
  }

  function OscillatorsEntropy(fs: seq<real>, T: real): real
  {
    (Log(OscillatorsPartitionFunction(fs, T)) + SumOver(fs, EnergyTerm(T))) * GasConstant
  }

  /**
   * A set of oscillators behaves as its parts side by side: heat capacity and
   * enthalpy add, and the partition function of a + b is that of a further
   * divided by b's factors.
   */
  lemma OscillatorHeatCapacitiesAdd(a: seq<real>, b: seq<real>, T: real)
    ensures OscillatorsHeatCapacity(a + b, T) == OscillatorsHeatCapacity(a, T) + OscillatorsHeatCapacity(b, T)
  {
    var c := HeatCapacityTerm(T);
    SumOverAppend(a, b, c);
    ScaledSum(SumOver(a, c), SumOver(b, c), GasConstant);
  }

  lemma OscillatorEnthalpiesAdd(a: seq<real>, b: seq<real>, T: real)
    ensures OscillatorsEnthalpy(a + b, T) == OscillatorsEnthalpy(a, T) + OscillatorsEnthalpy(b, T)
  {
    ScaledTotalsAdd(a, b, EnergyTerm(T), GasConstant, T);
  }

  /** A scaled total over a + b is the sum of the scaled totals over a and over b. */
  lemma ScaledTotalsAdd(a: seq<real>, b: seq<real>, term: real -> real, c: real, d: real)
    ensures ScaledTotal(a + b, term, c, d) == ScaledTotal(a, term, c, d) + ScaledTotal(b, term, c, d)
  {
    SumOverAppend(a, b, term);
    ScaledSplit(SumOver(a + b, term), SumOver(a, term), SumOver(b, term), c, d);
  }

  /** Scaling twice distributes over a total split in two. */
  lemma ScaledSplit(s: real, x: real, y: real, c: real, d: real)
    requires s == x + y
    ensures s * c * d == x * c * d + y * c * d
  {
  }

  lemma OscillatorPartitionFunctionsCompose(a: seq<real>, b: seq<real>, T: real)
    ensures OscillatorsPartitionFunction(a + b, T)
         == DivideOver(OscillatorsPartitionFunction(a, T), b, PartitionDivisor(T))
  {
    DivideOverAppend(1.0, a, b, PartitionDivisor(T));
  }

  lemma ScaledSum(x: real, y: real, c: real)
    ensures (x + y) * c == x * c + y * c
  {
  }

  method GetOscillatorsHeatCapacity(fs: seq<real>, T: real) returns (Cv: real)
    ensures Cv == OscillatorsHeatCapacity(fs, T)
  {
    var sum := 0.0;
    for n := 0 to |fs|
      invariant sum == SumOver(fs[..n], HeatCapacityTerm(T))
    {
      assert fs[..n + 1][..n] == fs[..n];
      var x := ReducedFrequency(fs[n], T);
      sum := sum + OscillatorHeatCapacity(x);
    }
    assert fs[..|fs|] == fs;
    Cv := sum * GasConstant;
  }

  method GetOscillatorsEnthalpy(fs: seq<real>, T: real) returns (H: real)
    ensures H == OscillatorsEnthalpy(fs, T)
  {
    var sum := 0.0;
    for n := 0 to |fs|
      invariant sum == SumOver(fs[..n], EnergyTerm(T))
    {
      assert fs[..n + 1][..n] == fs[..n];
      var x := ReducedFrequency(fs[n], T);
      sum := sum + OscillatorEnergy(x);
    }
    assert fs[..|fs|] == fs;
    H := sum * GasConstant * T;
  }

  method GetOscillatorsPartitionFunction(fs: seq<real>, T: real) returns (Q: real)
    ensures Q == OscillatorsPartitionFunction(fs, T)
  {
    Q := 1.0;
    for n := 0 to |fs|
      invariant Q == DivideOver(1.0, fs[..n], PartitionDivisor(T))
    {
      assert fs[..n + 1][..n] == fs[..n];
      var x := ReducedFrequency(fs[n], T);
      Q := Div(Q, 1.0 - Exp(-x));
    }
    assert fs[..|fs|] == fs;
  }

  method GetOscillatorsEntropy(fs: seq<real>, T: real) returns (S: real)
    ensures S == OscillatorsEntropy(fs, T)
  {
    var Q := GetOscillatorsPartitionFunction(fs, T);
    var sum := Log(Q);
    for n := 0 to |fs|
      invariant sum == Log(Q) + SumOver(fs[..n], EnergyTerm(T))
    {
      assert fs[..n + 1][..n] == fs[..n];
      var x := ReducedFrequency(fs[n], T);
      sum := sum + OscillatorEnergy(x);
    }
    assert fs[..|fs|] == fs;
    S := sum * GasConstant;
  }

  // Harmonic oscillators: direct count of the density of states

  /** The grid offset of one oscillator quantum: round(f h c NA / dE). */
  function QuantumOffset(f: real, dE: real): int
  {
    Round(Div(f * Planck * SpeedOfLight * Avogadro, dE))
  }

  /** Whether the frequency sweeps run: dE must be a nonzero real. */
  predicate GridSweeps(Elist: seq<real>)
  {
    |Elist| >= 2 && Elist[1] - Elist[0] != 0.0
  }

  /** The direct count runs forward: on a grid the sweeps run over, every offset is nonnegative. */
  predicate ForwardSweeps(fs: seq<real>, Elist: seq<real>)
  {
    GridSweeps(Elist) ==> forall n :: 0 <= n < |fs| ==> QuantumOffset(fs[n], Elist[1] - Elist[0]) >= 0
  }

  lemma ForwardSweepsAppend(a: seq<real>, b: seq<real>, Elist: seq<real>)
    requires ForwardSweeps(a, Elist) && ForwardSweeps(b, Elist)
    ensures ForwardSweeps(a + b, Elist)
  {
    assert forall j :: 0 <= j < |a + b| ==> (a + b)[j] == if j < |a| then a[j] else b[j - |a|];
  }

  /**
   * Entry r after the in-place sweep `rho[r] = rho[r] + rho[r-dr]` for
   * r = dr, dr+1, ...: the entry itself plus the already-updated entry one
   * quantum lower, i.e. rho[r] + rho[r-dr] + rho[r-2dr] + ... . A zero
   * offset reads and writes the same entry, doubling it.
   */
  function StackedSum(rho: seq<Num>, dr: nat, r: nat): Num
    requires r < |rho|
    decreases r
  {
    if dr == 0 then Add(rho[r], rho[r])
    else if r < dr then rho[r]
    else Add(rho[r], StackedSum(rho, dr, r - dr))
  }

  /**
   * Entry r after the sweep with a negative offset: the loop starts below 0,
   * where it only writes properties that are not array entries, and each
   * entry r >= 0 adds the entry -dr above it, which the sweep has not reached
   * yet (undefined, so NaN, past the end).
   */
  function ReadAhead(rho: seq<Num>, dr: int, r: nat): Num
    requires dr < 0 && r < |rho|
  {
    Add(rho[r], At(rho, r - dr))
  }

  /**
   * The density after one oscillator's sweep with offset dr: the stacked
   * sums for dr >= 0, where entries below the offset are left as they were;
   * a read ahead for dr < 0.
   */
  function Stack(rho: seq<Num>, dr: int): (out: seq<Num>)
    ensures |out| == |rho|
    ensures dr > 0 ==> forall r :: 0 <= r < |rho| && r < dr ==> out[r] == rho[r]
    ensures dr < 0 ==> forall r :: 0 <= r < |rho| && |rho| <= r - dr ==> out[r] == NaN
  {
    seq(|rho|, r requires 0 <= r < |rho| => if dr < 0 then ReadAhead(rho, dr, r) else StackedSum(rho, dr, r))
  }

  /** `rho[r] = rho0[r]` for every grid point; past the end of rho0 the entry is undefined. */
  function CopyOnGrid(rho0: seq<Num>, Elist: seq<real>): (rho: seq<Num>)
    ensures |rho| == |Elist|
  {
    seq(|Elist|, r => At(rho0, r))
  }

  /** The density after the sweeps of the first n frequencies. */
  function SweptDensity(fs: seq<real>, Elist: seq<real>, rho: seq<Num>, n: nat): (out: seq<Num>)
    requires n <= |fs|
    ensures |out| == |rho|
  {
    if n == 0 then rho
    else
      var prev := SweptDensity(fs, Elist, rho, n - 1);
      if GridSweeps(Elist) then Stack(prev, QuantumOffset(fs[n - 1], Elist[1] - Elist[0])) else prev
  }

  /** What `HarmonicOscillator.getDensityOfStates(Elist, rho0)` returns. */
  function OscillatorsDensity(fs: seq<real>, Elist: seq<real>, rho0: seq<Num>): (rho: seq<Num>)
    ensures |rho| == |Elist|
  {
    SweptDensity(fs, Elist, CopyOnGrid(rho0, Elist), |fs|)
  }

  /**
   * `getDensityOfStates` of a harmonic oscillator set: copy rho0 into a new
   * array, then sweep it in place once per frequency. rho0 is only read.
   */
  method GetOscillatorsDensity(fs: seq<real>, Elist: seq<real>, rho0: seq<Num>) returns (rho: seq<Num>)
    ensures rho == OscillatorsDensity(fs, Elist, rho0)
  {
    var nE := |Elist|;
    var a := new Num[nE];
    for r := 0 to nE
      invariant forall k :: 0 <= k < r ==> a[k] == At(rho0, k)
    {
      a[r] := At(rho0, r);
    }
    assert a[..] == CopyOnGrid(rho0, Elist);
    for n := 0 to |fs|
      invariant a[..] == SweptDensity(fs, Elist, CopyOnGrid(rho0, Elist), n)
    {
      if nE >= 2 && Elist[1] - Elist[0] != 0.0 {
        var dr := QuantumOffset(fs[n], Elist[1] - Elist[0]);
        SweepInPlace(a, dr);
      }
    }
    rho := a[..];
  }

  /**
   * One oscillator's sweep `rho[r] = rho[r] + rho[r-dr]` for r = dr, dr+1,
   * ..., in place. Below index 0 the script writes properties that are not
   * array entries, so those steps leave the array alone; reading past the end
   * gives NaN.
   */
  method SweepInPlace(a: array<Num>, dr: int)
    modifies a
    ensures a[..] == Stack(old(a[..]), dr)
  {
    ghost var prev := a[..];
    var r := dr;
    while r < a.Length
      invariant r >= dr && (r > a.Length ==> r == dr)
      invariant forall k :: 0 <= k < a.Length && k < r && (dr < 0 || k >= dr) ==> a[k] == Stack(prev, dr)[k]
      invariant forall k :: 0 <= k < a.Length && (k >= r || (dr >= 0 && k < dr)) ==> a[k] == prev[k]
    {
      if r >= 0 {
        a[r] := Add(a[r], if r - dr < a.Length then a[r - dr] else NaN);
      }
      r := r + 1;
    }
  }

  /** A sweep over nonnegative real entries keeps them real and never lowers one. */
  lemma {:induction false} StackedSumDominates(rho: seq<Num>, dr: nat, r: nat)
    requires r < |rho| && forall k :: 0 <= k < |rho| ==> rho[k].Val? && rho[k].v >= 0.0
    ensures StackedSum(rho, dr, r).Val? && StackedSum(rho, dr, r).v >= rho[r].v
    decreases r
  {
    if dr > 0 && r >= dr {
      StackedSumDominates(rho, dr, r - dr);
    }
  }

  /** A sweep over all-zero entries leaves them zero. */
  lemma {:induction false} StackedSumOfZeros(rho: seq<Num>, dr: nat, r: nat)
    requires r < |rho| && forall k :: 0 <= k < |rho| ==> rho[k] == Val(0.0)
    ensures StackedSum(rho, dr, r) == Val(0.0)
    decreases r
  {
    if dr > 0 && r >= dr {
      StackedSumOfZeros(rho, dr, r - dr);
    }
  }

  /**
   * The direct count from a nonnegative starting density never lowers an
   * entry, and from an all-zero one stays all zero.
   */
  lemma {:induction false} SweepsDominate(fs: seq<real>, Elist: seq<real>, rho: seq<Num>, n: nat)
    requires n <= |fs| && ForwardSweeps(fs, Elist)
    requires forall k :: 0 <= k < |rho| ==> rho[k].Val? && rho[k].v >= 0.0
    ensures forall k :: 0 <= k < |rho| ==> (SweptDensity(fs, Elist, rho, n)[k].Val?
      && SweptDensity(fs, Elist, rho, n)[k].v >= rho[k].v)
    ensures (forall k :: 0 <= k < |rho| ==> rho[k] == Val(0.0))
      ==> forall k :: 0 <= k < |rho| ==> SweptDensity(fs, Elist, rho, n)[k] == Val(0.0)
  {
    if n > 0 {
      SweepsDominate(fs, Elist, rho, n - 1);
      var prev := SweptDensity(fs, Elist, rho, n - 1);
      if GridSweeps(Elist) {
        var dr: nat := QuantumOffset(fs[n - 1], Elist[1] - Elist[0]);
        forall k | 0 <= k < |rho|
          ensures Stack(prev, dr)[k].Val? && Stack(prev, dr)[k].v >= rho[k].v
        {
          StackedSumDominates(prev, dr, k);
        }
        if forall k :: 0 <= k < |rho| ==> rho[k] == Val(0.0) {
          forall k | 0 <= k < |rho|
            ensures Stack(prev, dr)[k] == Val(0.0)
          {
            StackedSumOfZeros(prev, dr, k);
          }
        }
      }
    }
  }

  /** Entries below every oscillator's (positive) offset keep their starting value. */
  lemma {:induction false} SweepsKeepLowEntries(fs: seq<real>, Elist: seq<real>, rho: seq<Num>, n: nat, r: nat)
    requires n <= |fs| && ForwardSweeps(fs, Elist) && r < |rho|
    requires GridSweeps(Elist) ==> forall j :: 0 <= j < |fs| ==> r < QuantumOffset(fs[j], Elist[1] - Elist[0])
    ensures SweptDensity(fs, Elist, rho, n)[r] == rho[r]
  {
    if n > 0 {
      SweepsKeepLowEntries(fs, Elist, rho, n - 1, r);
    }
  }

  lemma {:induction false} SweptDensityAppend(a: seq<real>, b: seq<real>, Elist: seq<real>, rho: seq<Num>, n: nat)
    requires n <= |b|
    ensures SweptDensity(a + b, Elist, rho, |a| + n) == SweptDensity(b, Elist, SweptDensity(a, Elist, rho, |a|), n)
  {
    assert forall j :: 0 <= j < |a + b| ==> (a + b)[j] == if j < |a| then a[j] else b[j - |a|];
    if n > 0 {
      SweptDensityAppend(a, b, Elist, rho, n - 1);
    } else {
      SweptDensityPrefix(a, a + b, Elist, rho, |a|);
    }
  }

  lemma {:induction false} SweptDensityPrefix(a: seq<real>, c: seq<real>, Elist: seq<real>, rho: seq<Num>, n: nat)
    requires n <= |a| <= |c| && a == c[..|a|]
    ensures SweptDensity(c, Elist, rho, n) == SweptDensity(a, Elist, rho, n)
  {
    if n > 0 {
      SweptDensityPrefix(a, c, Elist, rho, n - 1);
      assert c[n - 1] == a[n - 1];
    }
  }

  /**
   * Two oscillator sets applied one after the other give the density of the
   * single set holding both frequency lists.
   */
  lemma OscillatorsDensityCompose(a: seq<real>, b: seq<real>, Elist: seq<real>, rho0: seq<Num>)
    ensures OscillatorsDensity(a + b, Elist, rho0) == OscillatorsDensity(b, Elist, OscillatorsDensity(a, Elist, rho0))
  {
    SweptDensityAppend(a, b, Elist, CopyOnGrid(rho0, Elist), |b|);
    var mid := OscillatorsDensity(a, Elist, rho0);
    assert CopyOnGrid(mid, Elist) == mid;
  }

  // Hindered rotor

  /** The Fourier potential is used iff both coefficient lists are nonempty. */
  predicate IsFourier(m: Mode)
    requires m.HinderedRotor?
  {
    |m.fourierA| > 0 && |m.fourierB| > 0
  }

  predicate IsCosine(m: Mode)
    requires m.HinderedRotor?
  {
    m.barrier > 0.0
  }

  /**
   * The cosine-potential torsional frequency in cm^-1. The Fourier branch
   * calls `Math.sum`, which does not exist, and raises instead.
   */
  function HinderedRotorFrequency(m: Mode): (r: Result<real, JsError>)
    requires m.HinderedRotor?
    ensures r.Err? <==> IsFourier(m)
  {
    if IsFourier(m) then Err(TypeError)
    else Ok(m.hrSymmetry / 2.0 / Pi * Sqrt(Div(m.barrier / Avogadro / 2.0, m.hrInertia)) / SpeedOfLight)
  }

  /** V(phi) = V0 (1 - cos(sigma phi)) / 2 for the cosine potential; the Fourier sum raises. */
  function HinderedRotorPotential(m: Mode, phi: real): (r: Result<real, JsError>)
    requires m.HinderedRotor?
    ensures r.Err? <==> IsFourier(m)
  {
    if IsFourier(m) then Err(TypeError)
    else Ok(0.5 * m.barrier * (1.0 - Cos(m.hrSymmetry * phi)))
  }

  lemma PotentialZeroAtOrigin(m: Mode)
    requires m.HinderedRotor? && !IsFourier(m) && Cos(0.0) == 1.0
    ensures HinderedRotorPotential(m, 0.0) == Ok(0.0)
  {
    assert m.hrSymmetry * 0.0 == 0.0;
  }

  /** x = h nu / (kB T) and z = V0 / (2 R T), shared by the cosine-potential formulas. */
  function TorsionX(m: Mode, T: real): real
    requires m.HinderedRotor? && !IsFourier(m)
  {
    Div(Planck * (HinderedRotorFrequency(m).value * SpeedOfLight), Boltzmann * T)
  }

  function TorsionZ(m: Mode, T: real): real
    requires m.HinderedRotor?
  {
    Div(0.5 * m.barrier, GasConstant * T)
  }

  function CosinePartitionFunction(m: Mode, T: real): real
    requires m.HinderedRotor? && !IsFourier(m)
  {
    var x := TorsionX(m, T);
    var z := TorsionZ(m, T);
    Div(x, 1.0 - Exp(-x)) * Sqrt(2.0 * Pi * m.hrInertia * Boltzmann * T / Planck / Planck)
      * Div(2.0 * Pi, m.hrSymmetry) * Exp(-z) * BesselI0(z)
  }

  function HinderedRotorPartitionFunction(m: Mode, T: real): (r: Result<real, JsError>)
    requires m.HinderedRotor?
    ensures r.Err? <==> IsFourier(m)
  {
    if IsFourier(m) then Err(TypeError) else Ok(CosinePartitionFunction(m, T))
  }

  function HinderedRotorHeatCapacity(m: Mode, T: real): (r: Result<real, JsError>)
    requires m.HinderedRotor?
    ensures r.Err? <==> IsFourier(m)
  {
    if IsFourier(m) then Err(TypeError)
    else
      var x := TorsionX(m, T);
      var z := TorsionZ(m, T);
      var BB := Div(BesselI1(z), BesselI0(z));
      Ok((OscillatorHeatCapacity(x) - 0.5 + z * (z - BB - z * BB * BB)) * GasConstant)
  }

  /** d ln Q / d ln T by a centred difference over T (1 +- 0.001). */
  function LogQSlope(m: Mode, T: real): real
    requires m.HinderedRotor? && !IsFourier(m)
  {
    var Tlow, Thigh := T * 0.999, T * 1.001;
    Div(T * (Log(CosinePartitionFunction(m, Thigh)) - Log(CosinePartitionFunction(m, Tlow))), Thigh - Tlow)
  }

  function HinderedRotorEnthalpy(m: Mode, T: real): (r: Result<real, JsError>)
    requires m.HinderedRotor?
    ensures r.Err? <==> IsFourier(m)
  {
    if IsFourier(m) then Err(TypeError) else Ok(LogQSlope(m, T) * GasConstant * T)
  }

  function HinderedRotorEntropy(m: Mode, T: real): (r: Result<real, JsError>)
    requires m.HinderedRotor?
    ensures r.Err? <==> IsFourier(m)
  {
    if IsFourier(m) then Err(TypeError)
    else Ok((Log(CosinePartitionFunction(m, T * 1.001)) + LogQSlope(m, T)) * GasConstant)
  }

  /** 2 q1f / sqrt(pi^3 V0), the classical prefactor of the hindered-rotor density. */
  function DensityPrefactor(m: Mode): real
    requires m.HinderedRotor?
  {
    var q1f := Div(Sqrt(8.0 * Pi * Pi * Pi * m.hrInertia / Planck / Planck / Avogadro), m.hrSymmetry);
    Div(2.0 * q1f, Sqrt(Pi * Pi * Pi * m.barrier))
  }

  lemma DivSelf(x: real)
    ensures x != 0.0 ==> Div(x, x) == 1.0
  {
  }

  /**
   * One entry of the hindered-rotor density of states: 0 for the Fourier
   * potential; pre K(E/V0) below the barrier, pre sqrt(V0/E) K(V0/E) above
   * it, and 0 exactly at it.
   */
  function HinderedRotorDensityAt(m: Mode, E: real): (rho: real)
    requires m.HinderedRotor? && SqrtIsRoot()
    ensures IsFourier(m) ==> rho == 0.0
    ensures !IsFourier(m) && m.barrier != 0.0 && E == m.barrier ==> rho == 0.0
  {
    DivSelf(E);
    if IsFourier(m) then 0.0
    else
      var V0 := m.barrier;
      if Div(E, V0) < 1.0 then Times(DensityPrefactor(m), CompleteEllipticK(Div(E, V0)))
      else if Div(E, V0) > 1.0 then Times(Times(DensityPrefactor(m), Sqrt(Div(V0, E))), CompleteEllipticK(Div(V0, E)))
      else 0.0
  }

  function HinderedRotorDensity(m: Mode, Elist: seq<real>): (rho: seq<Num>)
    requires m.HinderedRotor? && SqrtIsRoot()
    ensures |rho| == |Elist|
  {
    seq(|Elist|, r requires 0 <= r < |Elist| => Val(HinderedRotorDensityAt(m, Elist[r])))
  }

  /** One entry of the density loop, which calls `cellipk` below or above the barrier. */
  method HinderedRotorDensityEntry(m: Mode, E: real) returns (rho: real)
    requires m.HinderedRotor? && SqrtIsRoot()
    ensures rho == HinderedRotorDensityAt(m, E)
  {
    rho := 0.0;
    if !IsFourier(m) {
      var V0 := m.barrier;
      var pre := DensityPrefactor(m);
      var x := Div(E, V0);
      if x < 1.0 {
        var K := Cellipk(x);
        rho := Times(pre, K);
      } else if x > 1.0 {
        var K := Cellipk(Div(V0, E));
        rho := Times(Times(pre, Sqrt(Div(V0, E))), K);
      }
    }
  }

  method GetHinderedRotorDensity(m: Mode, Elist: seq<real>) returns (rho: seq<Num>)
    requires m.HinderedRotor? && SqrtIsRoot()
    ensures rho == HinderedRotorDensity(m, Elist)
  {
    var a := new Num[|Elist|];
    for r := 0 to |Elist|
      invariant forall k :: 0 <= k < r ==> a[k] == Val(HinderedRotorDensityAt(m, Elist[k]))
    {
      var entry := HinderedRotorDensityEntry(m, Elist[r]);
      a[r] := Val(entry);
    }
    rho := a[..];
  }
}
