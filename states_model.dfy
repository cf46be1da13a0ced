/**
 * The molecule-level statistical-mechanics model of the browser engine: a
 * list of degrees of freedom and the spin multiplicity of the electronic
 * ground state. The thermodynamic functions run one loop over the modes;
 * the density of states starts from an (arbitrary) active K-rotor when the
 * molecule has neither translation nor external rotation, convolves in the
 * other non-vibrational modes in list order, and applies the vibrations last
 * by direct count.
 */
module States {
  import opened Common
  import opened JsMath
  import opened StatMech

  datatype StatesModel = StatesModel(modes: seq<Mode>, spinMultiplicity: real)

  /** The constructor's `(x) ? x : default`: no modes, spin multiplicity 1. */
  function NewStatesModel(modes: Option<seq<Mode>>, spinMultiplicity: Option<real>): (s: StatesModel)
    ensures modes.Some? ==> s.modes == modes.value
    ensures modes.None? ==> s.modes == []
    ensures s.spinMultiplicity != 0.0
    ensures spinMultiplicity.None? ==> s.spinMultiplicity == 1.0
  {
    StatesModel(if modes.Some? then modes.value else [], OrDefault(spinMultiplicity, 1.0))
  }

  // ---------------------------------------------------------------------
  // The active K-rotor

  /** An `instanceof Translation` or `instanceof RigidRotor` mode. */
  predicate IsExternal(m: Mode)
  {
    m.Translation? || m.RigidRotor?
  }

  predicate ActiveKRotor(modes: seq<Mode>)
  {
    forall n :: 0 <= n < |modes| ==> !IsExternal(modes[n])
  }

  /** `useActiveKRotor`: false as soon as a translation or rigid rotor is met. */
  method UseActiveKRotor(modes: seq<Mode>) returns (active: bool)
    ensures active <==> ActiveKRotor(modes)
  {
    for n := 0 to |modes|
      invariant forall k :: 0 <= k < n ==> !IsExternal(modes[k])
    {
      if IsExternal(modes[n]) {
        return false;
      }
    }
    return true;
  }

  /** Trot = 1 / R / pi, the rotational temperature of the K-rotor. */
  function KRotorTemperature(): real
  {
    Div(Div(1.0, GasConstant), Pi)
  }

  // ---------------------------------------------------------------------
  // Thermodynamic functions

  datatype Property = HeatCapacity | Enthalpy | Entropy | PartitionFunction

  /** Only the entropy and the partition function of a linear rotor read its first moment of inertia. */
  predicate ReadsInertia(p: Property)
  {
    p == Entropy || p == PartitionFunction
  }

  predicate RotorInertiaGiven(m: Mode)
  {
    m.RigidRotor? && m.linear ==> |m.inertia| > 0
  }

  /** A hindered rotor with a Fourier potential, whose every function raises. */
  predicate FourierRotor(m: Mode)
  {
    m.HinderedRotor? && IsFourier(m)
  }

  /** What `modes[n].getHeatCapacity(T)` (and the other three) return for one mode. */
  function ModeValue(m: Mode, p: Property, T: real): (r: Result<real, JsError>)
    requires ReadsInertia(p) ==> RotorInertiaGiven(m)
    ensures r.Err? <==> FourierRotor(m)
  {
    match m
    case Translation(mass) =>
      Ok(match p
         case HeatCapacity => TranslationHeatCapacity(T)
         case Enthalpy => TranslationEnthalpy(T)
         case Entropy => TranslationEntropy(mass, T)
         case PartitionFunction => TranslationPartitionFunction(mass, T))
    case RigidRotor(linear, inertia, symmetry) =>
      Ok(match p
         case HeatCapacity => RigidRotorHeatCapacity(linear, T)
         case Enthalpy => RigidRotorEnthalpy(linear, T)
         case Entropy => RigidRotorEntropy(linear, inertia, symmetry, T)
         case PartitionFunction => RigidRotorPartitionFunction(linear, inertia, symmetry, T))
    case HarmonicOscillator(fs) =>
      Ok(match p
         case HeatCapacity => OscillatorsHeatCapacity(fs, T)
         case Enthalpy => OscillatorsEnthalpy(fs, T)
         case Entropy => OscillatorsEntropy(fs, T)
         case PartitionFunction => OscillatorsPartitionFunction(fs, T))
    case HinderedRotor(_, _, _, _, _) =>
      match p
      case HeatCapacity => HinderedRotorHeatCapacity(m, T)
      case Enthalpy => HinderedRotorEnthalpy(m, T)
      case Entropy => HinderedRotorEntropy(m, T)
      case PartitionFunction => HinderedRotorPartitionFunction(m, T)
  }

  /** The loops add the mode values, except the partition function's, which multiplies them. */
  function Combine(p: Property, acc: real, x: real): real
  {
    if p == PartitionFunction then Times(acc, x) else acc + x
  }

  /** The neutral starting value of Combine. */
  function Unit(p: Property): real
  {
    if p == PartitionFunction then 1.0 else 0.0
  }

  predicate Evaluable(modes: seq<Mode>, p: Property)
  {
    ReadsInertia(p) ==> forall n :: 0 <= n < |modes| ==> RotorInertiaGiven(modes[n])
  }

  predicate HasFourierRotor(modes: seq<Mode>)
  {
    exists n :: 0 <= n < |modes| && FourierRotor(modes[n])
  }

  /**
   * The loop `acc = init; for each mode: acc = acc (+ or *) mode value`,
   * which raises (TypeError) exactly when some mode is a Fourier rotor.
   */
  function Accumulate(init: real, modes: seq<Mode>, p: Property, T: real): (r: Result<real, JsError>)
    requires Evaluable(modes, p)
    ensures r.Err? <==> HasFourierRotor(modes)
  {
    if |modes| == 0 then Ok(init)
    else
      var prefix := modes[..|modes| - 1];
      var last := modes[|modes| - 1];
      assert forall n :: 0 <= n < |prefix| ==> prefix[n] == modes[n];
      var prev := Accumulate(init, prefix, p, T);
      var x := ModeValue(last, p, T);
      if prev.Err? || x.Err? then Err(TypeError) else Ok(Combine(p, prev.value, x.value))
  }

  /** The value each of the four loops starts from. */
  function InitialValue(modes: seq<Mode>, p: Property, T: real): real
  {
    match p
    case HeatCapacity => GasConstant
    case Enthalpy => GasConstant * T
    case Entropy => 0.0
    case PartitionFunction => if ActiveKRotor(modes) then 1.0 * Sqrt(Div(T, KRotorTemperature())) else 1.0
  }

  /**
   * What `getHeatCapacity`, `getEnthalpy`, `getEntropy` and
   * `getPartitionFunction` return: Cp = R + sum Cv, H = RT + sum H,
   * S = sum S, Q = [K-rotor] * prod Q * spin multiplicity; each raises
   * exactly when some mode is a hindered rotor with a Fourier potential.
   */
  function Evaluate(s: StatesModel, p: Property, T: real): (r: Result<real, JsError>)
    requires Evaluable(s.modes, p)
    ensures r.Err? <==> HasFourierRotor(s.modes)
  {
    var acc := Accumulate(InitialValue(s.modes, p, T), s.modes, p, T);
    if p == PartitionFunction && acc.Ok? then Ok(Times(acc.value, s.spinMultiplicity)) else acc
  }

  /** One mode's value; vibrations and the nonlinear rotor run their own loops. */
  method GetModeValue(m: Mode, p: Property, T: real) returns (r: Result<real, JsError>)
    requires ReadsInertia(p) ==> RotorInertiaGiven(m)
    ensures r == ModeValue(m, p, T)
  {
    match m
    case HarmonicOscillator(fs) =>
      var v: real;
      match p {
        case HeatCapacity => v := GetOscillatorsHeatCapacity(fs, T);
        case Enthalpy => v := GetOscillatorsEnthalpy(fs, T);
        case Entropy => v := GetOscillatorsEntropy(fs, T);
        case PartitionFunction => v := GetOscillatorsPartitionFunction(fs, T);
      }
      r := Ok(v);
    case RigidRotor(linear, inertia, symmetry) =>
      if p == PartitionFunction {
        var q := GetRigidRotorPartitionFunction(linear, inertia, symmetry, T);
        r := Ok(q);
      } else {
        r := ModeValue(m, p, T);
      }
    case Translation(_) =>
      r := ModeValue(m, p, T);
    case HinderedRotor(_, _, _, _, _) =>
      r := ModeValue(m, p, T);
  }

  /** The loop over the modes shared by the four thermodynamic functions. */
  method AccumulateModes(init: real, modes: seq<Mode>, p: Property, T: real) returns (r: Result<real, JsError>)
    requires Evaluable(modes, p)
    ensures r == Accumulate(init, modes, p, T)
  {
    var acc := init;
    for n := 0 to |modes|
      invariant Accumulate(init, modes[..n], p, T) == Ok(acc)
    {
      assert modes[..n + 1][..n] == modes[..n];
      var x := GetModeValue(modes[n], p, T);
      if x.Err? {
        assert FourierRotor(modes[n]);
        return Err(TypeError);
      }
      acc := Combine(p, acc, x.value);
    }
    assert modes[..|modes|] == modes;
    r := Ok(acc);
  }

  method GetHeatCapacity(s: StatesModel, T: real) returns (Cp: Result<real, JsError>)
    ensures Cp == Evaluate(s, HeatCapacity, T)
  {
    Cp := AccumulateModes(GasConstant, s.modes, HeatCapacity, T);
  }

  method GetEnthalpy(s: StatesModel, T: real) returns (H: Result<real, JsError>)
    ensures H == Evaluate(s, Enthalpy, T)
  {
    H := AccumulateModes(GasConstant * T, s.modes, Enthalpy, T);
  }

  method GetEntropy(s: StatesModel, T: real) returns (S: Result<real, JsError>)
    requires Evaluable(s.modes, Entropy)
    ensures S == Evaluate(s, Entropy, T)
  {
    S := AccumulateModes(0.0, s.modes, Entropy, T);
  }

  method GetPartitionFunction(s: StatesModel, T: real) returns (Q: Result<real, JsError>)
    requires Evaluable(s.modes, PartitionFunction)
    ensures Q == Evaluate(s, PartitionFunction, T)
  {
    var q := 1.0;
    var active := UseActiveKRotor(s.modes);
    if active {
      var Trot := Div(Div(1.0, GasConstant), Pi);
      assert Trot == KRotorTemperature();
      q := q * Sqrt(Div(T, Trot));
    }
    assert q == InitialValue(s.modes, PartitionFunction, T);
    Q := AccumulateModes(q, s.modes, PartitionFunction, T);
    if Q.Ok? {
      assert Evaluate(s, PartitionFunction, T).value == Times(Q.value, s.spinMultiplicity);
      Q := Ok(Times(Q.value, s.spinMultiplicity));
    }
  }

  // Order of the modes

  lemma ActiveKRotorAppend(a: seq<Mode>, b: seq<Mode>)
    ensures ActiveKRotor(a + b) <==> ActiveKRotor(a) && ActiveKRotor(b)
  {
    assert forall n :: 0 <= n < |a| ==> (a + b)[n] == a[n];
    assert forall n :: 0 <= n < |b| ==> (a + b)[|a| + n] == b[n];
  }

  lemma CombineAssociates(p: Property, a: real, b: real, c: real)
    ensures Combine(p, Combine(p, a, b), c) == Combine(p, a, Combine(p, b, c))
  {
  }

  lemma CombineCommutes(p: Property, a: real, b: real)
    ensures Combine(p, a, b) == Combine(p, b, a)
  {
  }

  /** Running the loop over a + b is running it over a, then over b from where it stopped. */
  lemma {:induction false} AccumulateAppend(init: real, a: seq<Mode>, b: seq<Mode>, p: Property, T: real)
    requires Evaluable(a, p) && Evaluable(b, p)
    ensures Evaluable(a + b, p)
    ensures Accumulate(init, a, p, T).Ok? ==>
      Accumulate(init, a + b, p, T) == Accumulate(Accumulate(init, a, p, T).value, b, p, T)
    decreases |b|
  {
    assert forall n :: 0 <= n < |a + b| ==> (a + b)[n] == if n < |a| then a[n] else b[n - |a|];
    if |b| == 0 {
      assert a + b == a;
    } else {
      var b' := b[..|b| - 1];
      assert forall n :: 0 <= n < |b'| ==> b'[n] == b[n];
      assert (a + b)[..|a + b| - 1] == a + b';
      assert (a + b)[|a + b| - 1] == b[|b| - 1];
      AccumulateAppend(init, a, b', p, T);
    }
  }

  /** Starting from c is combining c with the run started from the unit. */
  lemma {:induction false} AccumulateFromUnit(c: real, modes: seq<Mode>, p: Property, T: real)
    requires Evaluable(modes, p) && !HasFourierRotor(modes)
    ensures Accumulate(c, modes, p, T).value == Combine(p, c, Accumulate(Unit(p), modes, p, T).value)
    decreases |modes|
  {
    if |modes| > 0 {
      var prefix := modes[..|modes| - 1];
      assert forall n :: 0 <= n < |prefix| ==> prefix[n] == modes[n];
      AccumulateFromUnit(c, prefix, p, T);
      var x := ModeValue(modes[|modes| - 1], p, T).value;
      CombineAssociates(p, c, Accumulate(Unit(p), prefix, p, T).value, x);
    }
  }

  lemma HasFourierRotorAppend(a: seq<Mode>, b: seq<Mode>)
    ensures HasFourierRotor(a + b) <==> HasFourierRotor(a) || HasFourierRotor(b)
  {
    assert forall n :: 0 <= n < |a| ==> (a + b)[n] == a[n];
    assert forall n :: 0 <= n < |b| ==> (a + b)[|a| + n] == b[n];
    if HasFourierRotor(a + b) {
      var n :| 0 <= n < |a + b| && FourierRotor((a + b)[n]);
      if n >= |a| {
        assert FourierRotor(b[n - |a|]);
      }
    }
  }

  /** The run over a + b is init combined with the unit runs over a and over b. */
  lemma AccumulateSplit(init: real, a: seq<Mode>, b: seq<Mode>, p: Property, T: real)
    requires Evaluable(a, p) && Evaluable(b, p) && !HasFourierRotor(a) && !HasFourierRotor(b)
    ensures Evaluable(a + b, p) && !HasFourierRotor(a + b)
    ensures Accumulate(init, a + b, p, T).value
         == Combine(p, init, Combine(p, Accumulate(Unit(p), a, p, T).value, Accumulate(Unit(p), b, p, T).value))
  {
    HasFourierRotorAppend(a, b);
    AccumulateAppend(init, a, b, p, T);
    var A := Accumulate(Unit(p), a, p, T).value;
    AccumulateFromUnit(init, a, p, T);
    AccumulateFromUnit(Combine(p, init, A), b, p, T);
    CombineAssociates(p, init, A, Accumulate(Unit(p), b, p, T).value);
  }

  lemma AccumulateCommutes(init: real, a: seq<Mode>, b: seq<Mode>, p: Property, T: real)
    requires Evaluable(a, p) && Evaluable(b, p)
    ensures Evaluable(a + b, p) && Evaluable(b + a, p)
    ensures Accumulate(init, a + b, p, T) == Accumulate(init, b + a, p, T)
  {
    AccumulateAppend(0.0, a, b, p, T);
    AccumulateAppend(0.0, b, a, p, T);
    HasFourierRotorAppend(a, b);
    HasFourierRotorAppend(b, a);
    if !HasFourierRotor(a) && !HasFourierRotor(b) {
      AccumulateSplit(init, a, b, p, T);
      AccumulateSplit(init, b, a, p, T);
      CombineCommutes(p, Accumulate(Unit(p), a, p, T).value, Accumulate(Unit(p), b, p, T).value);
      assert Accumulate(init, a + b, p, T).value == Accumulate(init, b + a, p, T).value;
    }
  }

  /**
   * The thermodynamic functions do not depend on the order of the modes
   * (unlike the density of states, whose convolution is not symmetric).
   */
  lemma ModeOrderIrrelevant(a: seq<Mode>, b: seq<Mode>, spin: real, p: Property, T: real)
    requires Evaluable(a, p) && Evaluable(b, p)
    ensures Evaluable(a + b, p) && Evaluable(b + a, p)
    ensures Evaluate(StatesModel(a + b, spin), p, T) == Evaluate(StatesModel(b + a, spin), p, T)
  {
    ActiveKRotorAppend(a, b);
    ActiveKRotorAppend(b, a);
    var init := InitialValue(a + b, p, T);
    assert InitialValue(b + a, p, T) == init;
    AccumulateCommutes(init, a, b, p, T);
    var acc := Accumulate(init, a + b, p, T);
    if acc.Ok? {
      assert Evaluate(StatesModel(a + b, spin), p, T).value == Evaluate(StatesModel(b + a, spin), p, T).value;
    }
  }

  // ---------------------------------------------------------------------
  // Density of states

  function Zeros(size: nat): (rho: seq<Num>)
    ensures |rho| == size && forall r :: 0 <= r < size ==> rho[r] == Val(0.0)
  {
    seq(size, _ => Val(0.0))
  }

  /**
   * One past the last grid point with a positive energy (0 if there is
   * none): the length of a JavaScript array assigned only at those points.
   */
  function PositiveEnd(Elist: seq<real>): (n: nat)
    ensures n <= |Elist|
    ensures forall r :: n <= r < |Elist| ==> Elist[r] <= 0.0
    ensures n > 0 ==> Elist[n - 1] > 0.0
  {
    if |Elist| == 0 then 0
    else if Elist[|Elist| - 1] > 0.0 then |Elist|
    else PositiveEnd(Elist[..|Elist| - 1])
  }

  /**
   * The K-rotor density 1 / sqrt(E), assigned only where E > 0: the other
   * entries are holes (undefined), and the array ends after the last
   * positive energy.
   */
  function KRotorDensity(Elist: seq<real>): (rho: seq<Num>)
    ensures |rho| == PositiveEnd(Elist)
    ensures forall r :: 0 <= r < |rho| ==> (rho[r].Val? <==> Elist[r] > 0.0)
  {
    seq(PositiveEnd(Elist), r requires 0 <= r < PositiveEnd(Elist) =>
      if Elist[r] > 0.0 then Val(Div(1.0, Sqrt(1.0 * Elist[r]))) else NaN)
  }

  /** The K-rotor loop: assigning past the end of the array leaves holes before the new entry. */
  method GetKRotorDensity(Elist: seq<real>) returns (rho0: seq<Num>)
    ensures rho0 == KRotorDensity(Elist)
  {
    rho0 := [];
    for r := 0 to |Elist|
      invariant rho0 == KRotorDensity(Elist[..r])
    {
      ghost var prefix := Elist[..r + 1];
      assert prefix[..r] == Elist[..r];
      if Elist[r] > 0.0 {
        rho0 := rho0 + seq(r - |rho0|, _ => NaN) + [Val(Div(1.0, Sqrt(1.0 * Elist[r])))];
      }
    }
    assert Elist[..|Elist|] == Elist;
  }

  /** `getDensityOfStates(Elist)` of a mode that is not a harmonic oscillator. */
  function ModeDensity(m: Mode, Elist: seq<real>): (rho: seq<Num>)
    requires !m.HarmonicOscillator? && SqrtIsRoot()
    ensures |rho| == |Elist|
  {
    match m
    case Translation(_) => TranslationDensity(Elist)
    case RigidRotor(linear, inertia, symmetry) => RigidRotorDensity(linear, inertia, symmetry, Elist)
    case HinderedRotor(_, _, _, _, _) => HinderedRotorDensity(m, Elist)
  }

  /** The zero density, convolved with the K-rotor's when it is active. */
  function StartDensity(modes: seq<Mode>, Elist: seq<real>): (rho: seq<Num>)
    ensures |rho| == |Elist|
  {
    var zeros := Zeros(|Elist|);
    if ActiveKRotor(modes) then Convolution(zeros, KRotorDensity(Elist), Elist) else zeros
  }

  /** The second loop: convolve in every non-vibrational mode, in list order. */
  function ConvolveModes(rho: seq<Num>, modes: seq<Mode>, Elist: seq<real>): (out: seq<Num>)
    requires SqrtIsRoot()
    ensures |rho| == |Elist| ==> |out| == |Elist|
  {
    if |modes| == 0 then rho
    else
      var prefix := modes[..|modes| - 1];
      var last := modes[|modes| - 1];
      assert forall n :: 0 <= n < |prefix| ==> prefix[n] == modes[n];
      var prev := ConvolveModes(rho, prefix, Elist);
      if last.HarmonicOscillator? then prev else Convolution(prev, ModeDensity(last, Elist), Elist)
  }

  /** The third loop: the direct count of every vibrational mode, in list order. */
  function SweepModes(rho: seq<Num>, modes: seq<Mode>, Elist: seq<real>): (out: seq<Num>)
    ensures |rho| == |Elist| ==> |out| == |Elist|
  {
    if |modes| == 0 then rho
    else
      var prefix := modes[..|modes| - 1];
      var last := modes[|modes| - 1];
      assert forall n :: 0 <= n < |prefix| ==> prefix[n] == modes[n];
      var prev := SweepModes(rho, prefix, Elist);
      if last.HarmonicOscillator? then OscillatorsDensity(last.frequencies, Elist, prev) else prev
  }

  /** What `getDensityOfStates(Elist)` returns. */
  function Density(s: StatesModel, Elist: seq<real>): (rho: seq<Num>)
    requires SqrtIsRoot()
    ensures |rho| == |Elist|
  {
    SweepModes(ConvolveModes(StartDensity(s.modes, Elist), s.modes, Elist), s.modes, Elist)
  }

  /** Every vibrational frequency of the model, in the order the third loop meets them. */
  function AllFrequencies(modes: seq<Mode>): seq<real>
  {
    if |modes| == 0 then []
    else
      var last := modes[|modes| - 1];
      AllFrequencies(modes[..|modes| - 1]) + (if last.HarmonicOscillator? then last.frequencies else [])
  }

  /**
   * The vibrational modes act as one: the third loop gives the direct count
   * of a single oscillator set holding every frequency of the model.
   */
  lemma {:induction false} SweepModesMerge(rho: seq<Num>, modes: seq<Mode>, Elist: seq<real>)
    requires |rho| == |Elist|
    ensures SweepModes(rho, modes, Elist) == OscillatorsDensity(AllFrequencies(modes), Elist, rho)
  {
    if |modes| == 0 {
      assert CopyOnGrid(rho, Elist) == rho;
    } else {
      var prefix := modes[..|modes| - 1];
      var last := modes[|modes| - 1];
      assert forall n :: 0 <= n < |prefix| ==> prefix[n] == modes[n];
      SweepModesMerge(rho, prefix, Elist);
      var fs := AllFrequencies(prefix);
      if last.HarmonicOscillator? {
        OscillatorsDensityCompose(fs, last.frequencies, Elist, rho);
      } else {
        assert AllFrequencies(modes) == fs;
      }
    }
  }

  /**
   * The density of states is the direct count of all the vibrations, run on
   * the convolution of the K-rotor (when active) and the other modes.
   */
  lemma DensityVibrationsLast(s: StatesModel, Elist: seq<real>)
    requires SqrtIsRoot()
    ensures Density(s, Elist)
         == OscillatorsDensity(AllFrequencies(s.modes), Elist, ConvolveModes(StartDensity(s.modes, Elist), s.modes, Elist))
  {
    SweepModesMerge(ConvolveModes(StartDensity(s.modes, Elist), s.modes, Elist), s.modes, Elist);
  }

  /** A positive energy gives a positive K-rotor entry 1 / sqrt(E). */
  lemma KRotorEntryPositive(E: real)
    requires SqrtIsRoot() && E > 0.0
    ensures Div(1.0, Sqrt(1.0 * E)) > 0.0
  {
    assert 1.0 * E == E;
    var q := Sqrt(E);
    assert q * q == E;
    PositiveRoot(q, E);
  }

  lemma PositiveRoot(q: real, E: real)
    requires q >= 0.0 && q * q == E && E > 0.0
    ensures q > 0.0 && 1.0 / q > 0.0
  {
  }

  /**
   * The density the mode loop starts from is the K-rotor's own when it is
   * active and its array spans the grid (the last energy is positive), and
   * zero otherwise: a K-rotor array that stops short of the grid is dropped.
   */
  lemma StartDensityIsKRotor(modes: seq<Mode>, Elist: seq<real>)
    requires SqrtIsRoot()
    ensures ActiveKRotor(modes) && |Elist| > 0 && Elist[|Elist| - 1] > 0.0
      ==> StartDensity(modes, Elist) == KRotorDensity(Elist)
    ensures !(ActiveKRotor(modes) && |Elist| > 0 && Elist[|Elist| - 1] > 0.0)
      ==> StartDensity(modes, Elist) == Zeros(|Elist|)
  {
    var zeros := Zeros(|Elist|);
    var k := KRotorDensity(Elist);
    assert !Present(zeros, |Elist|);
    if ActiveKRotor(modes) {
      if |Elist| > 0 && Elist[|Elist| - 1] > 0.0 {
        var last := |Elist| - 1;
        KRotorEntryPositive(Elist[last]);
        assert IsPositive(k[last]);
        ConvolutionWithAbsent(k, zeros, Elist);
      } else {
        assert !Present(k, |Elist|);
        assert StartDensity(modes, Elist) == zeros;
      }
    }
  }

  method GetModeDensity(m: Mode, Elist: seq<real>) returns (rho: seq<Num>)
    requires !m.HarmonicOscillator? && SqrtIsRoot()
    ensures rho == ModeDensity(m, Elist)
  {
    match m
    case Translation(_) =>
      rho := TranslationDensity(Elist);
    case RigidRotor(linear, inertia, symmetry) =>
      rho := GetRigidRotorDensity(linear, inertia, symmetry, Elist);
    case HinderedRotor(_, _, _, _, _) =>
      rho := GetHinderedRotorDensity(m, Elist);
  }

  method GetDensityOfStates(s: StatesModel, Elist: seq<real>) returns (rho: seq<Num>)
    requires SqrtIsRoot()
    ensures rho == Density(s, Elist)
  {
    var modes := s.modes;
    var a := new Num[|Elist|];
    for r := 0 to |Elist|
      invariant forall k :: 0 <= k < r ==> a[k] == Val(0.0)
    {
      a[r] := Val(0.0);
    }
    rho := a[..];
    assert rho == Zeros(|Elist|);
    var active := UseActiveKRotor(modes);
    if active {
      var rho0 := GetKRotorDensity(Elist);
      rho := Convolve(rho, rho0, Elist);
    }
    assert rho == StartDensity(modes, Elist);
    rho := ConvolveAll(rho, modes, Elist);
    rho := SweepAll(rho, modes, Elist);
  }

  /** The second loop of `getDensityOfStates`. */
  method ConvolveAll(start: seq<Num>, modes: seq<Mode>, Elist: seq<real>) returns (rho: seq<Num>)
    requires SqrtIsRoot()
    ensures rho == ConvolveModes(start, modes, Elist)
  {
    rho := start;
    for n := 0 to |modes|
      invariant rho == ConvolveModes(start, modes[..n], Elist)
    {
      assert modes[..n + 1][..n] == modes[..n];
      assert modes[..n + 1][n] == modes[n];
      if !modes[n].HarmonicOscillator? {
        var rho0 := GetModeDensity(modes[n], Elist);
        rho := Convolve(rho, rho0, Elist);
      }
    }
    assert modes[..|modes|] == modes;
  }

  /** The third loop of `getDensityOfStates`. */
  method SweepAll(mid: seq<Num>, modes: seq<Mode>, Elist: seq<real>) returns (rho: seq<Num>)
    ensures rho == SweepModes(mid, modes, Elist)
  {
    rho := mid;
    for n := 0 to |modes|
      invariant rho == SweepModes(mid, modes[..n], Elist)
    {
      assert modes[..n + 1][..n] == modes[..n];
      assert modes[..n + 1][n] == modes[n];
      if modes[n].HarmonicOscillator? {
        rho := GetOscillatorsDensity(modes[n].frequencies, Elist, rho);
      }
    }
    assert modes[..|modes|] == modes;
  }
}
