/**
 * The unit algebra of the kinetics template tags: a rate-coefficient unit
 * string is read into a map from dimension to power and rebuilt in the
 * user's preferred base units. Also the shape of the Arrhenius formula shown
 * to the user and the temperature and pressure ranges of the rate plots.
 * RMG-Py's quantity conversion factors and number formatting are parameters.
 */
module RenderKinetics {
  import opened Common
  import PyText

  // ---------------------------------------------------------------------
  // Integers as text
  // ---------------------------------------------------------------------

  predicate IsDigit(c: char) { '0' <= c <= '9' }

  predicate AllDigits(s: string)
  {
    forall i :: 0 <= i < |s| ==> IsDigit(s[i])
  }

  /** The value of a run of decimal digits. */
  function DigitsValue(s: string): nat
    requires AllDigits(s)
  {
    if |s| == 0 then 0
    else 10 * DigitsValue(s[..|s| - 1]) + (s[|s| - 1] as int - '0' as int)
  }

  /** `int(s)`: surrounding whitespace, an optional sign and at least one digit; None for `ValueError`. */
  function ParseInt(s: string): Option<int>
  {
    var t := PyText.Strip(s);
    if |t| > 0 && (t[0] == '-' || t[0] == '+') then
      var d := t[1..];
      if |d| > 0 && AllDigits(d) then
        var v: int := DigitsValue(d);
        Some(if t[0] == '-' then -v else v)
      else None
    else if |t| > 0 && AllDigits(t) then Some(DigitsValue(t))
    else None
  }

  /** `str(n)` for a natural number. */
  function NatStr(n: nat): (s: string)
    ensures |s| > 0 && AllDigits(s) && DigitsValue(s) == n
  {
    var last := [('0' as int + n % 10) as char];
    if n < 10 then last
    else
      var s := NatStr(n / 10) + last;
      assert s[..|s| - 1] == NatStr(n / 10);
      s
  }

  /** `str(n)`, and the `{}` format of an integer. */
  function IntStr(n: int): (s: string)
    ensures |s| > 0 && PyText.NoSpace(s)
    ensures forall i :: 0 <= i < |s| ==> IsDigit(s[i]) || (i == 0 && s[i] == '-')
  {
    if n < 0 then "-" + NatStr(-n) else NatStr(n)
  }

  /** Reading back a written integer gives the integer. */
  lemma IntRoundTrip(n: int)
    ensures ParseInt(IntStr(n)) == Some(n)
  {
    PyText.StripNoSpace(IntStr(n));
    if n < 0 {
      assert IntStr(n)[1..] == NatStr(-n);
    }
  }

  // ---------------------------------------------------------------------
  // Reading a unit string
  // ---------------------------------------------------------------------

  datatype Dimension = Length | Mol | Time

  type Dimensionality = map<Dimension, int>

  /** Why reading or rebuilding a unit string raises. */
  datatype UnitError =
    | UnknownUnit(unit: string)  // a base unit outside the table: `KeyError`
    | BadPower                   // more than one '^' in a part, or a power that is not an integer: `ValueError`
    | MissingKey                 // a dimension or a preferred base unit that is not there: `KeyError`
    | CannotConstruct            // the rebuilt units fail the sign checks: `ValueError`

  /** The table of base units the reader knows. */
  function UnitType(unit: string): Option<Dimension>
  {
    if unit == "cm" || unit == "m" then Some(Length)
    else if unit == "mol" || unit == "molecule" then Some(Mol)
    else if unit == "s" then Some(Time)
    else None
  }

  /** `units.replace('**', '^')`. */
  function Normalize(units: string): string
  {
    PyText.Replace(units, "**", "^")
  }

  /** The '*'-separated parts of one '/'-separated fraction, parentheses removed. */
  function PartsOf(fraction: string): seq<string>
  {
    PyText.Split(PyText.Replace(PyText.Replace(fraction, "(", ""), ")", ""), "*")
  }

  /** A unit together with its power, from the table. */
  function Lookup(unit: string, power: int): Result<(Dimension, int), UnitError>
  {
    match UnitType(unit)
    case None => Err(UnknownUnit(unit))
    case Some(d) => Ok((d, power))
  }

  /** One part: 'unit^power', or a bare unit with power 1. */
  function ParsePart(part: string): Result<(Dimension, int), UnitError>
  {
    if PyText.Contains(part, "^") then
      var pieces := PyText.Split(part, "^");
      if |pieces| != 2 then Err(BadPower)
      else
        match ParseInt(pieces[1])
        case None => Err(BadPower)
        case Some(p) => Lookup(pieces[0], p)
    else Lookup(part, 1)
  }

  /** A dimension recorded with its power, negated in a denominator. */
  function Record(dims: Dimensionality, dp: (Dimension, int), negate: bool): Dimensionality
  {
    dims[dp.0 := if negate then -dp.1 else dp.1]
  }

  /** Records the parts of a fraction from index `k` on, negating powers in a denominator; a later part overwrites. */
  function AddParts(dims: Dimensionality, parts: seq<string>, k: nat, negate: bool): Result<Dimensionality, UnitError>
    requires k <= |parts|
    decreases |parts| - k
  {
    if k == |parts| then Ok(dims)
    else
      match ParsePart(parts[k])
      case Err(e) => Err(e)
      case Ok(dp) => AddParts(Record(dims, dp, negate), parts, k + 1, negate)
  }

  /** Records the fractions from index `i` on; odd-numbered fractions are denominators. */
  function AddFractions(dims: Dimensionality, fractions: seq<string>, i: nat): Result<Dimensionality, UnitError>
    requires i <= |fractions|
    decreases |fractions| - i
  {
    if i == |fractions| then Ok(dims)
    else
      match AddParts(dims, PartsOf(fractions[i]), 0, i % 2 == 1)
      case Err(e) => Err(e)
      case Ok(d) => AddFractions(d, fractions, i + 1)
  }

  /** `get_rate_unit_dimensionality`, as a value. */
  function ReadDimensionality(units: string): Result<Dimensionality, UnitError>
  {
    AddFractions(map[], PyText.Split(Normalize(units), "/"), 0)
  }

  /** One part of the inner loop: a failing part ends the reading, any other is recorded. */
  lemma PartStep(dims: Dimensionality, parts: seq<string>, k: nat, negate: bool)
    requires k < |parts|
    ensures ParsePart(parts[k]).Err? ==> AddParts(dims, parts, k, negate) == Err(ParsePart(parts[k]).error)
    ensures ParsePart(parts[k]).Ok? ==>
      AddParts(dims, parts, k, negate) == AddParts(Record(dims, ParsePart(parts[k]).value, negate), parts, k + 1, negate)
  {
  }

  /** Stores one part's power, negated in a denominator. */
  method RecordPart(dims: Dimensionality, dp: (Dimension, int), negate: bool) returns (out: Dimensionality)
    ensures out == Record(dims, dp, negate)
  {
    var (d, power) := dp;
    if negate {
      power := -power;
    }
    out := dims[d := power];
  }

  /** The inner loop of `get_rate_unit_dimensionality`: records the parts of one fraction. */
  method ReadFraction(start: Dimensionality, parts: seq<string>, negate: bool) returns (r: Result<Dimensionality, UnitError>)
    ensures r == AddParts(start, parts, 0, negate)
  {
    var dims := start;
    for k := 0 to |parts|
      invariant AddParts(dims, parts, k, negate) == AddParts(start, parts, 0, negate)
    {
      PartStep(dims, parts, k, negate);
      var dp := ParsePart(parts[k]);
      if dp.Err? {
        return Err(dp.error);
      }
      dims := RecordPart(dims, dp.value, negate);
    }
    r := Ok(dims);
  }

  /** `get_rate_unit_dimensionality`: fills the map fraction by fraction. */
  method GetRateUnitDimensionality(units: string) returns (r: Result<Dimensionality, UnitError>)
    ensures r == ReadDimensionality(units)
  {
    var dims: Dimensionality := map[];
    var fractions := PyText.Split(Normalize(units), "/");
    for i := 0 to |fractions|
      invariant AddFractions(dims, fractions, i) == ReadDimensionality(units)
    {
      var added := ReadFraction(dims, PartsOf(fractions[i]), i % 2 == 1);
      if added.Err? {
        return Err(added.error);
      }
      dims := added.value;
    }
    r := Ok(dims);
  }

  // ---------------------------------------------------------------------
  // Rebuilding a unit string
  // ---------------------------------------------------------------------

  function Abs(p: int): nat { if p < 0 then -p else p }

  /** The exponent written after a base unit: nothing for a power of magnitude 1, else '^' and the magnitude. */
  function Exponent(p: int): string
  {
    if Abs(p) == 1 then "" else "^" + IntStr(Abs(p))
  }

  /** A base unit with the exponent of its dimension. */
  function Piece(dims: Dimensionality, desired: map<Dimension, string>, d: Dimension): string
    requires d in dims && d in desired
  {
    desired[d] + Exponent(dims[d])
  }

  /**
   * `construct_rate_units` with the mol and time powers allowed up to
   * `limit`: a single dimension is written as a time power, three as
   * 'length/(mol*time)'; anything else fails.
   */
  function ConstructWith(dims: Dimensionality, desired: map<Dimension, string>, limit: int): Result<string, UnitError>
  {
    if |dims| == 1 then
      if Time in desired && Time in dims then Ok(desired[Time] + "^" + IntStr(dims[Time])) else Err(MissingKey)
    else if |dims| == 3 then
      if (Length in dims && Length !in desired) || (Mol in dims && Mol !in desired) || (Time in dims && Time !in desired) then
        Err(MissingKey)
      else
        var bad := (Length in dims && dims[Length] < 1) || (Mol in dims && dims[Mol] > limit)
                   || (Time in dims && dims[Time] > limit);
        var length := if Length in dims then Piece(dims, desired, Length) else "";
        var mol := if Mol in dims then Piece(dims, desired, Mol) else "";
        var time := if Time in dims then Piece(dims, desired, Time) else "";
        if bad || length == "" || mol == "" || time == "" then Err(CannotConstruct)
        else Ok(length + "/(" + mol + "*" + time + ")")
    else Err(CannotConstruct)
  }

  /** `construct_rate_units` as written: mol and time powers up to 1 pass the check. */
  function ConstructUnits(dims: Dimensionality, desired: map<Dimension, string>): Result<string, UnitError>
  {
    ConstructWith(dims, desired, 1)
  }

  /** `construct_rate_units` with the check its comments describe: mol and time powers must be negative. */
  function ConstructUnitsIntended(dims: Dimensionality, desired: map<Dimension, string>): Result<string, UnitError>
  {
    ConstructWith(dims, desired, -1)
  }

  /** The loop of `construct_rate_units` over the dimensions, in whatever order the map yields them. */
  method ConstructRateUnits(dims: Dimensionality, desired: map<Dimension, string>) returns (r: Result<string, UnitError>)
    ensures r == ConstructUnits(dims, desired)
  {
    if |dims| == 1 {
      if Time !in desired || Time !in dims {
        return Err(MissingKey);
      }
      return Ok(desired[Time] + "^" + IntStr(dims[Time]));
    }
    if |dims| != 3 {
      return Err(CannotConstruct);
    }
    var error := false;
    var length, mol, time := "", "", "";
    var todo := dims.Keys;
    while todo != {}
      invariant todo <= dims.Keys
      invariant forall d :: d in dims && d !in todo ==> d in desired
      invariant length == if Length in dims && Length !in todo then Piece(dims, desired, Length) else ""
      invariant mol == if Mol in dims && Mol !in todo then Piece(dims, desired, Mol) else ""
      invariant time == if Time in dims && Time !in todo then Piece(dims, desired, Time) else ""
      invariant error == ((Length in dims && Length !in todo && dims[Length] < 1)
                          || (Mol in dims && Mol !in todo && dims[Mol] > 1)
                          || (Time in dims && Time !in todo && dims[Time] > 1))
      decreases |todo|
    {
      var d :| d in todo;
      todo := todo - {d};
      var exponent := Exponent(dims[d]);
      if d !in desired {
        assert d in dims && (d == Length || d == Mol || d == Time);
        assert ConstructWith(dims, desired, 1) == Err(MissingKey);
        return Err(MissingKey);
      }
      match d
      case Length =>
        if dims[d] < 1 {
          error := true;
        }
        length := desired[d] + exponent;
      case Mol =>
        if dims[d] > 1 {
          error := true;
        }
        mol := desired[d] + exponent;
      case Time =>
        if dims[d] > 1 {
          error := true;
        }
        time := desired[d] + exponent;
    }
    if error || length == "" || mol == "" || time == "" {
      return Err(CannotConstruct);
    }
    r := Ok(length + "/(" + mol + "*" + time + ")");
  }

  /** The preferred base units for a user setting; an unknown setting leaves none. */
  function DesiredUnits(setting: string): map<Dimension, string>
  {
    if setting == "m^3,mol,s" then map[Length := "m", Mol := "mol", Time := "s"]
    else if setting == "cm^3,mol,s" then map[Length := "cm", Mol := "mol", Time := "s"]
    else if setting == "m^3,molecule,s" then map[Length := "m", Mol := "molecule", Time := "s"]
    else if setting == "cm^3,molecule,s" then map[Length := "cm", Mol := "molecule", Time := "s"]
    else map[]
  }

  /** The extra inverse concentration of low-pressure kinetics: length^+3 and mol^-1, either created if absent. */
  function AddConcDim(dims: Dimensionality): (r: Dimensionality)
    ensures r.Keys == dims.Keys + {Length, Mol}
    ensures r[Length] == (if Length in dims then dims[Length] else 0) + 3
    ensures r[Mol] == (if Mol in dims then dims[Mol] else 0) - 1
    ensures Time in dims ==> Time in r && r[Time] == dims[Time]
  {
    var withLength := dims[Length := if Length in dims then dims[Length] + 3 else 3];
    withLength[Mol := if Mol in withLength then withLength[Mol] - 1 else -1]
  }

  /** `reconstruct_rate_units`, as a value. */
  function Reconstruct(units: string, setting: string, addConcDim: bool): Result<string, UnitError>
  {
    match ReadDimensionality(units)
    case Err(e) => Err(e)
    case Ok(dims) => ConstructUnits(if addConcDim then AddConcDim(dims) else dims, DesiredUnits(setting))
  }

  /** `reconstruct_rate_units`: read the units, add the concentration dimension if asked, and rebuild. */
  method ReconstructRateUnits(units: string, setting: string, addConcDim: bool) returns (r: Result<string, UnitError>)
    ensures r == Reconstruct(units, setting, addConcDim)
  {
    var read := GetRateUnitDimensionality(units);
    if read.Err? {
      return Err(read.error);
    }
    var dims := read.value;
    if addConcDim {
      if Length in dims {
        dims := dims[Length := dims[Length] + 3];
      } else {
        dims := dims[Length := 3];
      }
      if Mol in dims {
        dims := dims[Mol := dims[Mol] - 1];
      } else {
        dims := dims[Mol := -1];
      }
    }
    r := ConstructRateUnits(dims, DesiredUnits(setting));
  }

  /**
   * The unit part of `getRateCoefficientUnits`: dimensionless kinetics give
   * ('', '', 1); otherwise the high- and low-pressure units and the
   * conversion factor RMG-Py reports for the former (`factorOf`).
   */
  function RateCoefficientUnits(units: string, setting: string, factorOf: string -> real): (r: Result<(string, string, real), UnitError>)
    ensures units == "" ==> r == Ok(("", "", 1.0))
    ensures units != "" && r.Ok? ==>
      Reconstruct(units, setting, false) == Ok(r.value.0) && Reconstruct(units, setting, true) == Ok(r.value.1)
      && r.value.2 == factorOf(r.value.0)
  {
    if units == "" then Ok(("", "", 1.0))
    else
      match Reconstruct(units, setting, false)
      case Err(e) => Err(e)
      case Ok(high) =>
        match Reconstruct(units, setting, true)
        case Err(e) => Err(e)
        case Ok(low) => Ok((high, low, factorOf(high)))
  }

  // ---------------------------------------------------------------------
  // Arrhenius formula and plot ranges
  // ---------------------------------------------------------------------

  /** How the temperature enters the displayed Arrhenius formula. */
  datatype TemperatureFactor = NoTemperature | PlainPower(n: real) | ReducedPower(t0: real, n: real)

  /** How the activation energy enters it: exp(-Ea/RT) with Ea > 0, or exp(|Ea|/RT) for a negative Ea. */
  datatype EnergyFactor = NoExponential | Decaying(ea: real) | Growing(magnitude: real)

  /** The factors `getArrheniusJSMath` writes after the pre-exponential factor. */
  function ArrheniusShape(n: real, ea: real, t0: real): (r: (TemperatureFactor, EnergyFactor))
    ensures r.0 == NoTemperature <==> n == 0.0
    ensures r.0.ReducedPower? <==> n != 0.0 && t0 != 1.0
    ensures r.0 != NoTemperature ==> r.0.n == n
    ensures r.1 == NoExponential <==> ea == 0.0
    ensures r.1.Decaying? ==> r.1.ea == ea > 0.0
    ensures r.1.Growing? ==> r.1.magnitude > 0.0 && r.1.magnitude + ea == 0.0
  {
    var temperature := if n == 0.0 then NoTemperature else if t0 != 1.0 then ReducedPower(t0, n) else PlainPower(n);
    var energy := if ea > 0.0 then Decaying(ea) else if ea < 0.0 then Growing(-ea) else NoExponential;
    (temperature, energy)
  }

  /** The plotting window of `get_rate_coefficients`: temperatures and pressures in SI units. */
  datatype PlotRange = PlotRange(tmin: real, tmax: real, pmin: real, pmax: real)

  /** A degenerate temperature range is widened by 5 K each way; missing ranges default to 300-2000 K and 1e3-1e7 Pa. */
  function PlotWindow(tmin: Option<real>, tmax: Option<real>, pmin: Option<real>, pmax: Option<real>): (r: PlotRange)
    ensures tmin.Some? && tmax.Some? ==> r.tmin + r.tmax == tmin.value + tmax.value
    ensures tmin.Some? && tmax.Some? && tmin.value <= tmax.value ==> r.tmin < r.tmax
    ensures tmin.Some? && tmax.Some? && tmin.value != tmax.value ==> r.tmin == tmin.value && r.tmax == tmax.value
    ensures tmin.None? || tmax.None? ==> r.tmin == 300.0 && r.tmax == 2000.0
    ensures pmin.Some? && pmax.Some? ==> r.pmin == pmin.value && r.pmax == pmax.value
    ensures pmin.None? || pmax.None? ==> r.pmin == 1000.0 && r.pmax == 10000000.0
  {
    var (tlo, thi) :=
      if tmin.Some? && tmax.Some? then
        if tmin.value == tmax.value then (tmin.value - 5.0, tmax.value + 5.0) else (tmin.value, tmax.value)
      else (300.0, 2000.0);
    var (plo, phi) := if pmin.Some? && pmax.Some? then (pmin.value, pmax.value) else (1000.0, 10000000.0);
    PlotRange(tlo, thi, plo, phi)
  }

  // ---------------------------------------------------------------------
  // Properties of reading
  // ---------------------------------------------------------------------

  /** Text without a doubled '*' is already normalised. */
  lemma NormalizeKeeps(s: string)
    requires PyText.NoPair(s, '*')
    ensures Normalize(s) == s
  {
    PyText.ContainsPair(s, '*');
    PyText.ReplaceAbsent(s, "**", "^");
  }

  /** Normalising twice is normalising once. */
  lemma NormalizeIdempotent(units: string)
    ensures Normalize(Normalize(units)) == Normalize(units)
  {
    PyText.ReplacePairFree(units, '*', "^");
    NormalizeKeeps(Normalize(units));
  }

  /** A unit string and its '^' spelling are read identically: '**' is only another way to write '^'. */
  lemma SpellingsAgree(units: string)
    ensures ReadDimensionality(Normalize(units)) == ReadDimensionality(units)
  {
    NormalizeIdempotent(units);
  }

  /** A unit name made of lower-case letters only, as every name in the table is. */
  predicate Letters(u: string)
  {
    forall i :: 0 <= i < |u| ==> 'a' <= u[i] <= 'z'
  }

  /** A part written 'unit^n' reads as that unit's dimension with power n. */
  lemma PowerPart(u: string, n: int)
    requires '^' !in u
    ensures ParsePart(u + "^" + IntStr(n)) == Lookup(u, n)
  {
    var part := u + "^" + IntStr(n);
    PyText.ContainsChar(part, '^');
    assert part[|u|] == '^';
    PyText.SplitAtFirst(u, '^', IntStr(n));
    PyText.SplitMissingChar(IntStr(n), '^');
    IntRoundTrip(n);
  }

  /** A part without '^' reads as its unit with power 1. */
  lemma BarePart(u: string)
    requires '^' !in u
    ensures ParsePart(u) == Lookup(u, 1)
  {
    PyText.ContainsChar(u, '^');
  }

  /** A base unit with the exponent `construct_rate_units` writes after it reads back as its dimension with the magnitude of the power. */
  lemma PieceRead(u: string, p: int)
    requires '^' !in u
    ensures ParsePart(u + Exponent(p)) == Lookup(u, Abs(p))
  {
    if Abs(p) == 1 {
      assert u + Exponent(p) == u;
      BarePart(u);
    } else {
      assert u + Exponent(p) == u + "^" + IntStr(Abs(p));
      PowerPart(u, Abs(p));
    }
  }

  /** A character that may appear in a base unit with its exponent. */
  predicate PieceChar(c: char)
  {
    'a' <= c <= 'z' || IsDigit(c) || c == '^' || c == '-'
  }

  /** An exponent is made of '^', digits and a sign only. */
  lemma ExponentChars(p: int)
    ensures forall i :: 0 <= i < |Exponent(p)| ==> PieceChar(Exponent(p)[i])
  {
    if Abs(p) != 1 {
      var e := Exponent(p);
      var digits := IntStr(Abs(p));
      assert e == "^" + digits;
      forall i | 0 <= i < |e|
        ensures PieceChar(e[i])
      {
        if i > 0 {
          assert e[i] == digits[i - 1];
        }
      }
    }
  }

  /** A base unit with its exponent holds none of the separators '/', '(', ')' and '*'. */
  lemma PieceFree(u: string, p: int)
    requires Letters(u) && |u| > 0
    ensures var piece := u + Exponent(p);
      |piece| > 0 && '/' !in piece && '(' !in piece && ')' !in piece && '*' !in piece
  {
    var e := Exponent(p);
    var piece := u + e;
    ExponentChars(p);
    forall i | 0 <= i < |piece|
      ensures PieceChar(piece[i])
    {
      if i < |u| {
        assert piece[i] == u[i];
      } else {
        assert piece[i] == e[i - |u|];
      }
    }
  }

  /** Recording two parts one after the other. */
  lemma TwoParts(dims: Dimensionality, a: string, b: string, negate: bool, da: Dimension, x: int, db: Dimension, y: int)
    requires ParsePart(a) == Ok((da, x)) && ParsePart(b) == Ok((db, y))
    ensures AddParts(dims, [a, b], 0, negate) == Ok(Record(Record(dims, (da, x), negate), (db, y), negate))
  {
    var first := Record(dims, (da, x), negate);
    assert [a, b][0] == a && [a, b][1] == b;
    PartStep(dims, [a, b], 0, negate);
    PartStep(first, [a, b], 1, negate);
  }

  /** A dimension that appears twice in a fraction keeps its last power: powers overwrite, they do not add up. */
  lemma LaterPartWins(dims: Dimensionality, a: string, b: string, negate: bool, d: Dimension, x: int, y: int)
    requires ParsePart(a) == Ok((d, x)) && ParsePart(b) == Ok((d, y))
    ensures AddParts(dims, [a, b], 0, negate) == Ok(dims[d := if negate then -y else y])
  {
    TwoParts(dims, a, b, negate, d, x, d, y);
    RecordTwice(dims, d, x, y, negate);
  }

  /** Recording the same dimension twice keeps the second power. */
  lemma RecordTwice(dims: Dimensionality, d: Dimension, x: int, y: int, negate: bool)
    ensures Record(Record(dims, (d, x), negate), (d, y), negate) == dims[d := if negate then -y else y]
  {
  }

  /** Recording a mol part and then a time part of a denominator. */
  lemma RecordDenominator(dims: Dimensionality, pm: int, pt: int)
    ensures Record(Record(dims, (Mol, pm), true), (Time, pt), true) == dims[Mol := -pm][Time := -pt]
  {
  }

  /** A base unit outside the table makes the whole reading fail with `KeyError`. */
  lemma UnknownUnitFails(u: string)
    requires '^' !in u && UnitType(u).None?
    ensures ParsePart(u) == Err(UnknownUnit(u))
  {
    BarePart(u);
  }

  /**
   * Reading 'a/b/c' with bare units: the first fraction is a numerator, the
   * second a denominator, and the third a numerator again, so its power is +1.
   */
  lemma ReadThreeFractions(a: string, b: string, c: string)
    requires Letters(a) && Letters(b) && Letters(c)
    requires UnitType(a).Some? && UnitType(b).Some? && UnitType(c).Some?
    ensures ReadDimensionality(a + "/" + b + "/" + c)
      == Ok(map[UnitType(a).value := 1][UnitType(b).value := -1][UnitType(c).value := 1])
  {
    var units := a + "/" + b + "/" + c;
    LettersFree(a);
    LettersFree(b);
    LettersFree(c);
    assert units == a + ['/'] + (b + ['/'] + c);
    NoStarKept(units);
    SplitThree(a, b, c);
    var da, db, dc := UnitType(a).value, UnitType(b).value, UnitType(c).value;
    OnePart(a);
    OnePart(b);
    OnePart(c);
    BarePart(a);
    BarePart(b);
    BarePart(c);
    var fractions := [a, b, c];
    assert AddParts(map[], [a], 0, false) == Ok(map[da := 1]);
    assert AddParts(map[da := 1], [b], 0, true) == Ok(map[da := 1][db := -1]);
    assert AddParts(map[da := 1][db := -1], [c], 0, false) == Ok(map[da := 1][db := -1][dc := 1]);
    var m1, m2, m3 := map[da := 1], map[da := 1][db := -1], map[da := 1][db := -1][dc := 1];
    assert AddFractions(m3, fractions, 3) == Ok(m3);
    assert fractions[2] == c && PartsOf(fractions[2]) == [c];
    assert AddFractions(m2, fractions, 2) == Ok(m3);
    assert fractions[1] == b && PartsOf(fractions[1]) == [b];
    assert AddFractions(m1, fractions, 1) == Ok(m3);
    assert fractions[0] == a && PartsOf(fractions[0]) == [a];
    assert AddFractions(map[], fractions, 0) == Ok(m3);
  }

  /** Text without '*' is left alone by the normalisation. */
  lemma NoStarKept(s: string)
    requires '*' !in s
    ensures Normalize(s) == s
  {
    assert PyText.NoPair(s, '*');
    NormalizeKeeps(s);
  }

  /** Splitting 'a/b/c' at '/' when none of the three holds a '/'. */
  lemma SplitThree(a: string, b: string, c: string)
    requires '/' !in a && '/' !in b && '/' !in c
    ensures PyText.Split(a + ['/'] + (b + ['/'] + c), "/") == [a, b, c]
  {
    PyText.SplitAtFirst(a, '/', b + ['/'] + c);
    PyText.SplitAtFirst(b, '/', c);
    PyText.SplitMissingChar(c, '/');
  }

  /** Lower-case letters hold no separator and no '*'. */
  lemma LettersFree(u: string)
    requires Letters(u)
    ensures '/' !in u && '(' !in u && ')' !in u && '*' !in u && '^' !in u
  {
    forall i | 0 <= i < |u|
      ensures u[i] != '/' && u[i] != '(' && u[i] != ')' && u[i] != '*' && u[i] != '^'
    {
      assert 'a' <= u[i] <= 'z';
    }
  }

  /** A fraction with no parenthesis and no '*' is a single part. */
  lemma OnePart(f: string)
    requires '(' !in f && ')' !in f && '*' !in f
    ensures PartsOf(f) == [f]
  {
    PyText.ReplaceMissingChar(f, '(', "");
    PyText.ReplaceMissingChar(f, ')', "");
    PyText.SplitMissingChar(f, '*');
  }

  // ---------------------------------------------------------------------
  // Reading back what was built
  // ---------------------------------------------------------------------

  /** Preferred base units that are names from the table for their own dimension. */
  predicate TableUnits(desired: map<Dimension, string>)
  {
    forall x :: x in desired ==> |desired[x]| > 0 && Letters(desired[x]) && UnitType(desired[x]) == Some(x)
  }

  /** Every user setting names base units from the table. */
  lemma SettingsUseTable(setting: string)
    ensures TableUnits(DesiredUnits(setting))
  {
    if setting == "m^3,mol,s" {
      TableRow("m", "mol");
    } else if setting == "cm^3,mol,s" {
      TableRow("cm", "mol");
    } else if setting == "m^3,molecule,s" {
      TableRow("m", "molecule");
    } else if setting == "cm^3,molecule,s" {
      TableRow("cm", "molecule");
    }
  }

  /** Preferred units chosen from the table's lengths and amounts, with seconds. */
  lemma TableRow(length: string, mol: string)
    requires length == "m" || length == "cm"
    requires mol == "mol" || mol == "molecule"
    ensures TableUnits(map[Length := length, Mol := mol, Time := "s"])
  {
    assert Letters(length) by {
      forall i | 0 <= i < |length|
        ensures 'a' <= length[i] <= 'z'
      {
      }
    }
    assert Letters(mol) by {
      forall i | 0 <= i < |mol|
        ensures 'a' <= mol[i] <= 'z'
      {
      }
    }
    assert Letters("s");
  }

  /** An unknown setting has no preferred units, so nothing can be rebuilt in it. */
  lemma UnknownSettingFails(dims: Dimensionality, setting: string, limit: int)
    requires DesiredUnits(setting) == map[]
    ensures ConstructWith(dims, DesiredUnits(setting), limit).Err?
  {
  }

  /** The string 'length/(mol*time)' holds no doubled '*'. */
  lemma ProductNoPair(l: string, m: string, t: string)
    requires '*' !in l && '*' !in m && '*' !in t && |m| > 0
    ensures PyText.NoPair(l + "/(" + m + "*" + t + ")", '*')
  {
    var x := l + "/(" + m;
    var y := "*" + t + ")";
    assert l + "/(" + m + "*" + t + ")" == x + y;
    assert '*' !in x;
    assert PyText.NoPair(x, '*');
    forall j | 0 <= j < |y| - 1
      ensures !(y[j] == '*' && y[j + 1] == '*')
    {
      if j + 1 < |y| - 1 {
        assert y[j + 1] == t[j];
      } else {
        assert y[j + 1] == ')';
      }
    }
    assert x[|x| - 1] == m[|m| - 1];
    PyText.NoPairJoin(x, y, '*');
  }

  /** The parts of the denominator '(mol*time)' are mol and time. */
  lemma DenominatorParts(m: string, t: string)
    requires '(' !in m && ')' !in m && '*' !in m
    requires '(' !in t && ')' !in t && '*' !in t
    ensures PartsOf("(" + m + "*" + t + ")") == [m, t]
  {
    var f := "(" + m + "*" + t + ")";
    var inner := m + "*" + t;
    assert f == ['('] + (inner + ")");
    PyText.ReplaceCharStep(f, '(', "");
    assert f[1..] == inner + ")";
    PyText.ReplaceMissingChar(inner + ")", '(', "");
    assert PyText.Replace(f, "(", "") == inner + ")";
    PyText.ReplaceCharConcat(inner, ")", ')', "");
    PyText.ReplaceMissingChar(inner, ')', "");
    PyText.ReplaceCharStep(")", ')', "");
    assert PyText.Replace(inner + ")", ")", "") == inner;
    PyText.SplitAtFirst(m, '*', t);
    PyText.SplitMissingChar(t, '*');
  }

  /** The normalised '/'-fractions of 'length/(mol*time)'. */
  lemma ProductFractions(l: string, m: string, t: string) returns (fractions: seq<string>)
    requires |m| > 0 && '*' !in l && '*' !in m && '*' !in t
    requires '/' !in l && '/' !in m && '/' !in t
    ensures fractions == PyText.Split(Normalize(l + "/(" + m + "*" + t + ")"), "/")
    ensures fractions == [l, "(" + m + "*" + t + ")"]
  {
    var units := l + "/(" + m + "*" + t + ")";
    var den := "(" + m + "*" + t + ")";
    ProductNoPair(l, m, t);
    NormalizeKeeps(units);
    assert units == l + ['/'] + den;
    assert '/' !in den;
    PyText.SplitAtFirst(l, '/', den);
    PyText.SplitMissingChar(den, '/');
    fractions := PyText.Split(units, "/");
  }

  /**
   * Reading 'length/(mol*time)' built from three pieces: the length power as
   * it is, the mol and time powers negated.
   */
  lemma ReadProduct(l: string, m: string, t: string, pl: int, pm: int, pt: int)
    requires |m| > 0
    requires '/' !in l && '(' !in l && ')' !in l && '*' !in l
    requires '/' !in m && '(' !in m && ')' !in m && '*' !in m
    requires '/' !in t && '(' !in t && ')' !in t && '*' !in t
    requires ParsePart(l) == Ok((Length, pl)) && ParsePart(m) == Ok((Mol, pm)) && ParsePart(t) == Ok((Time, pt))
    ensures ReadDimensionality(l + "/(" + m + "*" + t + ")") == Ok(map[Length := pl][Mol := -pm][Time := -pt])
  {
    var den := "(" + m + "*" + t + ")";
    var fractions := ProductFractions(l, m, t);
    OnePart(l);
    DenominatorParts(m, t);
    var m1 := map[Length := pl];
    var m2 := m1[Mol := -pm][Time := -pt];
    assert AddParts(map[], [l], 0, false) == Ok(m1);
    TwoParts(m1, m, t, true, Mol, pm, Time, pt);
    RecordDenominator(m1, pm, pt);
    assert AddFractions(m2, fractions, 2) == Ok(m2);
    assert fractions[1] == den;
    var second := PartsOf(fractions[1]);
    assert second == [m, t];
    assert AddParts(m1, second, 0, true) == Ok(m2);
    assert AddFractions(m1, fractions, 1) == Ok(m2);
    assert fractions[0] == l && PartsOf(fractions[0]) == [l];
    assert AddFractions(map[], fractions, 0) == Ok(m2);
  }

  /** A one-dimension map holding time is the map of that time power alone. */
  lemma OnlyTime(d: Dimensionality)
    requires |d| == 1 && Time in d
    ensures d == map[Time := d[Time]]
  {
    var m := map[Time := d[Time]];
    assert {Time} <= d.Keys;
    assert |d.Keys - {Time}| == 0;
    assert d.Keys == m.Keys;
  }

  /** A map holding each dimension is the map of its three powers. */
  lemma AllDimensions(d: Dimensionality)
    requires Length in d && Mol in d && Time in d
    ensures d == map[Length := d[Length]][Mol := d[Mol]][Time := d[Time]]
  {
    var m := map[Length := d[Length]][Mol := d[Mol]][Time := d[Time]];
    forall x: Dimension
      ensures x in d && x in m
    {
      assert x == Length || x == Mol || x == Time;
    }
    assert d.Keys == m.Keys;
  }

  /** What a single-dimension construction writes reads back as that dimension. */
  lemma ReadBackOne(d: Dimensionality, desired: map<Dimension, string>, limit: int, s: string)
    requires TableUnits(desired) && |d| == 1
    requires ConstructWith(d, desired, limit) == Ok(s)
    ensures ReadDimensionality(s) == Ok(d)
  {
    var u := desired[Time];
    var p := d[Time];
    assert s == u + "^" + IntStr(p);
    LettersFree(u);
    assert '*' !in s && '/' !in s && '(' !in s && ')' !in s by {
      forall i | |u| + 1 <= i < |s|
        ensures s[i] != '*' && s[i] != '/' && s[i] != '(' && s[i] != ')'
      {
        assert s[i] == IntStr(p)[i - |u| - 1];
      }
    }
    NoStarKept(s);
    PyText.SplitMissingChar(s, '/');
    OnePart(s);
    PowerPart(u, p);
    assert AddParts(map[], [s], 0, false) == Ok(map[Time := p]);
    var fractions := PyText.Split(Normalize(s), "/");
    assert fractions == [s] && PartsOf(fractions[0]) == [s];
    assert AddFractions(map[Time := p], fractions, 1) == Ok(map[Time := p]);
    OnlyTime(d);
  }

  /** What a three-dimension construction writes: every dimension is there and the string is 'length/(mol*time)'. */
  lemma ConstructedThree(d: Dimensionality, desired: map<Dimension, string>, limit: int, s: string)
    requires TableUnits(desired) && |d| == 3
    requires ConstructWith(d, desired, limit) == Ok(s)
    ensures Length in d && Mol in d && Time in d && d[Length] >= 1 && d[Mol] <= limit && d[Time] <= limit
    ensures s == Piece(d, desired, Length) + "/(" + Piece(d, desired, Mol) + "*" + Piece(d, desired, Time) + ")"
  {
  }

  /**
   * What a three-dimension construction writes reads back with the length
   * power and the negated magnitudes of the mol and time powers.
   */
  lemma ReadBackThree(d: Dimensionality, desired: map<Dimension, string>, limit: int, s: string)
    requires TableUnits(desired) && |d| == 3
    requires ConstructWith(d, desired, limit) == Ok(s)
    ensures Length in d && Mol in d && Time in d && d[Length] >= 1 && d[Mol] <= limit && d[Time] <= limit
    ensures ReadDimensionality(s) == Ok(map[Length := d[Length]][Mol := -(Abs(d[Mol]) as int)][Time := -(Abs(d[Time]) as int)])
  {
    ConstructedThree(d, desired, limit, s);
    var ul, um, ut := desired[Length], desired[Mol], desired[Time];
    var pl, pm, pt := d[Length], d[Mol], d[Time];
    LettersFree(ul);
    LettersFree(um);
    LettersFree(ut);
    PieceRead(ul, pl);
    PieceRead(um, pm);
    PieceRead(ut, pt);
    PieceFree(ul, pl);
    PieceFree(um, pm);
    PieceFree(ut, pt);
    ReadProduct(ul + Exponent(pl), um + Exponent(pm), ut + Exponent(pt), Abs(pl), Abs(pm), Abs(pt));
  }

  /**
   * With the check the comments of `construct_rate_units` describe, every
   * string it builds reads back as the dimensions it was built from.
   */
  lemma IntendedRoundTrip(d: Dimensionality, setting: string, s: string)
    requires ConstructUnitsIntended(d, DesiredUnits(setting)) == Ok(s)
    ensures ReadDimensionality(s) == Ok(d)
  {
    SettingsUseTable(setting);
    if |d| == 1 {
      ReadBackOne(d, DesiredUnits(setting), -1, s);
    } else {
      ReadBackThree(d, DesiredUnits(setting), -1, s);
      AllDimensions(d);
    }
  }

  /** What the intended check accepts, the check as written accepts and writes the same way. */
  lemma IntendedAgreesWithWritten(d: Dimensionality, desired: map<Dimension, string>, s: string)
    requires ConstructUnitsIntended(d, desired) == Ok(s)
    ensures ConstructUnits(d, desired) == Ok(s)
  {
  }

  /**
   * Rebuilding is a fixed point on its own well-formed output: units written
   * in the user's setting are rewritten to the same string.
   */
  lemma ReconstructKeepsOwnOutput(d: Dimensionality, setting: string, s: string)
    requires ConstructUnitsIntended(d, DesiredUnits(setting)) == Ok(s)
    ensures Reconstruct(s, setting, false) == Ok(s)
  {
    IntendedRoundTrip(d, setting, s);
  }

  /** The SI base units setting. */
  const SiSetting := "m^3,mol,s"

  /** The units of first-order kinetics. */
  const FirstOrderUnits := "s^-1"

  /** The SI units of second-order kinetics. */
  const SecondOrderUnits := "m^3/(mol*s)"

  /** A mol power of +1 beside the powers of second-order kinetics. */
  const MolPlusOne: Dimensionality := map[Length := 3, Mol := 1, Time := -1]

  /** The powers of second-order kinetics. */
  const SecondOrder: Dimensionality := map[Length := 3, Mol := -1, Time := -1]

  /**
   * `construct_rate_units` as written lets a mol power of +1 through and
   * writes it like -1: {length: 3, mol: 1, time: -1} in SI units comes out
   * as the string of {length: 3, mol: -1, time: -1}, which reads back with
   * mol -1.
   */
  lemma MolPowerOneMisread()
    ensures ConstructUnits(MolPlusOne, DesiredUnits(SiSetting)) == Ok(SecondOrderUnits)
    ensures ConstructUnits(SecondOrder, DesiredUnits(SiSetting)) == Ok(SecondOrderUnits)
    ensures ReadDimensionality(SecondOrderUnits) == Ok(SecondOrder) != Ok(MolPlusOne)
  {
    SecondOrderString();
    var desired := DesiredUnits(SiSetting);
    assert |MolPlusOne| == 3 by { assert MolPlusOne.Keys == {Length, Mol, Time}; }
    assert Exponent(1) == Exponent(-1);
    assert Piece(MolPlusOne, desired, Mol) == Piece(SecondOrder, desired, Mol);
    assert ConstructUnits(MolPlusOne, desired) == ConstructUnits(SecondOrder, desired);
    IntendedRoundTrip(SecondOrder, SiSetting, SecondOrderUnits);
    assert SecondOrder[Mol] != MolPlusOne[Mol];
  }

  /** The SI string of second-order kinetics. */
  lemma SecondOrderString()
    ensures ConstructUnitsIntended(SecondOrder, DesiredUnits(SiSetting)) == Ok(SecondOrderUnits)
  {
    var d := SecondOrder;
    assert |d| == 3 by { assert d.Keys == {Length, Mol, Time}; }
    assert NatStr(3) == "3";
    assert Exponent(3) == "^3" && Exponent(-1) == "";
    var desired := DesiredUnits(SiSetting);
    assert desired == map[Length := "m", Mol := "mol", Time := "s"];
    assert Piece(d, desired, Length) == "m^3";
    assert Piece(d, desired, Mol) == "mol";
    assert Piece(d, desired, Time) == "s";
    assert "m^3" + "/(" + "mol" + "*" + "s" + ")" == SecondOrderUnits;
  }

  /** Second-order units written in SI base units are rewritten unchanged. */
  lemma SecondOrderRoundTrip()
    ensures Reconstruct(SecondOrderUnits, SiSetting, false) == Ok(SecondOrderUnits)
  {
    SecondOrderString();
    ReconstructKeepsOwnOutput(SecondOrder, SiSetting, SecondOrderUnits);
  }

  /** Reading 's^-1' gives a time power of -1, and SI units write that power back as 's^-1'. */
  lemma FirstOrderRead()
    ensures ReadDimensionality(FirstOrderUnits) == Ok(map[Time := -1])
    ensures ConstructUnits(map[Time := -1], DesiredUnits(SiSetting)) == Ok(FirstOrderUnits)
  {
    var d := map[Time := -1];
    assert NatStr(1) == "1" && IntStr(-1) == "-1";
    var desired := DesiredUnits(SiSetting);
    assert desired[Time] == "s";
    assert "s" + "^" + "-1" == FirstOrderUnits;
    assert ConstructUnitsIntended(d, desired) == Ok(FirstOrderUnits);
    IntendedRoundTrip(d, SiSetting, FirstOrderUnits);
  }

  /** First-order units are rewritten unchanged. */
  lemma FirstOrderRoundTrip()
    ensures Reconstruct(FirstOrderUnits, SiSetting, false) == Ok(FirstOrderUnits)
  {
    FirstOrderRead();
  }

  /** Rebuilding with the concentration dimension rebuilds the read powers with length^+3 and mol^-1 added. */
  lemma ConcentrationAdded(units: string, setting: string, d: Dimensionality)
    requires ReadDimensionality(units) == Ok(d)
    ensures Reconstruct(units, setting, true) == ConstructUnits(AddConcDim(d), DesiredUnits(setting))
  {
  }

  /** With the concentration dimension added, first-order units become second-order units. */
  lemma FirstOrderWithConcentration()
    ensures Reconstruct(FirstOrderUnits, SiSetting, true) == Ok(SecondOrderUnits)
  {
    FirstOrderRead();
    ConcentrationAdded(FirstOrderUnits, SiSetting, map[Time := -1]);
    AddConcDimOfFirstOrder();
    SecondOrderString();
    IntendedAgreesWithWritten(SecondOrder, DesiredUnits(SiSetting), SecondOrderUnits);
  }

  /** The concentration dimension added to a time power of -1 gives the powers of second-order kinetics. */
  lemma AddConcDimOfFirstOrder()
    ensures AddConcDim(map[Time := -1]) == SecondOrder
  {
  }
}
