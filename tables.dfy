/**
 * The bracket search both browser engines run over a table of temperatures:
 * a loop over the consecutive pairs that keeps the LAST pair with
 * `Tdata[i] <= T < Tdata[i+1]`.
 */
module Tables {
  import opened Common

  predicate StrictlyIncreasing(s: seq<real>)
  {
    forall i, j :: 0 <= i < j < |s| ==> s[i] < s[j]
  }

  predicate Brackets(Tdata: seq<real>, i: int, T: real)
    requires 0 <= i && i + 1 < |Tdata|
  {
    Tdata[i] <= T < Tdata[i + 1]
  }

  /** The last pair among the first n that brackets T. */
  function LastBracket(Tdata: seq<real>, T: real, n: nat): (r: Option<nat>)
    requires n < |Tdata|
    ensures r.Some? ==> (r.value < n && Brackets(Tdata, r.value, T)
      && forall j :: r.value < j < n ==> !Brackets(Tdata, j, T))
    ensures r.None? <==> forall i :: 0 <= i < n ==> !Brackets(Tdata, i, T)
  {
    if n == 0 then None
    else if Brackets(Tdata, n - 1, T) then Some(n - 1)
    else LastBracket(Tdata, T, n - 1)
  }

  /**
   * Whatever the order of the table, a temperature from its first entry up to
   * (not including) entry n is bracketed by some pair before n: the sequence
   * must step from at most T to above T somewhere.
   */
  lemma {:induction false} SomePairBrackets(Tdata: seq<real>, T: real, n: nat)
    requires 0 < n < |Tdata|
    requires Tdata[0] <= T < Tdata[n]
    ensures LastBracket(Tdata, T, n).Some?
  {
    if Brackets(Tdata, n - 1, T) {
    } else if n == 1 {
    } else {
      SomePairBrackets(Tdata, T, n - 1);
    }
  }

  /** In an increasing table at most one pair brackets a temperature. */
  lemma BracketUnique(Tdata: seq<real>, T: real, i: nat, j: nat)
    requires StrictlyIncreasing(Tdata)
    requires i + 1 < |Tdata| && j + 1 < |Tdata|
    requires Brackets(Tdata, i, T) && Brackets(Tdata, j, T)
    ensures i == j
  {
  }

  /** In an increasing table the pair found for a tabulated temperature is the one starting there. */
  lemma BracketAtDataPoint(Tdata: seq<real>, i: nat)
    requires StrictlyIncreasing(Tdata) && i + 1 < |Tdata|
    ensures LastBracket(Tdata, Tdata[i], |Tdata| - 1) == Some(i)
  {
    var last := |Tdata| - 1;
    SomePairBrackets(Tdata, Tdata[i], last);
    BracketUnique(Tdata, Tdata[i], i, LastBracket(Tdata, Tdata[i], last).value);
  }
}
