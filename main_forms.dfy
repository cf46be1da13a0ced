/**
 * The sign-up validation of the user forms and the error-list renderer.
 * A username must be a single token of the regular expression
 * `[a-zA-Z][a-zA-Z0-9_]*`; the names already registered are a parameter
 * standing for the user table.
 */
module MainForms {
  import opened Common
  import PyText

  predicate IsLetter(c: char)
  {
    'a' <= c <= 'z' || 'A' <= c <= 'Z'
  }

  predicate IsWordChar(c: char)
  {
    IsLetter(c) || '0' <= c <= '9' || c == '_'
  }

  /** A string the regular expression matches as a whole. */
  predicate ValidUsername(s: string)
  {
    |s| > 0 && IsLetter(s[0]) && forall i :: 1 <= i < |s| ==> IsWordChar(s[i])
  }

  /** The length of the longest prefix made of word characters. */
  function WordRun(s: string): (n: nat)
    ensures n <= |s|
    ensures forall i :: 0 <= i < n ==> IsWordChar(s[i])
    ensures n < |s| ==> !IsWordChar(s[n])
  {
    if |s| > 0 && IsWordChar(s[0]) then 1 + WordRun(s[1..]) else 0
  }

  /** `re.findall('[a-zA-Z][a-zA-Z0-9_]*', s)`: scanning left to right, each match is as long as possible. */
  function Tokens(s: string): (r: seq<string>)
    ensures forall k :: 0 <= k < |r| ==> ValidUsername(r[k]) && |r[k]| <= |s|
    decreases |s|
  {
    if |s| == 0 then []
    else if IsLetter(s[0]) then
      var n := 1 + WordRun(s[1..]);
      assert forall i :: 1 <= i < n ==> s[..n][i] == s[1..][i - 1];
      [s[..n]] + Tokens(s[n..])
    else Tokens(s[1..])
  }

  /** The whole string is the only match exactly when it is a valid username. */
  lemma TokensSingleIffValid(s: string)
    ensures Tokens(s) == [s] <==> ValidUsername(s)
  {
    if ValidUsername(s) {
      assert forall i :: 0 <= i < |s| - 1 ==> IsWordChar(s[1..][i]) by {
        forall i | 0 <= i < |s| - 1
          ensures IsWordChar(s[1..][i])
        {
          assert s[1..][i] == s[i + 1];
        }
      }
      var n := 1 + WordRun(s[1..]);
      assert n == |s|;
      assert s[..n] == s && s[n..] == "";
    } else {
      var t := Tokens(s);
      if |t| == 1 {
        assert ValidUsername(t[0]);
      }
    }
  }

  datatype SignupError = InvalidCharacters | UsernameInUse

  /** `clean_username`: the character check comes first, then the check against the registered names. */
  function CleanUsername(username: string, registered: set<string>): (r: Result<string, SignupError>)
    ensures r.Ok? <==> ValidUsername(username) && username !in registered
    ensures r.Ok? ==> r.value == username
    ensures !ValidUsername(username) ==> r == Err(InvalidCharacters)
  {
    TokensSingleIffValid(username);
    var tokens := Tokens(username);
    if |tokens| != 1 || tokens[0] != username then Err(InvalidCharacters)
    else if username in registered then Err(UsernameInUse)
    else Ok(username)
  }

  /** `'<div class="error">e</div>'`. */
  function ErrorDiv(e: string): string
  {
    "<div class=\"error\">" + e + "</div>"
  }

  /** The total length of the error texts. */
  function TotalLength(errors: seq<string>): nat
  {
    if |errors| == 0 then 0 else |errors[0]| + TotalLength(errors[1..])
  }

  /**
   * The error divs concatenated in order: each error adds its own text and
   * the 25 characters of its `<div class="error">` and `</div>` tags.
   */
  function ErrorDivs(errors: seq<string>): (r: string)
    ensures |r| == 25 * |errors| + TotalLength(errors)
  {
    if |errors| == 0 then "" else ErrorDiv(errors[0]) + ErrorDivs(errors[1..])
  }

  /** `DivErrorList.as_divs` of the user forms: no outer wrapper. */
  function AsDivs(errors: seq<string>): (r: string)
    ensures r == "" <==> errors == []
  {
    if |errors| == 0 then "" else ErrorDivs(errors)
  }

  /** A nonempty list of errors renders as the first error's div followed by the rest. */
  lemma ErrorDivsStartWithFirst(errors: seq<string>)
    requires |errors| > 0
    ensures var r := ErrorDivs(errors);
      |r| >= 25 + |errors[0]| && r[..25 + |errors[0]|] == "<div class=\"error\">" + errors[0] + "</div>"
  {
    var r := ErrorDivs(errors);
    assert r == ErrorDiv(errors[0]) + ErrorDivs(errors[1..]);
  }

  /** Rendering a list of errors is rendering its parts one after the other. */
  lemma {:induction false} ErrorDivsAppend(a: seq<string>, b: seq<string>)
    ensures ErrorDivs(a + b) == ErrorDivs(a) + ErrorDivs(b)
    decreases |a|
  {
    if |a| > 0 {
      assert (a + b)[0] == a[0];
      assert (a + b)[1..] == a[1..] + b;
      ErrorDivsAppend(a[1..], b);
    } else {
      assert a + b == b;
    }
  }

  /** Each error appears in its own div, in order: the k-th div starts where the ones before it end. */
  lemma ErrorDivsPosition(errors: seq<string>, k: nat)
    requires k < |errors|
    ensures ErrorDivs(errors) == ErrorDivs(errors[..k]) + ErrorDiv(errors[k]) + ErrorDivs(errors[k + 1..])
  {
    var before, from, after := errors[..k], errors[k..], errors[k + 1..];
    assert errors == before + from;
    ErrorDivsAppend(before, from);
    assert from[0] == errors[k] && from[1..] == after;
    var d, rest := ErrorDiv(errors[k]), ErrorDivs(after);
    assert ErrorDivs(from) == d + rest;
    PyText.Associative(ErrorDivs(before), d, rest);
  }
}
