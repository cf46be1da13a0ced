/**
 * The Python `str` methods the server-side routines rely on, over
 * `seq<char>`: `strip`, whitespace `split()`, `split(sep)`, `join`,
 * `find`/`in`, `replace` and `startswith`. Whitespace is the ASCII set
 * Python recognises (space, tab, newline, carriage return, vertical tab,
 * form feed).
 */
module PyText {
  import opened Common

  predicate IsSpace(c: char)
  {
    c == ' ' || c == '\t' || c == '\n' || c == '\r' || c == '\U{B}' || c == '\U{C}'
  }

  predicate Blank(s: string)
  {
    forall i :: 0 <= i < |s| ==> IsSpace(s[i])
  }

  predicate NoSpace(s: string)
  {
    forall i :: 0 <= i < |s| ==> !IsSpace(s[i])
  }

  /** The number of leading whitespace characters. */
  function SpacePrefix(s: string): (n: nat)
    ensures n <= |s| && Blank(s[..n])
    ensures n < |s| ==> !IsSpace(s[n])
    decreases |s|
  {
    if |s| > 0 && IsSpace(s[0]) then
      var k := SpacePrefix(s[1..]);
      assert s[..k + 1] == [s[0]] + s[1..][..k];
      k + 1
    else 0
  }

  /** The number of leading non-whitespace characters. */
  function WordPrefix(s: string): (n: nat)
    ensures n <= |s| && NoSpace(s[..n])
    ensures n < |s| ==> IsSpace(s[n])
    decreases |s|
  {
    if |s| > 0 && !IsSpace(s[0]) then
      var k := WordPrefix(s[1..]);
      assert s[..k + 1] == [s[0]] + s[1..][..k];
      k + 1
    else 0
  }

  function LStrip(s: string): (r: string)
    ensures |r| <= |s|
  {
    s[SpacePrefix(s)..]
  }

  function RStrip(s: string): (r: string)
    ensures |r| <= |s| && r == s[..|r|]
    ensures Blank(s[|r|..])
    ensures |r| > 0 ==> !IsSpace(r[|r| - 1])
    decreases |s|
  {
    if |s| > 0 && IsSpace(s[|s| - 1]) then
      var r := RStrip(s[..|s| - 1]);
      assert s[..|s| - 1][|r|..] + [s[|s| - 1]] == s[|r|..];
      r
    else s
  }

  /** `s.strip()`. */
  function Strip(s: string): (r: string)
  {
    LStrip(RStrip(s))
  }

  /** A string strips to the empty string exactly when it is all whitespace. */
  lemma StripEmptyIffBlank(s: string)
    ensures Strip(s) == "" <==> Blank(s)
  {
    var r := RStrip(s);
    assert s == r + s[|r|..];
    if Strip(s) == "" {
      assert SpacePrefix(r) == |r|;
      assert r[..|r|] == r;
      assert |r| == 0;
      assert s == s[|r|..];
    }
  }

  /** `s.split()`: the maximal runs of non-whitespace, in order. */
  function Words(s: string): (w: seq<string>)
    ensures forall i :: 0 <= i < |w| ==> |w[i]| > 0 && NoSpace(w[i])
    decreases |s|
  {
    var t := s[SpacePrefix(s)..];
    if |t| == 0 then []
    else
      var n := WordPrefix(t);
      [t[..n]] + Words(t[n..])
  }

  /** Whitespace alone has no words. */
  lemma {:induction false} WordsOfBlank(s: string)
    ensures Words(s) == [] <==> Blank(s)
  {
    var n := SpacePrefix(s);
    if n == |s| {
      assert s[..n] == s;
    } else {
      assert !IsSpace(s[n]);
    }
  }

  /** `sub` occurs in `s` starting at j. */
  predicate OccursAt(s: string, sub: string, j: int)
  {
    0 <= j && j + |sub| <= |s| && s[j..j + |sub|] == sub
  }

  /** `s.find(sub)`: the first occurrence, or None for -1. */
  function Find(s: string, sub: string): (r: Option<nat>)
    ensures r.Some? ==> OccursAt(s, sub, r.value)
    ensures r.Some? ==> forall j :: 0 <= j < r.value ==> !OccursAt(s, sub, j)
    ensures r.None? ==> forall j :: !OccursAt(s, sub, j)
    decreases |s|
  {
    if |s| < |sub| then None
    else if s[..|sub|] == sub then Some(0)
    else
      var rest := Find(s[1..], sub);
      forall j | 0 < j
        ensures OccursAt(s, sub, j) == OccursAt(s[1..], sub, j - 1)
      {
        OccursShift(s, sub, j);
      }
      if rest.None? then None else Some(rest.value + 1)
  }

  lemma OccursShift(s: string, sub: string, j: int)
    requires |s| > 0 && 0 < j
    ensures OccursAt(s, sub, j) == OccursAt(s[1..], sub, j - 1)
  {
    if j + |sub| <= |s| {
      assert s[1..][j - 1..j - 1 + |sub|] == s[j..j + |sub|];
    }
  }

  /** `sub in s`. */
  predicate Contains(s: string, sub: string)
  {
    Find(s, sub).Some?
  }

  /** String concatenation regrouped to the right. */
  lemma Associative(a: string, b: string, c: string)
    ensures a + b + c == a + (b + c)
  {
  }

  /** `s.startswith(prefix)`. */
  predicate StartsWith(s: string, prefix: string)
  {
    |prefix| <= |s| && s[..|prefix|] == prefix
  }

  /** A string starts with every prefix of its prefix. */
  lemma ExtendPrefix(a: string, b: string, p: string)
    requires StartsWith(a, p)
    ensures StartsWith(a + b, p)
  {
    assert (a + b)[..|p|] == a[..|p|];
  }

  /** Putting the same text in front keeps a prefix a prefix. */
  lemma PrependPrefix(a: string, h: string, p: string)
    requires StartsWith(h, p)
    ensures StartsWith(a + h, a + p)
  {
    assert (a + h)[..|a + p|] == a + h[..|p|];
  }

  /** `s.endswith(suffix)`. */
  predicate EndsWith(s: string, suffix: string)
  {
    |suffix| <= |s| && s[|s| - |suffix|..] == suffix
  }

  /** Whatever comes in front of a string, it still ends with the string. */
  lemma EndsWithItself(a: string, s: string)
    ensures EndsWith(a + s, s)
  {
    assert (a + s)[|a + s| - |s|..] == s;
  }

  /** Prepending keeps a suffix. */
  lemma PrependSuffix(a: string, b: string, suffix: string)
    requires EndsWith(b, suffix)
    ensures EndsWith(a + b, suffix)
  {
    assert (a + b)[|a + b| - |suffix|..] == b[|b| - |suffix|..];
  }

  /** `s.split(sep)` for a nonempty separator: the pieces between the non-overlapping occurrences. */
  function Split(s: string, sep: string): (r: seq<string>)
    requires |sep| > 0
    ensures |r| >= 1
    ensures forall i :: 0 <= i < |r| ==> !Contains(r[i], sep)
    decreases |s|
  {
    match Find(s, sep)
    case None => [s]
    case Some(i) =>
      var head := s[..i];
      assert forall j :: OccursAt(head, sep, j) ==> OccursAt(s, sep, j) by {
        forall j | OccursAt(head, sep, j)
          ensures OccursAt(s, sep, j)
        {
          assert head[j..j + |sep|] == s[j..j + |sep|];
        }
      }
      [head] + Split(s[i + |sep|..], sep)
  }

  /** `sep.join(parts)`. */
  function Join(sep: string, parts: seq<string>): string
  {
    if |parts| == 0 then ""
    else if |parts| == 1 then parts[0]
    else parts[0] + sep + Join(sep, parts[1..])
  }

  /** Joining the pieces of a split with the same separator gives the string back. */
  lemma {:induction false} JoinSplit(s: string, sep: string)
    requires |sep| > 0
    ensures Join(sep, Split(s, sep)) == s
    decreases |s|
  {
    match Find(s, sep)
    case None =>
    case Some(i) =>
      var tail := s[i + |sep|..];
      var rest := Split(tail, sep);
      assert Split(s, sep) == [s[..i]] + rest;
      assert ([s[..i]] + rest)[1..] == rest;
      JoinSplit(tail, sep);
      assert s == s[..i] + sep + tail;
  }

  /** `s.replace(pattern, replacement)`: every non-overlapping occurrence, scanning from the left. */
  function Replace(s: string, pattern: string, replacement: string): string
    requires |pattern| > 0
    decreases |s|
  {
    if StartsWith(s, pattern) then replacement + Replace(s[|pattern|..], pattern, replacement)
    else if |s| == 0 then ""
    else [s[0]] + Replace(s[1..], pattern, replacement)
  }

  /** Replacing a substring that does not occur changes nothing. */
  lemma {:induction false} ReplaceAbsent(s: string, pattern: string, replacement: string)
    requires |pattern| > 0 && !Contains(s, pattern)
    ensures Replace(s, pattern, replacement) == s
    decreases |s|
  {
    assert !OccursAt(s, pattern, 0);
    if |s| > 0 {
      ReplaceAbsent(s[1..], pattern, replacement);
    }
  }

  /** A one-character pattern occurs exactly where that character does. */
  lemma ContainsChar(s: string, c: char)
    ensures Contains(s, [c]) <==> c in s
  {
    if c in s {
      var i :| 0 <= i < |s| && s[i] == c;
      assert s[i..i + 1] == [c];
      assert OccursAt(s, [c], i);
    }
    var r := Find(s, [c]);
    if r.Some? {
      assert s[r.value..r.value + 1][0] == s[r.value];
    }
  }

  /** One step of replacing a single character: the first character is replaced or kept. */
  lemma ReplaceCharStep(s: string, c: char, replacement: string)
    requires |s| > 0
    ensures Replace(s, [c], replacement) == (if s[0] == c then replacement else [s[0]]) + Replace(s[1..], [c], replacement)
  {
    if s[0] == c {
      assert StartsWith(s, [c]);
    } else {
      assert !StartsWith(s, [c]) by {
        assert s[..1][0] == s[0];
      }
    }
  }

  /** A character absent from the replacement is absent from the result when it is the replaced one or absent from the input. */
  lemma {:induction false} ReplaceCharFree(s: string, c: char, replacement: string, x: char)
    requires x !in replacement && (x == c || x !in s)
    ensures x !in Replace(s, [c], replacement)
    decreases |s|
  {
    if |s| > 0 {
      ReplaceCharStep(s, c, replacement);
      ReplaceCharFree(s[1..], c, replacement, x);
    }
  }

  /** A character in neither the separator nor any part is not in the joined string. */
  lemma {:induction false} JoinFree(sep: string, parts: seq<string>, x: char)
    requires x !in sep && forall k :: 0 <= k < |parts| ==> x !in parts[k]
    ensures x !in Join(sep, parts)
    decreases |parts|
  {
    if |parts| > 1 {
      JoinFree(sep, parts[1..], x);
    }
  }

  /** The index of the last occurrence of `c` in `s`, or -1: `str.rfind`. */
  function RFind(s: string, c: char): (r: int)
    ensures -1 <= r < |s|
    ensures r >= 0 ==> s[r] == c
    ensures forall j :: r < j < |s| ==> s[j] != c
  {
    if |s| == 0 then -1
    else if s[|s| - 1] == c then |s| - 1
    else RFind(s[..|s| - 1], c)
  }

  /**
   * `os.path.splitext(path)[1]`: from the last '.' of the file name, unless
   * every character of the name before that dot is a dot as well.
   */
  function Extension(path: string): (ext: string)
    ensures ext != "" ==> EndsWith(path, ext) && ext[0] == '.'
    ensures ext != "" ==> '/' !in ext
  {
    var sep := RFind(path, '/');
    var dot := RFind(path, '.');
    if dot > sep && exists k :: sep < k < dot && path[k] != '.' then
      assert forall j :: 0 <= j < |path[dot..]| ==> path[dot..][j] == path[dot + j];
      path[dot..]
    else ""
  }

  /** A file name made of dots before its one dot, such as `.py`, has no extension. */
  lemma HiddenFileHasNoExtension(dir: string)
    requires '.' !in dir
    ensures Extension(dir + "/.py") == ""
    ensures Extension(dir + "/a.py") == ".py"
  {
    var p := dir + "/.py";
    assert p[|dir| + 1] == '.' && p[|dir|] == '/';
    assert RFind(p, '.') == |dir| + 1 by {
      assert p == (p[..|p| - 1])[..|p| - 2] + "py";
      assert p[..|p| - 1][..|p| - 2][..|p| - 3] + [p[|p| - 3]] == p[..|p| - 2];
    }
    var q := dir + "/a.py";
    assert q[|dir| + 2] == '.' && q[|dir| + 1] == 'a' && q[|dir|] == '/';
    assert RFind(q, '.') == |dir| + 2 by {
      assert q[..|q| - 1][..|q| - 2][|q| - 3] == '.';
    }
    assert RFind(q, '/') == |dir| by {
      assert q[..|q| - 1][..|q| - 2][..|q| - 3][|dir|] == '/';
    }
    assert RFind(p, '/') == |dir| by {
      assert p[..|p| - 1][..|p| - 2][..|p| - 3][|dir|] == '/';
    }
    assert q[|dir| + 2..] == ".py";
  }

  /** Splitting on a character cuts at its first occurrence. */
  lemma SplitAtFirst(a: string, c: char, b: string)
    requires c !in a
    ensures Split(a + [c] + b, [c]) == [a] + Split(b, [c])
  {
    var s := a + [c] + b;
    assert s[|a|..|a| + 1] == [c];
    forall j | 0 <= j < |a|
      ensures !OccursAt(s, [c], j)
    {
      assert s[j..j + 1][0] == a[j];
    }
    assert OccursAt(s, [c], |a|);
    var r := Find(s, [c]);
    assert r.Some?;
    assert r.value >= |a|;
    assert !(r.value > |a|);
    assert s[..|a|] == a && s[|a| + 1..] == b;
  }

  /** Text without whitespace strips to itself. */
  lemma StripNoSpace(s: string)
    requires NoSpace(s)
    ensures Strip(s) == s
  {
    assert RStrip(s) == s;
  }

  /** Replacing a single character distributes over concatenation. */
  lemma {:induction false} ReplaceCharConcat(a: string, b: string, c: char, replacement: string)
    ensures Replace(a + b, [c], replacement) == Replace(a, [c], replacement) + Replace(b, [c], replacement)
    decreases |a|
  {
    if |a| > 0 {
      ReplaceCharStep(a, c, replacement);
      ReplaceCharStep(a + b, c, replacement);
      assert (a + b)[0] == a[0];
      assert (a + b)[1..] == a[1..] + b;
      ReplaceCharConcat(a[1..], b, c, replacement);
    } else {
      assert a + b == b;
    }
  }

  /** Removing a character that does not occur changes nothing. */
  lemma ReplaceMissingChar(s: string, c: char, replacement: string)
    requires c !in s
    ensures Replace(s, [c], replacement) == s
  {
    ContainsChar(s, c);
    ReplaceAbsent(s, [c], replacement);
  }

  /** Splitting on a character that does not occur gives the whole string. */
  lemma SplitMissingChar(s: string, c: char)
    requires c !in s
    ensures Split(s, [c]) == [s]
  {
    ContainsChar(s, c);
  }

  /** No two adjacent copies of `c`. */
  predicate NoPair(s: string, c: char)
  {
    forall j :: 0 <= j < |s| - 1 ==> !(s[j] == c && s[j + 1] == c)
  }

  /** A doubled character is found only where two copies are adjacent. */
  lemma ContainsPair(s: string, c: char)
    ensures Contains(s, [c, c]) ==> exists j :: 0 <= j < |s| - 1 && s[j] == c && s[j + 1] == c
  {
    var r := Find(s, [c, c]);
    if r.Some? {
      var j := r.value;
      assert s[j..j + 2][0] == s[j] && s[j..j + 2][1] == s[j + 1];
    }
  }

  lemma NoPairJoin(a: string, b: string, c: char)
    requires NoPair(a, c) && NoPair(b, c)
    requires |a| == 0 || |b| == 0 || a[|a| - 1] != c || b[0] != c
    ensures NoPair(a + b, c)
  {
    var s := a + b;
    forall j | 0 <= j < |s| - 1
      ensures !(s[j] == c && s[j + 1] == c)
    {
      if j + 1 < |a| {
        assert s[j] == a[j] && s[j + 1] == a[j + 1];
      } else if j + 1 == |a| {
        assert s[j] == a[|a| - 1] && s[j + 1] == b[0];
      } else {
        assert s[j] == b[j - |a|] && s[j + 1] == b[j + 1 - |a|];
      }
    }
  }

  /**
   * Replacing every doubled `c` by text free of `c` leaves no doubled `c`;
   * the result starts like the input when the input does not start with `c`.
   */
  lemma {:induction false} ReplacePairFree(s: string, c: char, replacement: string)
    requires c !in replacement && |replacement| > 0
    ensures NoPair(Replace(s, [c, c], replacement), c)
    ensures |s| > 0 && s[0] != c ==> |Replace(s, [c, c], replacement)| > 0 && Replace(s, [c, c], replacement)[0] == s[0]
    decreases |s|
  {
    var out := Replace(s, [c, c], replacement);
    if StartsWith(s, [c, c]) {
      var rest := Replace(s[2..], [c, c], replacement);
      ReplacePairFree(s[2..], c, replacement);
      assert out == replacement + rest;
      NoPairJoin(replacement, rest, c);
    } else if |s| > 0 {
      var rest := Replace(s[1..], [c, c], replacement);
      ReplacePairFree(s[1..], c, replacement);
      assert out == [s[0]] + rest;
      if s[0] == c && |s| > 1 {
        assert s[..2] != [c, c];
        assert s[1] != c;
        assert s[1..][0] == s[1];
      }
      NoPairJoin([s[0]], rest, c);
    }
  }

  /** `str.lower()` on one character: the ASCII capitals become small letters. */
  function LowerChar(c: char): char
  {
    if 'A' <= c <= 'Z' then (c as int + 32) as char else c
  }

  /** `str.lower()`. */
  function Lower(s: string): string
  {
    seq(|s|, i requires 0 <= i < |s| => LowerChar(s[i]))
  }

  /** Text without ASCII capitals. */
  predicate LowerCase(s: string)
  {
    forall i :: 0 <= i < |s| ==> !('A' <= s[i] <= 'Z')
  }

  /** Lower-casing changes nothing in text without capitals. */
  lemma LowerOfLowerCase(s: string)
    requires LowerCase(s)
    ensures Lower(s) == s
  {
  }

  /** Lower-casing leaves no capital, so doing it twice changes nothing more. */
  lemma LowerIsLowerCase(s: string)
    ensures LowerCase(Lower(s)) && Lower(Lower(s)) == Lower(s)
  {
    LowerOfLowerCase(Lower(s));
  }
}
