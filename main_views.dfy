/**
 * The pure logic of the site's main views: the presentation list of the
 * resources page (listing filter, sort and file-name parsing), the two
 * classifiers that turn a molecule-construction error into an HTTP status,
 * and the order in which `getAdjacencyList` tries to read an identifier.
 * The directory listing, `os.path.isfile`, the regular-expression number
 * extraction, RMG-Py's supported-element list and every molecule parser
 * are parameters.
 */
module MainViews {
  import opened Common
  import PyText

  // ---------------------------------------------------------------------
  // Resources page
  // ---------------------------------------------------------------------

  /** One row of the presentation table: title, date and the file it links to. */
  datatype Presentation = Presentation(title: string, date: string, file: string)

  predicate Distinct(s: seq<string>)
  {
    forall i, j :: 0 <= i < j < |s| ==> s[i] != s[j]
  }

  /** A listed name is shown when it is a regular file and does not start with '.'. */
  predicate Kept(name: string, isFile: string -> bool)
  {
    isFile(name) && !(|name| > 0 && name[0] == '.')
  }

  /** The names the first pass puts on the removal list, in listing order. */
  function Rejected(s: seq<string>, isFile: string -> bool): (r: seq<string>)
    ensures forall x :: x in r <==> x in s && !Kept(x, isFile)
  {
    if |s| == 0 then []
    else Rejected(s[..|s| - 1], isFile) + (if Kept(s[|s| - 1], isFile) then [] else [s[|s| - 1]])
  }

  /** The names of `s` that are not in `r`, in order. */
  function Without(s: seq<string>, r: seq<string>): (w: seq<string>)
    ensures forall x :: x in w <==> x in s && x !in r
  {
    if |s| == 0 then []
    else (if s[0] in r then [] else [s[0]]) + Without(s[1..], r)
  }

  /** `list.remove(x)`: drops the first occurrence of `x`. */
  function RemoveFirst(s: seq<string>, x: string): (r: seq<string>)
    requires x in s
    ensures |r| == |s| - 1
  {
    if s[0] == x then s[1..] else [s[0]] + RemoveFirst(s[1..], x)
  }

  /** The shown names of a listing, in listing order: the specification of the two removal passes. */
  function Visible(s: seq<string>, isFile: string -> bool): (v: seq<string>)
    ensures forall x :: x in v <==> x in s && Kept(x, isFile)
  {
    if |s| == 0 then []
    else (if Kept(s[0], isFile) then [s[0]] else []) + Visible(s[1..], isFile)
  }

  /** Removing a name nobody lists again does not change what the other removals leave. */
  lemma {:induction false} WithoutUnlisted(s: seq<string>, r: seq<string>, x: string)
    requires x !in s
    ensures Without(s, r + [x]) == Without(s, r)
    decreases |s|
  {
    if |s| > 0 {
      WithoutUnlisted(s[1..], r, x);
    }
  }

  lemma {:induction false} WithoutNothing(s: seq<string>)
    ensures Without(s, []) == s
    decreases |s|
  {
    if |s| > 0 {
      WithoutNothing(s[1..]);
    }
  }

  /** In a listing without repeats, `list.remove` of one more name is filtering it out. */
  lemma {:induction false} RemoveFirstWithout(s: seq<string>, r: seq<string>, x: string)
    requires Distinct(s) && x in s && x !in r
    ensures x in Without(s, r)
    ensures RemoveFirst(Without(s, r), x) == Without(s, r + [x])
    decreases |s|
  {
    assert Distinct(s[1..]) by {
      forall i, j | 0 <= i < j < |s| - 1
        ensures s[1..][i] != s[1..][j]
      {
        assert s[1..][i] == s[i + 1] && s[1..][j] == s[j + 1];
      }
    }
    if s[0] == x {
      assert x !in s[1..] by {
        forall j | 0 <= j < |s| - 1
          ensures s[1..][j] != x
        {
          assert s[1..][j] == s[j + 1];
        }
      }
      WithoutUnlisted(s[1..], r, x);
    } else {
      RemoveFirstWithout(s[1..], r, x);
      assert s[0] in r + [x] <==> s[0] in r;
      var w := Without(s[1..], r);
      if s[0] !in r {
        assert Without(s, r) == [s[0]] + w;
        assert ([s[0]] + w)[1..] == w;
      } else {
        assert Without(s, r) == w;
      }
    }
  }

  /** Filtering out the rejected names of the same listing leaves exactly the visible ones. */
  lemma {:induction false} WithoutRejected(s: seq<string>, t: seq<string>, isFile: string -> bool)
    requires forall x :: x in s ==> x in t
    ensures Without(s, Rejected(t, isFile)) == Visible(s, isFile)
    decreases |s|
  {
    if |s| > 0 {
      WithoutRejected(s[1..], t, isFile);
    }
  }

  /** The removal list of a listing without repeats has no repeats either. */
  lemma {:induction false} RejectedDistinct(s: seq<string>, isFile: string -> bool)
    requires Distinct(s)
    ensures Distinct(Rejected(s, isFile))
    decreases |s|
  {
    if |s| > 0 {
      var init := s[..|s| - 1];
      assert Distinct(init);
      RejectedDistinct(init, isFile);
      assert s[|s| - 1] !in init;
    }
  }

  /** Python's `<` on `str`: lexicographic by code point. */
  predicate LexLe(a: string, b: string)
    decreases |a|
  {
    |a| == 0 || (|b| > 0 && (a[0] < b[0] || (a[0] == b[0] && LexLe(a[1..], b[1..]))))
  }

  lemma {:induction false} LexLeTotal(a: string, b: string)
    ensures LexLe(a, b) || LexLe(b, a)
    decreases |a|
  {
    if |a| > 0 && |b| > 0 && a[0] == b[0] {
      LexLeTotal(a[1..], b[1..]);
    }
  }

  lemma {:induction false} LexLeTrans(a: string, b: string, c: string)
    requires LexLe(a, b) && LexLe(b, c)
    ensures LexLe(a, c)
    decreases |a|
  {
    if |a| > 0 && a[0] == b[0] && b[0] == c[0] {
      LexLeTrans(a[1..], b[1..], c[1..]);
    }
  }

  predicate SortedNames(s: seq<string>)
  {
    forall i, j :: 0 <= i < j < |s| ==> LexLe(s[i], s[j])
  }

  /** Inserts `x` in front of the first entry it does not exceed. */
  function Insert(x: string, s: seq<string>): seq<string>
  {
    if |s| == 0 then [x]
    else if LexLe(x, s[0]) then [x] + s
    else [s[0]] + Insert(x, s[1..])
  }

  lemma {:induction false} InsertMultiset(x: string, s: seq<string>)
    ensures multiset(Insert(x, s)) == multiset(s) + multiset{x}
  {
    if |s| > 0 && !LexLe(x, s[0]) {
      InsertMultiset(x, s[1..]);
      assert s == [s[0]] + s[1..];
    }
  }

  /** A name below every entry of a sorted list may go in front of it. */
  lemma SortedCons(y: string, t: seq<string>)
    requires SortedNames(t)
    requires forall j :: 0 <= j < |t| ==> LexLe(y, t[j])
    ensures SortedNames([y] + t)
  {
    var r := [y] + t;
    forall i, j | 0 <= i < j < |r|
      ensures LexLe(r[i], r[j])
    {
      assert r[j] == t[j - 1];
      if i > 0 {
        assert r[i] == t[i - 1];
      }
    }
  }

  lemma {:induction false} InsertSorted(x: string, s: seq<string>)
    requires SortedNames(s)
    ensures SortedNames(Insert(x, s))
  {
    if |s| == 0 {
    } else if LexLe(x, s[0]) {
      forall j | 0 <= j < |s|
        ensures LexLe(x, s[j])
      {
        if j > 0 {
          LexLeTrans(x, s[0], s[j]);
        }
      }
      SortedCons(x, s);
    } else {
      LexLeTotal(x, s[0]);
      var tail := s[1..];
      assert SortedNames(tail) by {
        forall i, j | 0 <= i < j < |tail|
          ensures LexLe(tail[i], tail[j])
        {
          assert tail[i] == s[i + 1] && tail[j] == s[j + 1];
        }
      }
      InsertSorted(x, tail);
      InsertMultiset(x, tail);
      var rest := Insert(x, tail);
      forall j | 0 <= j < |rest|
        ensures LexLe(s[0], rest[j])
      {
        assert rest[j] in multiset(rest);
        if rest[j] != x {
          assert rest[j] in multiset(tail);
          var k :| 0 <= k < |tail| && tail[k] == rest[j];
          assert s[k + 1] == rest[j];
        }
      }
      SortedCons(s[0], rest);
    }
  }

  /** `files.sort()`: the same names in ascending order. */
  function SortNames(s: seq<string>): (r: seq<string>)
    ensures SortedNames(r)
    ensures multiset(r) == multiset(s)
  {
    if |s| == 0 then []
    else
      assert s == [s[0]] + s[1..];
      InsertSorted(s[0], SortNames(s[1..]));
      InsertMultiset(s[0], SortNames(s[1..]));
      Insert(s[0], SortNames(s[1..]))
  }

  /** `os.path.splitext(f)[0]`. */
  function Root(f: string): (r: string)
    ensures r + PyText.Extension(f) == f
  {
    f[..|f| - |PyText.Extension(f)|]
  }

  /** A Python slice `s[i:j]` with non-negative bounds, clamped to the string. */
  function Slice(s: string, i: nat, j: nat): (r: string)
    requires i <= j
    ensures |r| <= j - i
  {
    var lo := if i < |s| then i else |s|;
    var hi := if j < |s| then j else |s|;
    s[lo..hi]
  }

  /** The date column: the first name part cut as `d[0:4] + '-' + d[4:6] + '-' + d[6:]`. */
  function DateOf(d: string): string
  {
    Slice(d, 0, 4) + "-" + Slice(d, 4, 6) + "-" + Slice(d, 6, if |d| > 6 then |d| else 6)
  }

  /** The title column: the remaining name parts joined by spaces, with '+' read as "and". */
  function TitleOf(parts: seq<string>): string
    requires |parts| >= 1
  {
    PyText.Replace(PyText.Join(" ", parts[1..]), "+", " and ")
  }

  /** One row of the table, from a file name. */
  function Parse(f: string): Presentation
  {
    var parts := PyText.Split(Root(f), "_");
    Presentation(TitleOf(parts), DateOf(parts[0]), f)
  }

  function ParseAll(files: seq<string>): (ps: seq<Presentation>)
    ensures |ps| == |files|
  {
    if |files| == 0 then [] else ParseAll(files[..|files| - 1]) + [Parse(files[|files| - 1])]
  }

  /** Row k is parsed from file k. */
  lemma {:induction false} ParseAllEntry(files: seq<string>, k: nat)
    requires k < |files|
    ensures ParseAll(files)[k] == Parse(files[k])
  {
    if k < |files| - 1 {
      ParseAllEntry(files[..|files| - 1], k);
    }
  }

  /** The loop of `resources` that turns each sorted name into a row. */
  method ParseRows(files: seq<string>) returns (presentations: seq<Presentation>)
    ensures presentations == ParseAll(files)
  {
    presentations := [];
    for k := 0 to |files|
      invariant presentations == ParseAll(files[..k])
    {
      assert files[..k + 1][..k] == files[..k];
      presentations := presentations + [Parse(files[k])];
    }
    assert files[..|files|] == files;
  }

  /** The page's presentation list for a listing of the presentations folder. */
  function Presentations(listing: seq<string>, isFile: string -> bool): seq<Presentation>
  {
    ParseAll(SortNames(Visible(listing, isFile)))
  }

  /** The first removal pass of `resources`: the names that are not regular files or start with '.'. */
  method CollectRejected(files: seq<string>, isFile: string -> bool) returns (toRemove: seq<string>)
    requires forall k :: 0 <= k < |files| ==> |files[k]| > 0
    ensures toRemove == Rejected(files, isFile)
  {
    toRemove := [];
    for k := 0 to |files|
      invariant toRemove == Rejected(files[..k], isFile)
    {
      assert files[..k + 1][..k] == files[..k];
      var f := files[k];
      if !isFile(f) {
        toRemove := toRemove + [f];
      } else if f[0] == '.' {
        toRemove := toRemove + [f];
      }
    }
    assert files[..|files|] == files;
  }

  /** One iteration of the second removal pass. */
  lemma RemoveStep(listing: seq<string>, toRemove: seq<string>, k: nat)
    requires Distinct(listing) && Distinct(toRemove) && k < |toRemove| && toRemove[k] in listing
    ensures toRemove[k] in Without(listing, toRemove[..k])
    ensures RemoveFirst(Without(listing, toRemove[..k]), toRemove[k]) == Without(listing, toRemove[..k + 1])
  {
    assert toRemove[k] !in toRemove[..k];
    RemoveFirstWithout(listing, toRemove[..k], toRemove[k]);
    assert toRemove[..k + 1] == toRemove[..k] + [toRemove[k]];
  }

  /** The second removal pass of `resources`: `list.remove` each collected name in turn. */
  method DropHidden(listing: seq<string>, isFile: string -> bool) returns (files: seq<string>)
    requires Distinct(listing)
    requires forall k :: 0 <= k < |listing| ==> |listing[k]| > 0
    ensures files == Visible(listing, isFile)
  {
    var toRemove := CollectRejected(listing, isFile);
    files := listing;
    RejectedDistinct(listing, isFile);
    WithoutNothing(listing);
    for k := 0 to |toRemove|
      invariant files == Without(listing, toRemove[..k])
    {
      RemoveStep(listing, toRemove, k);
      files := RemoveFirst(files, toRemove[k]);
    }
    assert toRemove[..|toRemove|] == toRemove;
    WithoutRejected(listing, listing, isFile);
  }

  /**
   * `resources`: drop the hidden names and non-files of the listing, sort
   * what is left, and parse each name into a row.
   */
  method Resources(folderExists: bool, listing: seq<string>, isFile: string -> bool)
    returns (presentations: seq<Presentation>)
    requires Distinct(listing)
    requires forall k :: 0 <= k < |listing| ==> |listing[k]| > 0
    ensures presentations == if folderExists then Presentations(listing, isFile) else []
  {
    var files: seq<string> := [];
    if folderExists {
      files := DropHidden(listing, isFile);
    }
    presentations := [];
    if |files| > 0 {
      files := SortNames(files);
      presentations := ParseRows(files);
    }
  }

  /** Every row links a listed regular, non-hidden file, and the rows are in ascending file-name order. */
  lemma PresentationsShownSorted(listing: seq<string>, isFile: string -> bool, i: nat, j: nat)
    requires i < j < |Presentations(listing, isFile)|
    ensures var ps := Presentations(listing, isFile);
      ps[i].file in listing && Kept(ps[i].file, isFile) && LexLe(ps[i].file, ps[j].file)
  {
    var sorted := SortNames(Visible(listing, isFile));
    ParseAllEntry(sorted, i);
    ParseAllEntry(sorted, j);
    assert sorted[i] in multiset(Visible(listing, isFile));
  }

  /** Every shown file gets a row. */
  lemma EveryShownFileListed(listing: seq<string>, isFile: string -> bool, f: string)
    requires f in listing && Kept(f, isFile)
    ensures exists k :: 0 <= k < |Presentations(listing, isFile)| && Presentations(listing, isFile)[k].file == f
  {
    var sorted := SortNames(Visible(listing, isFile));
    assert f in multiset(sorted);
    var k :| 0 <= k < |sorted| && sorted[k] == f;
    ParseAllEntry(sorted, k);
    assert Presentations(listing, isFile)[k].file == f;
  }

  /** For a first part of at least six characters the date is the part with '-' after its fourth and sixth characters. */
  lemma DateKeepsDigits(d: string)
    requires |d| >= 6
    ensures var r := DateOf(d);
      |r| == |d| + 2 && r[4] == '-' && r[7] == '-' && r[..4] + r[5..7] + r[8..] == d
  {
    var r := DateOf(d);
    assert r == d[..4] + "-" + d[4..6] + "-" + d[6..];
    assert r[..4] == d[..4] && r[5..7] == d[4..6] && r[8..] == d[6..];
    assert d == d[..4] + d[4..6] + d[6..];
  }

  /** A title never holds '_' (the part separator) or '+' (read as "and"). */
  lemma TitleFree(f: string)
    ensures '_' !in Parse(f).title && '+' !in Parse(f).title
  {
    var parts := PyText.Split(Root(f), "_");
    var rest := parts[1..];
    forall k | 0 <= k < |rest|
      ensures '_' !in rest[k]
    {
      PyText.ContainsChar(rest[k], '_');
      assert rest[k] == parts[k + 1];
    }
    PyText.JoinFree(" ", rest, '_');
    PyText.ReplaceCharFree(PyText.Join(" ", rest), '+', " and ", '_');
    PyText.ReplaceCharFree(PyText.Join(" ", rest), '+', " and ", '+');
  }

  /**
   * The file-name convention: a root 'date_words' whose date part and words
   * hold no '_' gives that date cut by `DateOf` and the words with each '+'
   * read as "and".
   */
  lemma NameConvention(f: string, d: string, t: string)
    requires Root(f) == d + "_" + t && '_' !in d && '_' !in t
    ensures Parse(f).date == DateOf(d)
    ensures Parse(f).title == PyText.Replace(t, "+", " and ")
  {
    assert d + "_" + t == d + ['_'] + t;
    PyText.SplitAtFirst(d, '_', t);
    PyText.SplitMissingChar(t, '_');
    var parts := PyText.Split(Root(f), "_");
    assert parts == [d, t];
    assert parts[1..] == [t];
    assert PyText.Join(" ", [t]) == t;
  }

  /** Without a '+', the title is the parts after the date joined by single spaces. */
  lemma TitleWithoutPlus(parts: seq<string>)
    requires |parts| >= 1
    requires '+' !in PyText.Join(" ", parts[1..])
    ensures TitleOf(parts) == PyText.Join(" ", parts[1..])
  {
    PyText.ContainsChar(PyText.Join(" ", parts[1..]), '+');
    PyText.ReplaceAbsent(PyText.Join(" ", parts[1..]), "+", " and ");
  }

  // ---------------------------------------------------------------------
  // Element errors
  // ---------------------------------------------------------------------

  /**
   * The periodic table as the views list it, with the placeholder 'X' at the
   * end; kept as seven rows, one per line of the listing, so that membership
   * stays cheap to decide.
   */
  const ElementRow1: set<string> := {"H", "He", "Li", "Be", "B", "C", "N", "O", "F", "Ne", "Na", "Mg", "Al", "Si", "P", "S", "Cl", "Ar"}
  const ElementRow2: set<string> := {"K", "Ca", "Sc", "Ti", "V", "Cr", "Mn", "Fe", "Co", "Ni", "Cu", "Zn", "Ga", "Ge", "As", "Se", "Br"}
  const ElementRow3: set<string> := {"Kr", "Rb", "Sr", "Y", "Zr", "Nb", "Mo", "Tc", "Ru", "Rh", "Pd", "Ag", "Cd", "In", "Sn", "Sb", "Te"}
  const ElementRow4: set<string> := {"I", "Xe", "Cs", "Ba", "La", "Ce", "Pr", "Nd", "Pm", "Sm", "Eu", "Gd", "Tb", "Dy", "Ho", "Er", "Tm"}
  const ElementRow5: set<string> := {"Yb", "Lu", "Hf", "Ta", "W", "Re", "Os", "Ir", "Pt", "Au", "Hg", "Tl", "Pb", "Bi", "Po", "At", "Rn"}
  const ElementRow6: set<string> := {"Fr", "Ra", "Ac", "Th", "Pa", "U", "Np", "Pu", "Am", "Cm", "Bk", "Cf", "Es", "Fm", "Md", "No", "Lr"}
  const ElementRow7: set<string> := {"Rf", "Db", "Sg", "Bh", "Hs", "Mt", "Ds", "Rg", "Cn", "Nh", "Fl", "Mc", "Lv", "Ts", "Og", "X"}
  const Elements: set<string> := ElementRow1 + ElementRow2 + ElementRow3 + ElementRow4 + ElementRow5 + ElementRow6 + ElementRow7

  const NotImplemented: nat := 501
  const BadRequest: nat := 400

  /** `s.lstrip(c)`: drops every leading `c`. */
  function LStripChar(s: string, c: char): (r: string)
    ensures |r| <= |s| && r == s[|s| - |r|..]
    ensures forall i :: 0 <= i < |s| - |r| ==> s[i] == c
    ensures |r| > 0 ==> r[0] != c
  {
    if |s| > 0 && s[0] == c then LStripChar(s[1..], c) else s
  }

  /** `s.rstrip(c)`: drops every trailing `c`. */
  function RStripChar(s: string, c: char): (r: string)
    ensures |r| <= |s| && r == s[..|r|]
    ensures forall i :: |r| <= i < |s| ==> s[i] == c
    ensures |r| > 0 ==> r[|r| - 1] != c
  {
    if |s| > 0 && s[|s| - 1] == c then RStripChar(s[..|s| - 1], c) else s
  }

  /** `s.strip(c)`. */
  function StripChar(s: string, c: char): string
  {
    RStripChar(LStripChar(s, c), c)
  }

  /** `analyze_element_error`: the status for a `KeyError` naming an element symbol. */
  function AnalyzeElementError(message: string): (status: nat)
    ensures status == NotImplemented || status == BadRequest
  {
    if StripChar(message, '\'') in Elements then NotImplemented else BadRequest
  }

  /** Stripping quotes from a quoted symbol gives the symbol back. */
  lemma StripQuoted(e: string)
    requires |e| > 0 && e[0] != '\'' && e[|e| - 1] != '\''
    ensures StripChar("'" + e + "'", '\'') == e
  {
    var inner := e + "'";
    assert ("'" + e + "'")[1..] == inner;
    assert LStripChar(inner, '\'') == inner by {
      assert inner[0] == e[0];
    }
    assert inner[..|inner| - 1] == e;
    assert RStripChar(e, '\'') == e;
  }

  /** A quoted symbol of the periodic table is reported as not implemented (501), anything else as invalid (400). */
  lemma ElementErrorStatus(e: string)
    requires |e| > 0 && e[0] != '\'' && e[|e| - 1] != '\''
    ensures AnalyzeElementError("'" + e + "'") == NotImplemented <==> e in Elements
  {
    StripQuoted(e);
  }

  /** The placeholder 'X' counts as an element. */
  lemma PlaceholderIsElement()
    ensures AnalyzeElementError("'X'") == NotImplemented
  {
    ElementErrorStatus("X");
    assert "'X'" == "'" + "X" + "'";
  }

  /** Every symbol of the table has one or two characters. */
  lemma SymbolsShort(e: string)
    requires e in Elements
    ensures |e| <= 2
  {
    if e in ElementRow1 {
      Row1Short(e);
    } else if e in ElementRow2 {
      Row2Short(e);
    } else if e in ElementRow3 {
      Row3Short(e);
    } else if e in ElementRow4 {
      Row4Short(e);
    } else if e in ElementRow5 {
      Row5Short(e);
    } else if e in ElementRow6 {
      Row6Short(e);
    } else {
      Row7Short(e);
    }
  }

  lemma Row1Short(e: string)
    requires e in ElementRow1
    ensures |e| <= 2
  {
  }

  lemma Row2Short(e: string)
    requires e in ElementRow2
    ensures |e| <= 2
  {
  }

  lemma Row3Short(e: string)
    requires e in ElementRow3
    ensures |e| <= 2
  {
  }

  lemma Row4Short(e: string)
    requires e in ElementRow4
    ensures |e| <= 2
  {
  }

  lemma Row5Short(e: string)
    requires e in ElementRow5
    ensures |e| <= 2
  {
  }

  lemma Row6Short(e: string)
    requires e in ElementRow6
    ensures |e| <= 2
  {
  }

  lemma Row7Short(e: string)
    requires e in ElementRow7
    ensures |e| <= 2
  {
  }

  /**
   * A quoted name of three or more characters, such as 'Uue', the
   * systematic name of element 119, is invalid.
   */
  lemma LongSymbolInvalid(e: string)
    requires |e| > 2 && e[0] != '\'' && e[|e| - 1] != '\''
    ensures AnalyzeElementError("'" + e + "'") == BadRequest
  {
    ElementErrorStatus(e);
    if e in Elements {
      SymbolsShort(e);
    }
  }

  // ---------------------------------------------------------------------
  // Atom-type errors
  // ---------------------------------------------------------------------

  /** Valence electrons of the elements the classifier knows. */
  const ValenceElectrons: map<string, int> := map[
    "H" := 1, "He" := 2, "C" := 4, "N" := 5, "O" := 6, "F" := 7, "Ne" := 8,
    "Si" := 4, "S" := 6, "Cl" := 7, "Ar" := 8, "Br" := 7, "I" := 7]

  /** The elements held to the octet rule (at most four bonding orbitals). */
  const OctetElements: set<string> := {"C", "N", "O", "F", "Ne"}

  predicate IsUpper(c: char) { 'A' <= c <= 'Z' }
  predicate IsLower(c: char) { 'a' <= c <= 'z' }

  /** `str.title()` on ASCII text, continuing after a letter when `afterLetter` holds. */
  function TitleFrom(s: string, afterLetter: bool): (r: string)
    ensures |r| == |s|
  {
    if |s| == 0 then ""
    else
      var c := s[0];
      var t := if afterLetter && IsUpper(c) then (c as int + 32) as char
               else if !afterLetter && IsLower(c) then (c as int - 32) as char
               else c;
      [t] + TitleFrom(s[1..], IsUpper(c) || IsLower(c))
  }

  /** `str.title()`: each run of letters starts upper-case and continues lower-case. */
  function Title(s: string): string
  {
    TitleFrom(s, false)
  }

  /** Whether a candidate element's symbol occurs in the atom-type label. */
  predicate Matches(atomType: string, element: string)
  {
    PyText.Contains(atomType, Title(element))
  }

  /**
   * The position at which the `for ... break` search over the candidates
   * stops: the first candidate that matches, or the last one when none
   * does; -1 for an empty candidate list.
   */
  function MatchIndex(candidates: seq<string>, atomType: string): (k: int)
    ensures -1 <= k < |candidates|
    ensures k == -1 <==> |candidates| == 0
    ensures k >= 0 ==> && (Matches(atomType, candidates[k]) || k == |candidates| - 1)
    ensures forall j :: 0 <= j < k ==> !Matches(atomType, candidates[j])
    decreases |candidates|
  {
    if |candidates| == 0 then -1
    else if Matches(atomType, candidates[0]) || |candidates| == 1 then 0
    else
      assert |candidates[1..]| > 0;
      var k := MatchIndex(candidates[1..], atomType);
      assert forall j :: 0 < j <= k ==> candidates[j] == candidates[1..][j - 1];
      1 + k
  }

  /** The search stops at `i` when nothing before `i` matches and `i` matches or is the last candidate. */
  lemma MatchIndexAt(candidates: seq<string>, atomType: string, i: nat)
    requires i < |candidates| && forall j :: 0 <= j < i ==> !Matches(atomType, candidates[j])
    requires Matches(atomType, candidates[i]) || i == |candidates| - 1
    ensures MatchIndex(candidates, atomType) == i
  {
  }

  /** The loop of `analyze_atomtype_error` that picks the element; no candidates leaves it unbound. */
  method FindElement(candidates: seq<string>, atomType: string) returns (element: Option<string>)
    ensures element == if |candidates| == 0 then None else Some(candidates[MatchIndex(candidates, atomType)])
  {
    element := None;
    var i := 0;
    while i < |candidates|
      invariant 0 <= i <= |candidates|
      invariant forall j :: 0 <= j < i ==> !Matches(atomType, candidates[j])
      invariant element == if i == 0 then None else Some(candidates[i - 1])
    {
      element := Some(candidates[i]);
      if Matches(atomType, candidates[i]) {
        MatchIndexAt(candidates, atomType, i);
        return;
      }
      if i == |candidates| - 1 {
        MatchIndexAt(candidates, atomType, i);
      }
      i := i + 1;
    }
  }

  /** Two-letter symbols are tried first, so a matching two-letter symbol always beats every one-letter one. */
  lemma TwoLettersFirst(two: seq<string>, one: seq<string>, atomType: string, j: nat)
    requires j < |two| && Matches(atomType, two[j])
    ensures 0 <= MatchIndex(two + one, atomType) <= j
  {
    var k := MatchIndex(two + one, atomType);
    assert (two + one)[j] == two[j];
  }

  /** In the label 'Cl1s' chlorine is found although carbon's symbol occurs in it too. */
  lemma ChlorineBeatsCarbon()
    ensures MatchIndex(["Cl", "Br"] + ["C", "H"], "Cl1s") == 0
  {
    assert Title("Cl") == "Cl";
    assert PyText.OccursAt("Cl1s", "Cl", 0);
    TwoLettersFirst(["Cl", "Br"], ["C", "H"], "Cl1s", 0);
  }

  /** The bond and charge counts read from the error message, in the order it states them. */
  datatype BondCounts = BondCounts(
    single: int, rDouble: int, oDouble: int, sDouble: int, triple: int,
    quadruple: int, benzene: int, lonePairs: int, charge: int)

  /** The orbitals an atom uses: a benzene bond counts 1.5, a double bond 2, a triple 3, a quadruple 4. */
  function Orbitals(b: BondCounts): real
  {
    b.single as real + 2.0 * (b.rDouble + b.oDouble + b.sDouble) as real + 3.0 * b.triple as real
      + 4.0 * b.quadruple as real + 1.5 * b.benzene as real + b.lonePairs as real
  }

  /** The classification at the end of `analyze_atomtype_error`, for an element with known valence. */
  function Classify(element: string, valence: int, b: BondCounts): (status: nat)
    ensures status == NotImplemented || status == BadRequest
    ensures status == NotImplemented <==>
      Orbitals(b) <= (if element in OctetElements then 4.0 else 6.0)
      && valence as real == Orbitals(b) + b.lonePairs as real + b.charge as real
  {
    if element in OctetElements && Orbitals(b) > 4.0 then BadRequest
    else if Orbitals(b) > 6.0 then BadRequest
    else if valence as real - Orbitals(b) - b.lonePairs as real - b.charge as real != 0.0 then BadRequest
    else NotImplemented
  }

  /** Why `analyze_atomtype_error` itself raises. */
  datatype AtomTypeFailure =
    | MissingAtomType   // fewer than eight words before the first comma
    | UnboundElement    // no supported one- or two-letter element at all
    | WrongCountNumber  // the message does not hold exactly nine counts

  /** The eighth word of the message's first comma-separated piece, where the atom-type label sits. */
  function AtomTypeWord(message: string): Option<string>
  {
    var words := PyText.Words(PyText.Split(message, ",")[0]);
    if |words| > 7 then Some(words[7]) else None
  }

  /**
   * `analyze_atomtype_error`. `counts` are the numbers the message's
   * regular expression extracts; `two` and `one` are RMG-Py's supported
   * two- and one-letter element symbols.
   */
  function AtomTypeOutcome(message: string, counts: seq<int>, two: seq<string>, one: seq<string>): Result<nat, AtomTypeFailure>
  {
    match AtomTypeWord(message)
    case None => Err(MissingAtomType)
    case Some(atomType) =>
      var k := MatchIndex(two + one, atomType);
      if k < 0 then Err(UnboundElement)
      else
        var element := (two + one)[k];
        if element !in ValenceElectrons then Ok(NotImplemented)
        else if |counts| != 9 then Err(WrongCountNumber)
        else
          var b := BondCounts(counts[0], counts[1], counts[2], counts[3], counts[4],
                              counts[5], counts[6], counts[7], counts[8]);
          Ok(Classify(element, ValenceElectrons[element], b))
  }

  method AnalyzeAtomtypeError(message: string, counts: seq<int>, two: seq<string>, one: seq<string>)
    returns (r: Result<nat, AtomTypeFailure>)
    ensures r == AtomTypeOutcome(message, counts, two, one)
  {
    var words := PyText.Words(PyText.Split(message, ",")[0]);
    if |words| <= 7 {
      return Err(MissingAtomType);
    }
    var found := FindElement(two + one, words[7]);
    if found.None? {
      return Err(UnboundElement);
    }
    var element := found.value;
    assert AtomTypeWord(message) == Some(words[7]);
    if element !in ValenceElectrons {
      return Ok(NotImplemented);
    }
    if |counts| != 9 {
      return Err(WrongCountNumber);
    }
    var b := BondCounts(counts[0], counts[1], counts[2], counts[3], counts[4],
                        counts[5], counts[6], counts[7], counts[8]);
    r := Ok(Classify(element, ValenceElectrons[element], b));
  }

  /** An element without a valence entry is reported as unsupported before the counts are even read. */
  lemma UnsupportedElementIgnoresCounts(message: string, counts: seq<int>, other: seq<int>, two: seq<string>, one: seq<string>)
    requires AtomTypeWord(message).Some?
    requires var k := MatchIndex(two + one, AtomTypeWord(message).value);
      k >= 0 && (two + one)[k] !in ValenceElectrons
    ensures AtomTypeOutcome(message, counts, two, one) == Ok(NotImplemented)
    ensures AtomTypeOutcome(message, counts, two, one) == AtomTypeOutcome(message, other, two, one)
  {
  }

  /** Methane's carbon and water's oxygen balance, so they are reported as an unsupported atom type. */
  lemma BalancedAtomsUnsupported()
    ensures Classify("C", 4, BondCounts(4, 0, 0, 0, 0, 0, 0, 0, 0)) == NotImplemented
    ensures Classify("O", 6, BondCounts(2, 0, 0, 0, 0, 0, 0, 2, 0)) == NotImplemented
  {
  }

  /** Carbon with five single bonds breaks the octet rule; sulfur may use six orbitals but not seven. */
  lemma OctetAndExpandedOctet()
    ensures Classify("C", 4, BondCounts(5, 0, 0, 0, 0, 0, 0, 0, 0)) == BadRequest
    ensures Classify("S", 6, BondCounts(6, 0, 0, 0, 0, 0, 0, 0, 0)) == NotImplemented
    ensures Classify("S", 6, BondCounts(7, 0, 0, 0, 0, 0, 0, 0, 0)) == BadRequest
  {
  }

  // ---------------------------------------------------------------------
  // Identifier dispatch
  // ---------------------------------------------------------------------

  /**
   * What one of RMG-Py's molecule readers (`from_inchi`, `from_smiles`) does
   * with a text: it reads it, or raises AtomTypeError, KeyError (an unknown
   * element), or IOError/ValueError (not that notation at all).
   */
  datatype ReadOutcome =
    | Read
    | AtomTypeFailure(message: string)
    | ElementFailure(message: string)
    | Unreadable

  /** How `getAdjacencyList` answers an identifier. */
  datatype Route =
    | EmptyResponse
    | FromInChI(inchi: string)
    | FromKnownName(smiles: string)
    | FromSmiles(smiles: string)
    | FromResolver(name: string)
    | AtomTypeAnalysis(message: string)   // `analyze_atomtype_error` of the message
    | ElementAnalysis(message: string)    // `analyze_element_error` of the message
    | Uncaught                            // an InChI reader error the view does not catch

  /** Names whose resolver answer would be wrong, with the SMILES the view uses instead. */
  const KnownNames: map<string, string> := map[
    "o2" := "[O][O]", "oxygen" := "[O][O]", "benzyl" := "[CH2]c1ccccc1", "phenyl" := "[c]1ccccc1"]

  /** The `except AtomTypeError` and `except KeyError` clauses shared by both readers. */
  function Analysis(o: ReadOutcome): Option<Route>
  {
    match o
    case AtomTypeFailure(m) => Some(AtomTypeAnalysis(m))
    case ElementFailure(m) => Some(ElementAnalysis(m))
    case _ => None
  }

  /**
   * `getAdjacencyList`: strip, answer empty input with an empty response,
   * then try InChI, the known names (ignoring case), SMILES, and finally the
   * chemical-name resolver. `readInChI` and `readSmiles` are RMG-Py's
   * readers applied to the stripped identifier; the known names' own
   * SMILES are taken to read.
   */
  function Dispatch(identifier: string, readInChI: string -> ReadOutcome, readSmiles: string -> ReadOutcome): Route
  {
    var id := PyText.Strip(identifier);
    if id == "" then EmptyResponse
    else if PyText.StartsWith(id, "InChI=1") then
      var o := readInChI(id);
      if o.Read? then FromInChI(id)
      else if Analysis(o).Some? then Analysis(o).value
      else Uncaught
    else if PyText.Lower(id) in KnownNames then FromKnownName(KnownNames[PyText.Lower(id)])
    else
      var o := readSmiles(id);
      if o.Read? then FromSmiles(id)
      else if Analysis(o).Some? then Analysis(o).value
      else FromResolver(id)
  }

  /**
   * Each later reader is reached only when every earlier one declined; an
   * atom-type or element error of a reader goes to its analyzer, and only
   * IOError or ValueError from the SMILES reader reaches the resolver.
   */
  lemma DispatchOrder(identifier: string, readInChI: string -> ReadOutcome, readSmiles: string -> ReadOutcome)
    ensures var id := PyText.Strip(identifier); var r := Dispatch(identifier, readInChI, readSmiles);
      var inchi := id != "" && PyText.StartsWith(id, "InChI=1");
      var smiles := id != "" && !PyText.StartsWith(id, "InChI=1") && PyText.Lower(id) !in KnownNames;
      (r == EmptyResponse <==> PyText.Blank(identifier))
      && (r.FromInChI? <==> inchi && readInChI(id).Read?)
      && (r.Uncaught? <==> inchi && readInChI(id).Unreadable?)
      && (r.FromKnownName? <==> id != "" && !PyText.StartsWith(id, "InChI=1") && PyText.Lower(id) in KnownNames)
      && (r.FromSmiles? <==> smiles && readSmiles(id).Read?)
      && (r.FromResolver? <==> smiles && readSmiles(id).Unreadable?)
      && (r.AtomTypeAnalysis? <==> (inchi && readInChI(id).AtomTypeFailure?) || (smiles && readSmiles(id).AtomTypeFailure?))
      && (r.ElementAnalysis? <==> (inchi && readInChI(id).ElementFailure?) || (smiles && readSmiles(id).ElementFailure?))
  {
    PyText.StripEmptyIffBlank(identifier);
  }

  /** Known names are matched ignoring case and never reach the SMILES reader. */
  lemma KnownNamesIgnoreCase(a: string, b: string, readInChI: string -> ReadOutcome,
                             readA: string -> ReadOutcome, readB: string -> ReadOutcome)
    requires PyText.Lower(PyText.Strip(a)) == PyText.Lower(PyText.Strip(b)) && PyText.Lower(PyText.Strip(a)) in KnownNames
    requires !PyText.StartsWith(PyText.Strip(a), "InChI=1") && !PyText.StartsWith(PyText.Strip(b), "InChI=1")
    ensures Dispatch(a, readInChI, readA) == Dispatch(b, readInChI, readB)
    ensures Dispatch(a, readInChI, readA).FromKnownName?
  {
  }
}
