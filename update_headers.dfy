/**
 * The header-rewriting script. The license header is built line by line
 * from the license text, and `replace_header` copies a Python file into a
 * new one, dropping an old header that is delimited by two bar lines. The
 * files are sequences of lines (each line as read, with its newline); the
 * written file is the returned string.
 */
module UpdateHeaders {
  import opened Common
  import PyText

  const Shebang: string := "#!/usr/bin/env python3"
  const Bar: string := "###############################################################################"
  const BlankBox: string := "#                                                                             #"
  const TitleBox: string := "# RMG Website - A Django-powered website for Reaction Mechanism Generator     #"
  /** The prefix that marks a bar line of an old header. */
  const BarMark: string := "##########"
  const Width: nat := 75

  /** `s.ljust(width)`: padded with spaces on the right, never truncated. */
  function LJust(s: string, width: nat): (r: string)
    ensures |r| == if |s| < width then width else |s|
    ensures r[..|s|] == s
    ensures forall i :: |s| <= i < |r| ==> r[i] == ' '
  {
    if |s| < width then s + seq(width - |s|, _ => ' ') else s
  }

  /** `'# {0:<75} #\n'.format(line.strip())`. */
  function BoxLine(line: string): string
  {
    "# " + LJust(PyText.Strip(line), Width) + " #\n"
  }

  /** The box lines of the license text, concatenated. */
  function BoxLines(license: seq<string>): string
  {
    if |license| == 0 then "" else BoxLine(license[0]) + BoxLines(license[1..])
  }

  const HeaderTop: string := Bar + "\n" + BlankBox + "\n" + TitleBox + "\n" + BlankBox + "\n"
  const HeaderBottom: string := BlankBox + "\n" + Bar + "\n"

  /** The header built from the lines of the license file. */
  function Header(license: seq<string>): string
  {
    HeaderTop + BoxLines(license) + HeaderBottom
  }

  /** A license line fits the box exactly when it is at most 75 characters once stripped; longer ones widen it. */
  lemma BoxLineWidth(line: string)
    ensures |BoxLine(line)| == (if |PyText.Strip(line)| <= Width then 80 else |PyText.Strip(line)| + 5)
    ensures PyText.OccursAt(BoxLine(line), PyText.Strip(line), 2)
  {
    var t := PyText.Strip(line);
    var b := BoxLine(line);
    assert b[2..2 + |t|] == LJust(t, Width)[..|t|];
  }

  /** One more license line adds its box line at the end. */
  lemma {:induction false} BoxLinesAppend(license: seq<string>, line: string)
    ensures BoxLines(license + [line]) == BoxLines(license) + BoxLine(line)
    decreases |license|
  {
    if |license| == 0 {
      assert license + [line] == [line];
    } else {
      assert (license + [line])[1..] == license[1..] + [line];
      BoxLinesAppend(license[1..], line);
    }
  }

  /** Building the header: `header +=` once per license line. */
  method BuildHeader(license: seq<string>) returns (header: string)
    ensures header == Header(license)
  {
    header := HeaderTop;
    var i := 0;
    while i < |license|
      invariant 0 <= i <= |license|
      invariant header == HeaderTop + BoxLines(license[..i])
    {
      AppendBoxLine(license, i);
      header := header + BoxLine(license[i]);
      i := i + 1;
    }
    assert license[..i] == license;
    header := header + HeaderBottom;
  }

  lemma AppendBoxLine(license: seq<string>, i: nat)
    requires i < |license|
    ensures HeaderTop + BoxLines(license[..i + 1]) == HeaderTop + BoxLines(license[..i]) + BoxLine(license[i])
  {
    assert license[..i + 1] == license[..i] + [license[i]];
    BoxLinesAppend(license[..i], license[i]);
    Regroup(HeaderTop, BoxLines(license[..i]), BoxLine(license[i]));
  }

  /** `line.startswith('##########')`. */
  predicate IsBar(line: string)
  {
    PyText.StartsWith(line, BarMark)
  }

  /** The first bar line at or after `from`. */
  function FindBar(lines: seq<string>, from: nat): (r: Option<nat>)
    ensures r.Some? ==> from <= r.value < |lines| && IsBar(lines[r.value])
    ensures r.Some? ==> forall j :: from <= j < r.value ==> !IsBar(lines[j])
    ensures r.None? ==> forall j :: from <= j < |lines| ==> !IsBar(lines[j])
    decreases |lines| - from
  {
    if from >= |lines| then None
    else if IsBar(lines[from]) then Some(from)
    else FindBar(lines, from + 1)
  }

  /**
   * Where copying starts: at the first line when it does not start with
   * '#', otherwise right after the second bar line; None when copying
   * never starts.
   */
  function CopyStart(lines: seq<string>): Option<nat>
    requires |lines| > 0 ==> lines[0] != ""
  {
    if |lines| == 0 then None
    else if lines[0][0] != '#' then Some(0)
    else match FindBar(lines, 0)
      case None => None
      case Some(b) =>
        match FindBar(lines, b + 1)
        case None => None
        case Some(c) => Some(c + 1)
  }

  function Concat(lines: seq<string>): string
  {
    if |lines| == 0 then "" else Concat(lines[..|lines| - 1]) + lines[|lines| - 1]
  }

  /** The copied lines, with one newline in front when the first of them is not blank. */
  function Copied(lines: seq<string>): string
  {
    if |lines| == 0 then ""
    else (if PyText.Strip(lines[0]) != "" then "\n" else "") + Concat(lines)
  }

  /** The newline in front of the copied lines is there exactly when the first of them is not all whitespace. */
  lemma CopiedNewline(lines: seq<string>)
    requires lines != []
    ensures !PyText.Blank(lines[0]) ==> Copied(lines) == "\n" + Concat(lines)
    ensures PyText.Blank(lines[0]) ==> Copied(lines) == Concat(lines)
  {
    PyText.StripEmptyIffBlank(lines[0]);
  }

  /** The file `replace_header` writes: the shebang, then the header and the copied lines once copying starts. */
  function Rewritten(lines: seq<string>, header: string): string
    requires |lines| > 0 ==> lines[0] != ""
  {
    Shebang + match CopyStart(lines)
      case None => ""
      case Some(s) => header + Copied(lines[s..])
  }

  datatype HeaderError = UnexpectedFileType(path: string)

  /** Before copying starts: the first line starts with '#', and `found_bar` records whether the one bar line seen so far exists. */
  predicate Scanning(lines: seq<string>, i: nat, foundBar: bool)
  {
    i <= |lines|
    && (i > 0 ==> lines[0] != "" && lines[0][0] == '#')
    && (!foundBar ==> FindBar(lines, 0).None? || FindBar(lines, 0).value >= i)
    && (foundBar ==> FindBar(lines, 0).Some? && FindBar(lines, 0).value < i
                     && var c := FindBar(lines, FindBar(lines, 0).value + 1); c.None? || c.value >= i)
  }

  /**
   * `replace_header`: a path whose extension is not `.py` is rejected
   * before anything is written.
   */
  method ReplaceHeader(path: string, lines: seq<string>, header: string) returns (r: Result<string, HeaderError>)
    requires |lines| > 0 ==> lines[0] != ""
    ensures r.Err? <==> PyText.Extension(path) != ".py"
    ensures r.Ok? ==> r.value == Rewritten(lines, header)
  {
    if PyText.Extension(path) != ".py" {
      return Err(UnexpectedFileType(path));
    }
    var out := CopyWithHeader(lines, header);
    return Ok(out);
  }

  /** What the loop has written after `i` lines: the shebang, then, once copying started at `s`, the header and the lines copied so far. */
  ghost function Written(lines: seq<string>, header: string, start: bool, s: nat, i: nat): string
    requires s <= i <= |lines|
  {
    if start then Shebang + header + Copied(lines[s..i]) else Shebang
  }

  /** The line loop of `replace_header`, driven by the flags `found_bar`, `first_line` and `start`. */
  method CopyWithHeader(lines: seq<string>, header: string) returns (out: string)
    requires |lines| > 0 ==> lines[0] != ""
    ensures out == Rewritten(lines, header)
  {
    out := Shebang;
    var foundBar := false;
    var firstLine := true;
    var start := false;
    ghost var s: nat := 0;
    var i := 0;
    while i < |lines|
      invariant s <= i <= |lines|
      invariant i == 0 ==> !start
      invariant out == Written(lines, header, start, s, i)
      invariant !start ==> firstLine && Scanning(lines, i, foundBar)
      invariant start ==> CopyStart(lines) == Some(s) && (firstLine <==> s == i)
    {
      var line := lines[i];
      if i == 0 && line[0] != '#' {
        out := out + header;
        start := true;
        s := 0;
        StartWriting(lines, header, 0);
      }
      if start {
        CopiedStep(lines, Shebang + header, s, i);
        if firstLine && PyText.Strip(line) != "" {
          out := out + "\n";
        }
        firstLine := false;
        out := out + line;
      } else {
        ScanStep(lines, i, foundBar);
        if IsBar(line) {
          if foundBar {
            out := out + header;
            start := true;
            s := i + 1;
            StartWriting(lines, header, i + 1);
          } else {
            foundBar := true;
          }
        }
      }
      i := i + 1;
    }
    LoopDone(lines, header, start, s, foundBar);
  }

  /** Starting to copy at `s` writes the header right after the shebang. */
  lemma StartWriting(lines: seq<string>, header: string, s: nat)
    requires s <= |lines|
    ensures Written(lines, header, true, s, s) == Written(lines, header, false, s, s) + header
  {
    assert lines[s..s] == [];
  }

  /** One more copied line after any prefix: a newline before it only when it is the first and is not blank. */
  lemma CopiedStep(lines: seq<string>, front: string, s: nat, i: nat)
    requires s <= i < |lines|
    ensures s == i && PyText.Strip(lines[i]) != "" ==>
      front + Copied(lines[s..i + 1]) == front + Copied(lines[s..i]) + "\n" + lines[i]
    ensures !(s == i && PyText.Strip(lines[i]) != "") ==>
      front + Copied(lines[s..i + 1]) == front + Copied(lines[s..i]) + lines[i]
  {
    CopiedAppend(lines, s, i);
    var c := Copied(lines[s..i]);
    if s == i && PyText.Strip(lines[i]) != "" {
      Regroup4(front, c, "\n", lines[i]);
    } else {
      Regroup(front, c, lines[i]);
    }
  }

  lemma Regroup(a: string, b: string, c: string)
    ensures a + (b + c) == a + b + c
  {
  }

  lemma Regroup4(a: string, b: string, c: string, d: string)
    ensures a + (b + c + d) == a + b + c + d
  {
  }

  /** One more line read before copying starts, following `found_bar`. */
  lemma ScanStep(lines: seq<string>, i: nat, foundBar: bool)
    requires i < |lines| && Scanning(lines, i, foundBar)
    requires lines[0] != "" && (i == 0 ==> lines[0][0] == '#')
    ensures !IsBar(lines[i]) ==> Scanning(lines, i + 1, foundBar)
    ensures IsBar(lines[i]) && !foundBar ==> Scanning(lines, i + 1, true)
    ensures IsBar(lines[i]) && foundBar ==> CopyStart(lines) == Some(i + 1)
  {
    if IsBar(lines[i]) && foundBar {
      var b := FindBar(lines, 0).value;
      assert FindBar(lines, b + 1) == Some(i);
    }
  }

  /** After the last line, what was written is the rewritten file. */
  lemma LoopDone(lines: seq<string>, header: string, start: bool, s: nat, foundBar: bool)
    requires |lines| > 0 ==> lines[0] != ""
    requires s <= |lines|
    requires !start ==> Scanning(lines, |lines|, foundBar)
    requires start ==> CopyStart(lines) == Some(s)
    ensures Written(lines, header, start, s, |lines|) == Rewritten(lines, header)
  {
    if start {
      RewrittenFrom(lines, header, s);
      assert lines[s..|lines|] == lines[s..];
    } else if |lines| > 0 {
      assert FindBar(lines, 0).None? || FindBar(lines, FindBar(lines, 0).value + 1).None?;
      assert CopyStart(lines) == None;
    }
  }

  /** One more copied line, on the copied text alone. */
  lemma CopiedAppend(lines: seq<string>, s: nat, i: nat)
    requires s <= i < |lines|
    ensures s == i && PyText.Strip(lines[i]) != "" ==> Copied(lines[s..i + 1]) == Copied(lines[s..i]) + "\n" + lines[i]
    ensures !(s == i && PyText.Strip(lines[i]) != "") ==> Copied(lines[s..i + 1]) == Copied(lines[s..i]) + lines[i]
  {
    var ls := lines[s..i + 1];
    var front := lines[s..i];
    assert ls[..|ls| - 1] == front;
    assert ls[|ls| - 1] == lines[i];
    var pre := if PyText.Strip(ls[0]) != "" then "\n" else "";
    assert Copied(ls) == pre + (Concat(front) + lines[i]);
    if s < i {
      assert ls[0] == front[0];
      assert Copied(front) == pre + Concat(front);
      Regroup(pre, Concat(front), lines[i]);
    } else {
      assert front == [];
      assert Concat(front) + lines[i] == lines[i];
      assert Copied(front) == "";
      assert Copied(front) + pre == pre;
    }
  }

  /** The first bar at or after `from` is the bar at `b` when none comes between. */
  lemma {:induction false} FindBarAt(lines: seq<string>, from: nat, b: nat)
    requires from <= b < |lines| && IsBar(lines[b])
    requires forall j :: from <= j < b ==> !IsBar(lines[j])
    ensures FindBar(lines, from) == Some(b)
    decreases b - from
  {
    if from < b {
      FindBarAt(lines, from + 1, b);
    }
  }

  /** When the first line does not start with '#', the header goes first and every line is copied. */
  lemma NoHeaderCopiesEverything(lines: seq<string>, header: string)
    requires |lines| > 0 && lines[0] != "" && lines[0][0] != '#'
    ensures Rewritten(lines, header) == Shebang + header + Copied(lines)
  {
    assert lines[0..] == lines;
  }

  /** With fewer than two bar lines after a '#' first line, nothing follows the shebang. */
  lemma FewerThanTwoBars(lines: seq<string>, header: string)
    requires |lines| > 0 && lines[0] != "" && lines[0][0] == '#'
    requires forall j, k :: 0 <= j < k < |lines| && IsBar(lines[j]) ==> !IsBar(lines[k])
    ensures Rewritten(lines, header) == Shebang
  {
    match FindBar(lines, 0)
    case None =>
    case Some(b) =>
      var c := FindBar(lines, b + 1);
  }

  /** Everything up to and including the second bar line is dropped and replaced by the header. */
  lemma OldHeaderDropped(lines: seq<string>, header: string, first: nat, second: nat)
    requires |lines| > 0 && lines[0] != "" && lines[0][0] == '#'
    requires first < second < |lines| && IsBar(lines[first]) && IsBar(lines[second])
    requires forall j :: 0 <= j < second && j != first ==> !IsBar(lines[j])
    ensures Rewritten(lines, header) == Shebang + header + Copied(lines[second + 1..])
  {
    SecondBarStartsCopy(lines, first, second);
    RewrittenFrom(lines, header, second + 1);
  }

  /** Once copying starts at `s`, the file is the shebang, the header and the copied lines from `s`. */
  lemma RewrittenFrom(lines: seq<string>, header: string, s: nat)
    requires |lines| > 0 ==> lines[0] != ""
    requires CopyStart(lines) == Some(s)
    ensures s <= |lines| && Rewritten(lines, header) == Shebang + header + Copied(lines[s..])
  {
    Regroup(Shebang, header, Copied(lines[s..]));
  }

  /** Copying starts right after the second bar line. */
  lemma SecondBarStartsCopy(lines: seq<string>, first: nat, second: nat)
    requires |lines| > 0 && lines[0] != "" && lines[0][0] == '#'
    requires first < second < |lines| && IsBar(lines[first]) && IsBar(lines[second])
    requires forall j :: 0 <= j < second && j != first ==> !IsBar(lines[j])
    ensures CopyStart(lines) == Some(second + 1)
  {
    FindBarAt(lines, 0, first);
    FindBarAt(lines, first + 1, second);
  }

  /** When the header is written, the shebang and the header's first bar share the first line of the file. */
  lemma ShebangSharesFirstLine(lines: seq<string>, license: seq<string>)
    requires |lines| > 0 ==> lines[0] != ""
    requires CopyStart(lines).Some?
    ensures PyText.StartsWith(Rewritten(lines, Header(license)), Shebang + (Bar + "\n"))
  {
    var p := Bar + "\n";
    PyText.ExtendPrefix(p, BlankBox, p);
    PyText.ExtendPrefix(p + BlankBox, "\n", p);
    PyText.ExtendPrefix(p + BlankBox + "\n", TitleBox, p);
    PyText.ExtendPrefix(p + BlankBox + "\n" + TitleBox, "\n", p);
    PyText.ExtendPrefix(p + BlankBox + "\n" + TitleBox + "\n", BlankBox, p);
    PyText.ExtendPrefix(p + BlankBox + "\n" + TitleBox + "\n" + BlankBox, "\n", p);
    assert PyText.StartsWith(HeaderTop, p);
    PyText.ExtendPrefix(HeaderTop, BoxLines(license), p);
    PyText.ExtendPrefix(HeaderTop + BoxLines(license), HeaderBottom, p);
    var copied := Copied(lines[CopyStart(lines).value..]);
    PyText.ExtendPrefix(Header(license), copied, p);
    PyText.PrependPrefix(Shebang, Header(license) + copied, p);
  }
}
