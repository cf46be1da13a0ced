/**
 * The RMG job pages: splitting an uploaded species dictionary into its
 * adjacency lists (`AdjlistConversion.createOutput`), and the settings that
 * `Input.loadForm` copies from an RMG input file onto the web form and
 * `Input.saveForm` copies back: the thermo and reaction libraries and seed
 * mechanisms, the sensitivity species of a reactor system, the
 * pressure-dependence interpolation model, the restart period and the
 * species constraints. Reading and writing the files, building species from
 * adjacency lists and the RMG job object itself are not modelled: a file is
 * its sequence of lines, a species is its label.
 */
module RmgModels {
  import opened Common
  import opened PyText

  // ---------------------------------------------------------------------
  // Species dictionary splitting
  // ---------------------------------------------------------------------

  /** A line that holds `InChI` has a first word. */
  lemma InChIHasWord(line: string)
    requires Contains(line, "InChI")
    ensures Words(line) != []
  {
    var j := Find(line, "InChI").value;
    assert line[j..j + 5] == "InChI";
    assert !IsSpace(line[j]);
    WordsOfBlank(line);
  }

  /** Cutting a text before the first occurrence of `sub` leaves no occurrence of it. */
  lemma CutBeforeFirst(s: string, sub: string, i: nat)
    requires |sub| > 0 && Find(s, sub) == Some(i)
    ensures !Contains(s[..i], sub)
  {
    if Contains(s[..i], sub) {
      var j := Find(s[..i], sub).value;
      assert s[..i][j..j + |sub|] == s[j..j + |sub|];
      assert OccursAt(s, sub, j);
      assert false;
    }
  }

  /**
   * A dictionary line after its clean-up: a line holding `InChI` becomes its
   * first word and a newline, then anything from the first `//` on, the
   * newline included, is dropped. The result never holds `//`; a line with
   * neither mark is kept whole, and a line without `InChI` keeps a prefix of
   * itself.
   */
  function CleanLine(line: string): (r: string)
    ensures !Contains(r, "//")
    ensures !Contains(line, "InChI") ==> r <= line
    ensures !Contains(line, "InChI") && !Contains(line, "//") ==> r == line
    ensures Contains(line, "InChI") ==> r <= Words(line)[0] + "\n"
  {
    var l := if Contains(line, "InChI") then InChIHasWord(line); Words(line)[0] + "\n" else line;
    if Contains(l, "//") then
      var i := Find(l, "//").value;
      CutBeforeFirst(l, "//", i);
      l[..i]
    else l
  }

  /** A comment cut drops the line's newline, so the next line continues the same text. */
  lemma CommentDropsNewline(line: string)
    requires Contains(line, "//") && !Contains(line, "InChI")
    requires |line| > 0 && line[|line| - 1] == '\n' && '\n' !in line[..|line| - 1]
    ensures '\n' !in CleanLine(line)
    ensures |CleanLine(line)| < |line|
  {
    var i := Find(line, "//").value;
    assert CleanLine(line) == line[..i];
    assert line[..i] == line[..|line| - 1][..i];
  }

  /** The state of the reading loop: the finished adjacency lists and the one being gathered. */
  datatype Reading = Reading(finished: seq<string>, adjlist: string)

  /**
   * One line of the loop: a blank line finishes the adjacency list being
   * gathered if that list is not blank itself; every other line is cleaned
   * and added to it.
   */
  function ReadLine(r: Reading, line: string): Reading
  {
    if Strip(line) == "" && Strip(r.adjlist) != "" then Reading(r.finished + [r.adjlist], "")
    else Reading(r.finished, r.adjlist + CleanLine(line))
  }

  /** The loop state after the given lines. */
  function ReadLines(lines: seq<string>): Reading
    decreases |lines|
  {
    if |lines| == 0 then Reading([], "")
    else ReadLine(ReadLines(lines[..|lines| - 1]), lines[|lines| - 1])
  }

  /** `createOutput`'s loop over the dictionary file: the adjacency lists it converts to species, in order. */
  method CreateOutput(lines: seq<string>) returns (adjlists: seq<string>)
    ensures adjlists == ReadLines(lines).finished
  {
    adjlists := [];
    var adjlist := "";
    for k := 0 to |lines|
      invariant Reading(adjlists, adjlist) == ReadLines(lines[..k])
    {
      assert lines[..k + 1][..k] == lines[..k];
      var line := lines[k];
      if Strip(line) == "" && Strip(adjlist) != "" {
        adjlists := adjlists + [adjlist];
        adjlist := "";
      } else {
        if Contains(line, "InChI") {
          InChIHasWord(line);
          line := Words(line)[0] + "\n";
        }
        if Contains(line, "//") {
          var index := Find(line, "//").value;
          line := line[..index];
        }
        adjlist := adjlist + line;
      }
    }
    assert lines[..|lines|] == lines;
  }

  /** Text with a non-blank part is not blank. */
  lemma NotBlankConcat(a: string, b: string)
    requires !Blank(a) || !Blank(b)
    ensures !Blank(a + b)
  {
    if !Blank(a) {
      var i :| 0 <= i < |a| && !IsSpace(a[i]);
      assert (a + b)[i] == a[i];
    } else {
      var i :| 0 <= i < |b| && !IsSpace(b[i]);
      assert (a + b)[|a| + i] == b[i];
    }
  }

  /** Every adjacency list handed to species conversion holds something other than whitespace. */
  lemma {:induction false} FinishedNotBlank(lines: seq<string>)
    ensures forall i :: 0 <= i < |ReadLines(lines).finished| ==> !Blank(ReadLines(lines).finished[i])
    decreases |lines|
  {
    if |lines| > 0 {
      var before := ReadLines(lines[..|lines| - 1]);
      FinishedNotBlank(lines[..|lines| - 1]);
      StripEmptyIffBlank(before.adjlist);
    }
  }

  /** A line of an adjacency list as RMG writes one: not blank, no `InChI`, no comment. */
  predicate PlainLine(line: string)
  {
    !Blank(line) && !Contains(line, "InChI") && !Contains(line, "//")
  }

  /** An adjacency list as lines: at least one, all plain. */
  predicate PlainBlock(block: seq<string>)
  {
    |block| > 0 && forall i :: 0 <= i < |block| ==> PlainLine(block[i])
  }

  /** The lines of a block run together. */
  function Text(block: seq<string>): string
    decreases |block|
  {
    if |block| == 0 then "" else Text(block[..|block| - 1]) + block[|block| - 1]
  }

  /** A dictionary file: each block's lines followed by an empty line. */
  function DictionaryLines(blocks: seq<seq<string>>): seq<string>
    decreases |blocks|
  {
    if |blocks| == 0 then [] else DictionaryLines(blocks[..|blocks| - 1]) + blocks[|blocks| - 1] + ["\n"]
  }

  /** Plain lines after a finished list are gathered, unchanged, into the next one. */
  lemma {:induction false} GatherPlain(before: seq<string>, block: seq<string>)
    requires ReadLines(before).adjlist == ""
    requires forall i :: 0 <= i < |block| ==> PlainLine(block[i])
    ensures ReadLines(before + block) == Reading(ReadLines(before).finished, Text(block))
    decreases |block|
  {
    if |block| == 0 {
      assert before + block == before;
    } else {
      var last := block[|block| - 1];
      var init := block[..|block| - 1];
      GatherPlain(before, init);
      assert (before + block)[..|before + block| - 1] == before + init;
      StripEmptyIffBlank(last);
    }
  }

  /** Plain lines are never blank together. */
  lemma {:induction false} PlainTextNotBlank(block: seq<string>)
    requires PlainBlock(block)
    ensures !Blank(Text(block))
  {
    NotBlankConcat(Text(block[..|block| - 1]), block[|block| - 1]);
  }

  /** The texts of the blocks, in order. */
  function Texts(blocks: seq<seq<string>>): seq<string>
    decreases |blocks|
  {
    if |blocks| == 0 then [] else Texts(blocks[..|blocks| - 1]) + [Text(blocks[|blocks| - 1])]
  }

  /** An empty line finishes an adjacency list that is not blank. */
  lemma EmptyLineFinishes(lines: seq<string>)
    requires !Blank(ReadLines(lines).adjlist)
    ensures ReadLines(lines + ["\n"]) == Reading(ReadLines(lines).finished + [ReadLines(lines).adjlist], "")
  {
    StripEmptyIffBlank(ReadLines(lines).adjlist);
    StripEmptyIffBlank("\n");
    assert (lines + ["\n"])[..|lines|] == lines;
  }

  /**
   * The dictionary format round-trips: a file of adjacency lists, each
   * followed by an empty line, is split back into exactly those adjacency
   * lists, with nothing left over.
   */
  lemma {:induction false} DictionaryRoundTrip(blocks: seq<seq<string>>)
    requires forall i :: 0 <= i < |blocks| ==> PlainBlock(blocks[i])
    ensures ReadLines(DictionaryLines(blocks)) == Reading(Texts(blocks), "")
    decreases |blocks|
  {
    if |blocks| > 0 {
      var init := blocks[..|blocks| - 1];
      var block := blocks[|blocks| - 1];
      DictionaryRoundTrip(init);
      var before := DictionaryLines(init);
      GatherPlain(before, block);
      PlainTextNotBlank(block);
      EmptyLineFinishes(before + block);
    }
  }

  /**
   * A last adjacency list with no empty line after it is gathered but never
   * converted: the file gives the same species as the file without it.
   */
  lemma LastBlockNeedsBlankLine(blocks: seq<seq<string>>, last: seq<string>)
    requires forall i :: 0 <= i < |blocks| ==> PlainBlock(blocks[i])
    requires PlainBlock(last)
    ensures ReadLines(DictionaryLines(blocks) + last).finished == ReadLines(DictionaryLines(blocks)).finished
    ensures ReadLines(DictionaryLines(blocks) + last).adjlist == Text(last)
  {
    DictionaryRoundTrip(blocks);
    GatherPlain(DictionaryLines(blocks), last);
  }

  // ---------------------------------------------------------------------
  // Thermo and reaction libraries
  // ---------------------------------------------------------------------

  /** A row of the reaction-library formset. */
  datatype LibraryRow = LibraryRow(reactionlib: string, seedmech: bool, edge: bool)

  /** The database part of the form: thermo library names and reaction-library rows. */
  datatype DatabaseForm = DatabaseForm(thermoLibs: seq<string>, reactionLibs: seq<LibraryRow>)

  /** The database part of an input file: thermo libraries, reaction libraries with their edge flags, seed mechanisms. */
  datatype DatabaseSettings = DatabaseSettings(thermoLibraries: seq<string>, reactionLibraries: seq<(string, bool)>, seedMechanisms: seq<string>)

  /** The rows that are not seed mechanisms, as (name, edge) pairs in form order. */
  function EdgeLibraries(rows: seq<LibraryRow>): seq<(string, bool)>
    decreases |rows|
  {
    if |rows| == 0 then []
    else
      var r := rows[|rows| - 1];
      EdgeLibraries(rows[..|rows| - 1]) + (if r.seedmech then [] else [(r.reactionlib, r.edge)])
  }

  /** The names of the rows that are seed mechanisms, in form order. */
  function SeedNames(rows: seq<LibraryRow>): seq<string>
    decreases |rows|
  {
    if |rows| == 0 then []
    else
      var r := rows[|rows| - 1];
      SeedNames(rows[..|rows| - 1]) + (if r.seedmech then [r.reactionlib] else [])
  }

  /** What `saveForm` writes for the databases. */
  function SavedDatabases(form: DatabaseForm): DatabaseSettings
  {
    DatabaseSettings(form.thermoLibs, EdgeLibraries(form.reactionLibs), SeedNames(form.reactionLibs))
  }

  /** `saveForm`'s loop over the reaction-library rows. */
  method SaveDatabases(form: DatabaseForm) returns (settings: DatabaseSettings)
    ensures settings == SavedDatabases(form)
  {
    var rows := form.reactionLibs;
    var reactionLibraries: seq<(string, bool)> := [];
    var seedMechanisms: seq<string> := [];
    for k := 0 to |rows|
      invariant reactionLibraries == EdgeLibraries(rows[..k])
      invariant seedMechanisms == SeedNames(rows[..k])
    {
      assert rows[..k + 1][..k] == rows[..k];
      var item := rows[k];
      if !item.seedmech && !item.edge {
        reactionLibraries := reactionLibraries + [(item.reactionlib, false)];
      } else if !item.seedmech {
        reactionLibraries := reactionLibraries + [(item.reactionlib, true)];
      } else {
        seedMechanisms := seedMechanisms + [item.reactionlib];
      }
    }
    assert rows[..|rows|] == rows;
    settings := DatabaseSettings(form.thermoLibs, reactionLibraries, seedMechanisms);
  }

  /** The rows `loadForm` makes for seed mechanisms: seed mechanism, not edge. */
  function SeedRows(names: seq<string>): seq<LibraryRow>
  {
    seq(|names|, i requires 0 <= i < |names| => LibraryRow(names[i], true, false))
  }

  /** The rows `loadForm` makes for reaction libraries: not a seed mechanism, with the library's edge flag. */
  function EdgeRows(libs: seq<(string, bool)>): seq<LibraryRow>
  {
    seq(|libs|, i requires 0 <= i < |libs| => LibraryRow(libs[i].0, false, libs[i].1))
  }

  /** What `loadForm` puts on the form for the databases: seed mechanisms first, then reaction libraries. */
  function LoadedDatabases(settings: DatabaseSettings): DatabaseForm
  {
    DatabaseForm(settings.thermoLibraries, SeedRows(settings.seedMechanisms) + EdgeRows(settings.reactionLibraries))
  }

  /** `loadForm`'s loops over the libraries of the input file. */
  method LoadDatabases(settings: DatabaseSettings) returns (form: DatabaseForm)
    ensures form == LoadedDatabases(settings)
  {
    var thermoLibs: seq<string> := [];
    for k := 0 to |settings.thermoLibraries|
      invariant thermoLibs == settings.thermoLibraries[..k]
    {
      thermoLibs := thermoLibs + [settings.thermoLibraries[k]];
    }
    var seeds := settings.seedMechanisms;
    var rows: seq<LibraryRow> := [];
    for k := 0 to |seeds|
      invariant rows == SeedRows(seeds[..k])
    {
      rows := rows + [LibraryRow(seeds[k], true, false)];
    }
    var libs := settings.reactionLibraries;
    for k := 0 to |libs|
      invariant rows == SeedRows(seeds) + EdgeRows(libs[..k])
    {
      var (item, edge) := libs[k];
      rows := rows + [LibraryRow(item, false, edge)];
    }
    assert seeds[..|seeds|] == seeds;
    assert libs[..|libs|] == libs;
    assert settings.thermoLibraries[..|settings.thermoLibraries|] == settings.thermoLibraries;
    form := DatabaseForm(thermoLibs, rows);
  }

  lemma {:induction false} EdgeLibrariesConcat(a: seq<LibraryRow>, b: seq<LibraryRow>)
    ensures EdgeLibraries(a + b) == EdgeLibraries(a) + EdgeLibraries(b)
    ensures SeedNames(a + b) == SeedNames(a) + SeedNames(b)
    decreases |b|
  {
    if |b| == 0 {
      assert a + b == a;
    } else {
      assert (a + b)[..|a + b| - 1] == a + b[..|b| - 1];
      EdgeLibrariesConcat(a, b[..|b| - 1]);
    }
  }

  lemma {:induction false} SeedRowsSaved(names: seq<string>)
    ensures EdgeLibraries(SeedRows(names)) == [] && SeedNames(SeedRows(names)) == names
    decreases |names|
  {
    if |names| > 0 {
      var init := names[..|names| - 1];
      assert SeedRows(names)[..|names| - 1] == SeedRows(init);
      SeedRowsSaved(init);
    }
  }

  lemma {:induction false} EdgeRowsSaved(libs: seq<(string, bool)>)
    ensures EdgeLibraries(EdgeRows(libs)) == libs && SeedNames(EdgeRows(libs)) == []
    decreases |libs|
  {
    if |libs| > 0 {
      var init := libs[..|libs| - 1];
      assert EdgeRows(libs)[..|libs| - 1] == EdgeRows(init);
      EdgeRowsSaved(init);
    }
  }

  /** Loading an input file's libraries and saving the form gives the same libraries back. */
  lemma DatabasesReload(settings: DatabaseSettings)
    ensures SavedDatabases(LoadedDatabases(settings)) == settings
  {
    EdgeLibrariesConcat(SeedRows(settings.seedMechanisms), EdgeRows(settings.reactionLibraries));
    SeedRowsSaved(settings.seedMechanisms);
    EdgeRowsSaved(settings.reactionLibraries);
  }

  /** The seed-mechanism rows in form order, their edge box cleared. */
  function SeedRowsCleared(rows: seq<LibraryRow>): seq<LibraryRow>
    decreases |rows|
  {
    if |rows| == 0 then []
    else
      var r := rows[|rows| - 1];
      SeedRowsCleared(rows[..|rows| - 1]) + (if r.seedmech then [r.(edge := false)] else [])
  }

  /** The rows that are not seed mechanisms, in form order. */
  function LibraryRowsOnly(rows: seq<LibraryRow>): seq<LibraryRow>
    decreases |rows|
  {
    if |rows| == 0 then []
    else
      var r := rows[|rows| - 1];
      LibraryRowsOnly(rows[..|rows| - 1]) + (if r.seedmech then [] else [r])
  }

  lemma {:induction false} LoadedRowsSplit(rows: seq<LibraryRow>)
    ensures SeedRows(SeedNames(rows)) == SeedRowsCleared(rows)
    ensures EdgeRows(EdgeLibraries(rows)) == LibraryRowsOnly(rows)
    decreases |rows|
  {
    if |rows| > 0 {
      var init := rows[..|rows| - 1];
      LoadedRowsSplit(init);
      var r := rows[|rows| - 1];
      if r.seedmech {
        assert SeedRows(SeedNames(init) + [r.reactionlib]) == SeedRows(SeedNames(init)) + [r.(edge := false)];
      } else {
        assert EdgeRows(EdgeLibraries(init) + [(r.reactionlib, r.edge)]) == EdgeRows(EdgeLibraries(init)) + [r];
      }
    }
  }

  /**
   * Saving the form and loading the file again keeps the thermo libraries
   * and every reaction-library row, but lists the seed mechanisms first, each
   * with its edge box cleared, then the other rows unchanged.
   */
  lemma DatabasesRegrouped(form: DatabaseForm)
    ensures LoadedDatabases(SavedDatabases(form))
         == DatabaseForm(form.thermoLibs, SeedRowsCleared(form.reactionLibs) + LibraryRowsOnly(form.reactionLibs))
  {
    LoadedRowsSplit(form.reactionLibs);
  }

  /** Rows with no seed mechanism among them come back exactly as they were. */
  lemma {:induction false} NoSeedRowsKept(rows: seq<LibraryRow>)
    requires forall i :: 0 <= i < |rows| ==> !rows[i].seedmech
    ensures SeedRowsCleared(rows) + LibraryRowsOnly(rows) == rows
    decreases |rows|
  {
    if |rows| > 0 {
      NoSeedRowsKept(rows[..|rows| - 1]);
    }
  }

  // ---------------------------------------------------------------------
  // Sensitivity analysis of a reactor system
  // ---------------------------------------------------------------------

  /**
   * The sensitivity fields `loadForm` fills for a reactor system: the labels
   * of the sensitive species joined by commas with the system's threshold,
   * or the empty text and the default threshold 0.001 when there are none.
   */
  function SensitivityFields(labels: seq<string>, threshold: real): (string, real)
  {
    if |labels| == 0 then ("", 0.001) else (Join(",", labels), threshold)
  }

  /**
   * The species `saveForm` looks up for each comma-separated piece of the
   * sensitivity text, stripped; the first label missing from the species
   * dictionary raises KeyError, carried here as that label.
   */
  function LookUpLabels(pieces: seq<string>, known: set<string>): Result<seq<string>, string>
    decreases |pieces|
  {
    if |pieces| == 0 then Ok([])
    else
      var name := Strip(pieces[|pieces| - 1]);
      match LookUpLabels(pieces[..|pieces| - 1], known)
      case Err(e) => Err(e)
      case Ok(labels) => if name in known then Ok(labels + [name]) else Err(name)
  }

  /** The lookup succeeds exactly when every stripped piece is a known label. */
  lemma {:induction false} LookUpLabelsOk(pieces: seq<string>, known: set<string>)
    ensures LookUpLabels(pieces, known).Ok? <==> forall i :: 0 <= i < |pieces| ==> Strip(pieces[i]) in known
    decreases |pieces|
  {
    if |pieces| > 0 {
      var n := |pieces| - 1;
      LookUpLabelsOk(pieces[..n], known);
      assert forall i :: 0 <= i < n ==> pieces[i] == pieces[..n][i];
    }
  }

  /** A successful lookup gives the stripped pieces, in order. */
  lemma {:induction false} LookUpLabelsFound(pieces: seq<string>, known: set<string>)
    requires LookUpLabels(pieces, known).Ok?
    ensures LookUpLabels(pieces, known).value == seq(|pieces|, i requires 0 <= i < |pieces| => Strip(pieces[i]))
    decreases |pieces|
  {
    if |pieces| > 0 {
      var n := |pieces| - 1;
      LookUpLabelsFound(pieces[..n], known);
    }
  }

  /** A failed lookup reports the first piece that is not a known label. */
  lemma {:induction false} LookUpLabelsFirstMissing(pieces: seq<string>, known: set<string>)
    requires LookUpLabels(pieces, known).Err?
    ensures exists k :: 0 <= k < |pieces| && LookUpLabels(pieces, known).error == Strip(pieces[k]) && Strip(pieces[k]) !in known
                        && forall i :: 0 <= i < k ==> Strip(pieces[i]) in known
    decreases |pieces|
  {
    var n := |pieces| - 1;
    var init := pieces[..n];
    assert forall i :: 0 <= i < n ==> pieces[i] == init[i];
    if LookUpLabels(init, known).Err? {
      LookUpLabelsFirstMissing(init, known);
      var k :| 0 <= k < n && LookUpLabels(init, known).error == Strip(init[k]) && Strip(init[k]) !in known
               && forall i :: 0 <= i < k ==> Strip(init[i]) in known;
      assert pieces[k] == init[k];
    } else {
      LookUpLabelsOk(init, known);
    }
  }

  /** The sensitive species of a saved reactor system: none for an empty text. */
  function SensitiveLabels(text: string, known: set<string>): Result<seq<string>, string>
  {
    if text == "" then Ok([]) else LookUpLabels(Split(text, ","), known)
  }

  /** The lookup stops at the first missing label: the pieces after it change nothing. */
  lemma {:induction false} LookUpStops(pieces: seq<string>, k: nat, known: set<string>)
    requires k <= |pieces| && LookUpLabels(pieces[..k], known).Err?
    ensures LookUpLabels(pieces, known) == LookUpLabels(pieces[..k], known)
    decreases |pieces|
  {
    if k < |pieces| {
      var init := pieces[..|pieces| - 1];
      assert init[..k] == pieces[..k];
      LookUpStops(init, k, known);
    } else {
      assert pieces[..k] == pieces;
    }
  }

  /** `saveForm`'s loop over the pieces of the sensitivity text. */
  method SensitiveSpecies(text: string, known: set<string>) returns (r: Result<seq<string>, string>)
    ensures r == SensitiveLabels(text, known)
  {
    if text == "" {
      return Ok([]);
    }
    var sensitivity := Split(text, ",");
    var sensitiveSpecies: seq<string> := [];
    for k := 0 to |sensitivity|
      invariant LookUpLabels(sensitivity[..k], known) == Ok(sensitiveSpecies)
    {
      assert sensitivity[..k + 1][..k] == sensitivity[..k];
      var spec := Strip(sensitivity[k]);
      if spec !in known {
        LookUpStops(sensitivity, k + 1, known);
        return Err(spec);
      }
      sensitiveSpecies := sensitiveSpecies + [spec];
    }
    assert sensitivity[..|sensitivity|] == sensitivity;
    r := Ok(sensitiveSpecies);
  }

  /** Splitting comma-joined pieces that hold no comma gives the pieces back. */
  lemma {:induction false} SplitJoinedLabels(parts: seq<string>)
    requires |parts| > 0
    requires forall i :: 0 <= i < |parts| ==> ',' !in parts[i]
    ensures Split(Join(",", parts), ",") == parts
    decreases |parts|
  {
    if |parts| == 1 {
      SplitMissingChar(parts[0], ',');
    } else {
      SplitJoinedLabels(parts[1..]);
      assert Join(",", parts) == parts[0] + [','] + Join(",", parts[1..]);
      SplitAtFirst(parts[0], ',', Join(",", parts[1..]));
      assert parts == [parts[0]] + parts[1..];
    }
  }

  /** Joined pieces are not empty when the first piece is not. */
  lemma JoinedNotEmpty(parts: seq<string>)
    requires |parts| > 0 && parts[0] != ""
    ensures Join(",", parts) != ""
  {
    if |parts| > 1 {
      assert Join(",", parts) == parts[0] + "," + Join(",", parts[1..]);
    }
  }

  /**
   * Sensitive species survive a load and a save when their labels are
   * nonempty, hold no comma and no surrounding whitespace, and are in the
   * species dictionary; the threshold survives with them. With no sensitive
   * species the threshold falls back to 0.001.
   */
  lemma SensitivityRoundTrip(labels: seq<string>, threshold: real, known: set<string>)
    requires forall i :: 0 <= i < |labels| ==> labels[i] != "" && ',' !in labels[i] && Strip(labels[i]) == labels[i] && labels[i] in known
    ensures SensitiveLabels(SensitivityFields(labels, threshold).0, known) == Ok(labels)
    ensures SensitivityFields(labels, threshold).1 == if |labels| == 0 then 0.001 else threshold
  {
    if |labels| > 0 {
      JoinedNotEmpty(labels);
      SplitJoinedLabels(labels);
      LookUpLabelsOk(labels, known);
      LookUpLabelsFound(labels, known);
      assert seq(|labels|, i requires 0 <= i < |labels| => Strip(labels[i])) == labels;
    }
  }

  // ---------------------------------------------------------------------
  // Pressure-dependence interpolation model
  // ---------------------------------------------------------------------

  /** The interpolation tuple of a pressure-dependence job: its name and the entries after it. */
  datatype Interpolation = Interpolation(name: string, rest: seq<int>)

  /** The interpolation fields of the form as posted. */
  datatype InterpolationForm = InterpolationForm(interpolation: string, tempBasis: int, pBasis: int)

  /** The interpolation fields `loadForm` fills; the basis sizes only for Chebyshev. */
  datatype InterpolationInitial = InterpolationInitial(interpolation: string, tempBasis: Option<int>, pBasis: Option<int>)

  /** The tuple had no entry at the index read: Python's IndexError. */
  datatype IndexError = IndexError

  /**
   * `loadForm`: the name lower-cased; for Chebyshev, the second and third
   * entries of the tuple as the temperature and pressure basis sizes.
   */
  function LoadInterpolation(m: Interpolation): (r: Result<InterpolationInitial, IndexError>)
    ensures r.Err? <==> Lower(m.name) == "chebyshev" && |m.rest| < 2
    ensures r.Ok? ==> r.value.interpolation == Lower(m.name)
    ensures r.Ok? ==> (r.value.tempBasis.Some? <==> Lower(m.name) == "chebyshev")
    ensures r.Ok? ==> (r.value.pBasis.Some? <==> Lower(m.name) == "chebyshev")
  {
    var name := Lower(m.name);
    if name == "chebyshev" then
      if |m.rest| < 2 then Err(IndexError)
      else Ok(InterpolationInitial(name, Some(m.rest[0]), Some(m.rest[1])))
    else Ok(InterpolationInitial(name, None, None))
  }

  /** `saveForm`: (name, temperature basis, pressure basis) for exactly `chebyshev`, (name,) otherwise. */
  function SaveInterpolation(f: InterpolationForm): (m: Interpolation)
    ensures m.name == f.interpolation
    ensures |m.rest| == if f.interpolation == "chebyshev" then 2 else 0
  {
    if f.interpolation == "chebyshev" then Interpolation(f.interpolation, [f.tempBasis, f.pBasis])
    else Interpolation(f.interpolation, [])
  }

  /**
   * A form saved and loaded again shows the same interpolation, and the
   * basis sizes exactly when it is Chebyshev; names are lower case on the
   * form, as its choices are.
   */
  lemma InterpolationRoundTrip(f: InterpolationForm)
    requires LowerCase(f.interpolation)
    ensures LoadInterpolation(SaveInterpolation(f))
         == Ok(if f.interpolation == "chebyshev"
               then InterpolationInitial(f.interpolation, Some(f.tempBasis), Some(f.pBasis))
               else InterpolationInitial(f.interpolation, None, None))
  {
    LowerOfLowerCase(f.interpolation);
  }

  /**
   * An input file's interpolation model in lower case, with two basis sizes
   * for Chebyshev and none otherwise, is saved back unchanged from the form
   * it loads into, whatever the form holds in the basis fields it leaves
   * unset.
   */
  lemma InterpolationReload(m: Interpolation, tempDefault: int, pDefault: int)
    requires LowerCase(m.name)
    requires |m.rest| == if m.name == "chebyshev" then 2 else 0
    ensures LoadInterpolation(m).Ok?
    ensures var i := LoadInterpolation(m).value;
            SaveInterpolation(InterpolationForm(i.interpolation, if i.tempBasis.Some? then i.tempBasis.value else tempDefault,
                                                if i.pBasis.Some? then i.pBasis.value else pDefault)) == m
  {
    LowerOfLowerCase(m.name);
    if m.name == "chebyshev" {
      assert m.rest == [m.rest[0], m.rest[1]];
    }
  }

  // ---------------------------------------------------------------------
  // Restart period
  // ---------------------------------------------------------------------

  /** A value with its units. */
  datatype Quantity = Quantity(value: real, units: string)

  /** `saveForm`: the posted period with its units, or None when the field is empty or zero. */
  function SaveRestartPeriod(period: Option<real>, units: string): (q: Option<Quantity>)
    ensures q.Some? <==> period.Some? && period.value != 0.0
    ensures q.Some? ==> LoadRestartPeriod(q) == Some((period.value, units))
  {
    if period.Some? && period.value != 0.0 then Some(Quantity(period.value, units)) else None
  }

  /** `loadForm`: the value and units of a restart period that is set; nothing for None. */
  function LoadRestartPeriod(q: Option<Quantity>): Option<(real, string)>
  {
    match q
    case None => None
    case Some(x) => Some((x.value, x.units))
  }

  // ---------------------------------------------------------------------
  // Species constraints
  // ---------------------------------------------------------------------

  /** The three boxes of the allowed-species constraint. */
  datatype AllowedBox = InputSpecies | SeedMechanisms | ReactionLibraries

  /** The name each box is written as in the input file. */
  function AllowedName(b: AllowedBox): string
  {
    match b
    case InputSpecies => "input species"
    case SeedMechanisms => "seed mechanisms"
    case ReactionLibraries => "reaction libraries"
  }

  /** `allowed_dict[name.lower()]`: the box a name stands for, None for KeyError. */
  function AllowedBoxOf(name: string): Option<AllowedBox>
  {
    var n := Lower(name);
    if n == "input species" then Some(InputSpecies)
    else if n == "reaction libraries" then Some(ReactionLibraries)
    else if n == "seed mechanisms" then Some(SeedMechanisms)
    else None
  }

  /** A name stands for a box exactly when, lower-cased, it is that box's name. */
  lemma AllowedBoxOfMeaning(name: string, b: AllowedBox)
    ensures AllowedBoxOf(name) == Some(b) <==> Lower(name) == AllowedName(b)
  {
  }

  /** A value in the species-constraints dictionary; `Unset` is Python's `None`. */
  datatype Setting = Names(names: seq<string>) | Limit(n: int) | Switch(on: bool) | Unset

  /** Why loading the species constraints raises. */
  datatype ConstraintError = AllowedNotAList | UnknownAllowedName(name: string)

  /**
   * The boxes `loadForm` ticks for the names of the `allowed` list, one name
   * at a time; the first name that is not one of the three raises KeyError.
   */
  function TickedBoxes(names: seq<string>): Result<set<AllowedBox>, ConstraintError>
    decreases |names|
  {
    if |names| == 0 then Ok({})
    else
      var name := names[|names| - 1];
      match TickedBoxes(names[..|names| - 1])
      case Err(e) => Err(e)
      case Ok(ticked) =>
        match AllowedBoxOf(name)
        case None => Err(UnknownAllowedName(name))
        case Some(b) => Ok(ticked + {b})
  }

  /** Ticking succeeds exactly when every name stands for a box. */
  lemma {:induction false} TickedBoxesOk(names: seq<string>)
    ensures TickedBoxes(names).Ok? <==> forall i :: 0 <= i < |names| ==> AllowedBoxOf(names[i]).Some?
    decreases |names|
  {
    if |names| > 0 {
      var n := |names| - 1;
      TickedBoxesOk(names[..n]);
      assert forall i :: 0 <= i < n ==> names[i] == names[..n][i];
    }
  }

  /** A successful ticking ticks exactly the boxes named. */
  lemma {:induction false} TickedBoxesContents(names: seq<string>, b: AllowedBox)
    requires TickedBoxes(names).Ok?
    ensures b in TickedBoxes(names).value <==> exists i :: 0 <= i < |names| && AllowedBoxOf(names[i]) == Some(b)
    decreases |names|
  {
    if |names| > 0 {
      var n := |names| - 1;
      var init := names[..n];
      TickedBoxesContents(init, b);
      if b in TickedBoxes(init).value {
        var i :| 0 <= i < n && AllowedBoxOf(init[i]) == Some(b);
        assert names[i] == init[i];
      }
      if exists i :: 0 <= i < |names| && AllowedBoxOf(names[i]) == Some(b) {
        var i :| 0 <= i < |names| && AllowedBoxOf(names[i]) == Some(b);
        if i < n {
          assert names[i] == init[i];
        }
      }
    }
  }

  /** A failed ticking reports the first name that stands for no box. */
  lemma {:induction false} TickedBoxesFirstError(names: seq<string>)
    requires TickedBoxes(names).Err?
    ensures exists k :: 0 <= k < |names| && TickedBoxes(names).error == UnknownAllowedName(names[k]) && AllowedBoxOf(names[k]).None?
                        && forall i :: 0 <= i < k ==> AllowedBoxOf(names[i]).Some?
    decreases |names|
  {
    var n := |names| - 1;
    var init := names[..n];
    assert forall i :: 0 <= i < n ==> names[i] == init[i];
    if TickedBoxes(init).Err? {
      TickedBoxesFirstError(init);
      var k :| 0 <= k < n && TickedBoxes(init).error == UnknownAllowedName(init[k]) && AllowedBoxOf(init[k]).None?
               && forall i :: 0 <= i < k ==> AllowedBoxOf(init[i]).Some?;
      assert names[k] == init[k];
    } else {
      TickedBoxesOk(init);
    }
  }

  /** Ticking stops at the first unknown name: the names after it change nothing. */
  lemma {:induction false} TickingStops(names: seq<string>, k: nat)
    requires k <= |names| && TickedBoxes(names[..k]).Err?
    ensures TickedBoxes(names) == TickedBoxes(names[..k])
    decreases |names|
  {
    if k < |names| {
      var init := names[..|names| - 1];
      assert init[..k] == names[..k];
      TickingStops(init, k);
    } else {
      assert names[..k] == names;
    }
  }

  /** `loadForm`'s loop over the `allowed` list. */
  method TickAllowed(names: seq<string>) returns (r: Result<set<AllowedBox>, ConstraintError>)
    ensures r == TickedBoxes(names)
  {
    var ticked: set<AllowedBox> := {};
    for k := 0 to |names|
      invariant TickedBoxes(names[..k]) == Ok(ticked)
    {
      assert names[..k + 1][..k] == names[..k];
      var field := AllowedBoxOf(names[k]);
      if field.None? {
        TickingStops(names, k + 1);
        return Err(UnknownAllowedName(names[k]));
      }
      ticked := ticked + {field.value};
    }
    assert names[..|names|] == names;
    r := Ok(ticked);
  }

  /** The name is that of a ticked box. */
  predicate NamesTicked(name: string, ticked: set<AllowedBox>)
  {
    exists b :: b in ticked && name == AllowedName(b)
  }

  /** `saveForm`: the names of the ticked boxes, in the order input species, seed mechanisms, reaction libraries. */
  function AllowedList(ticked: set<AllowedBox>): (names: seq<string>)
    ensures forall i :: 0 <= i < |names| ==> NamesTicked(names[i], ticked)
    ensures forall b :: b in ticked ==> AllowedName(b) in names
    ensures forall i, j :: 0 <= i < j < |names| ==> names[i] != names[j]
  {
    (if InputSpecies in ticked then ["input species"] else [])
    + (if SeedMechanisms in ticked then ["seed mechanisms"] else [])
    + (if ReactionLibraries in ticked then ["reaction libraries"] else [])
  }

  /** The seven atom and radical maxima of the form, which default to `None`. */
  const MaximumKeys: set<string> := {
    "maximumCarbonAtoms", "maximumOxygenAtoms", "maximumNitrogenAtoms", "maximumSiliconAtoms",
    "maximumSulfurAtoms", "maximumHeavyAtoms", "maximumRadicalElectrons"}

  /** Every limit field of the form: the seven maxima and `allowSingletO2`, which defaults to `False`. */
  const LimitKeys: set<string> := MaximumKeys + {"allowSingletO2"}

  /** The model default of a limit field. */
  function LimitDefault(key: string): (v: Setting)
    ensures key == "allowSingletO2" ==> v == Switch(false)
    ensures key in MaximumKeys ==> v == Unset
  {
    if key == "allowSingletO2" then Switch(false) else Unset
  }

  /**
   * The species-constraint part of the form: the on/off switch, the ticked
   * boxes, and the initial values `loadForm` copies, by key.
   */
  datatype ConstraintFields = ConstraintFields(on: bool, ticked: set<AllowedBox>, initial: map<string, Setting>)

  /** The form `loadForm` fills when the input file sets no species constraint. */
  const ConstraintsOff := ConstraintFields(false, {}, map[])

  /**
   * `loadForm`: an empty dictionary turns the constraints off; otherwise they
   * are on, the `allowed` list ticks its boxes (a value that is not a list
   * raises) and every other entry is copied as an initial value.
   */
  function LoadConstraints(sc: map<string, Setting>): (r: Result<ConstraintFields, ConstraintError>)
    ensures r.Ok? ==> (r.value.on <==> |sc| > 0)
    ensures "allowed" in sc && !sc["allowed"].Names? ==> r == Err(AllowedNotAList)
    ensures r.Ok? && r.value.on ==> r.value.initial == sc - {"allowed"}
  {
    if |sc| == 0 then Ok(ConstraintsOff)
    else
      var initial := sc - {"allowed"};
      if "allowed" !in sc then Ok(ConstraintFields(true, {}, initial))
      else
        match sc["allowed"]
        case Names(names) =>
          (match TickedBoxes(names)
           case Ok(ticked) => Ok(ConstraintFields(true, ticked, initial))
           case Err(e) => Err(e))
        case _ => Err(AllowedNotAList)
  }

  /**
   * What a limit field submits unchanged: its initial value, or its default
   * when the input file did not set it.
   */
  function Submitted(initial: map<string, Setting>, key: string): (v: Setting)
    ensures key in initial ==> v == initial[key]
    ensures key !in initial ==> v == LimitDefault(key)
  {
    if key in initial then initial[key] else LimitDefault(key)
  }

  /**
   * `saveForm`, with every field submitted as `loadForm` filled it: when the
   * switch is on, the names of the ticked boxes under `allowed` and each of
   * the eight limit fields, and no other key; when it is off, the empty
   * dictionary a new job starts with.
   */
  function SaveConstraints(f: ConstraintFields): (sc: map<string, Setting>)
    ensures f.on ==> sc.Keys == LimitKeys + {"allowed"} && sc["allowed"] == Names(AllowedList(f.ticked))
    ensures f.on ==> forall k :: k in LimitKeys ==> sc[k] == Submitted(f.initial, k)
    ensures !f.on ==> sc == map[]
  {
    if f.on then (map k | k in LimitKeys :: Submitted(f.initial, k))["allowed" := Names(AllowedList(f.ticked))]
    else map[]
  }

  /** Each box's own name stands for that box. */
  lemma AllowedNameRead(b: AllowedBox)
    ensures AllowedBoxOf(AllowedName(b)) == Some(b)
  {
    match b
    case InputSpecies => LowerOfLowerCase("input species");
    case SeedMechanisms => LowerOfLowerCase("seed mechanisms");
    case ReactionLibraries => LowerOfLowerCase("reaction libraries");
  }

  /** Loading the saved names ticks exactly the boxes that were ticked. */
  lemma AllowedRoundTrip(ticked: set<AllowedBox>)
    ensures TickedBoxes(AllowedList(ticked)) == Ok(ticked)
  {
    AllowedNameRead(InputSpecies);
    AllowedNameRead(SeedMechanisms);
    AllowedNameRead(ReactionLibraries);
    var names := AllowedList(ticked);
    forall i | 0 <= i < |names|
      ensures AllowedBoxOf(names[i]).Some?
    {
      var x :| x in ticked && names[i] == AllowedName(x);
      AllowedNameRead(x);
    }
    TickedBoxesOk(names);
    var r := TickedBoxes(names);
    forall b
      ensures b in r.value <==> b in ticked
    {
      TickedBoxesContents(names, b);
      if b in r.value {
        var i :| 0 <= i < |names| && AllowedBoxOf(names[i]) == Some(b);
        var x :| x in ticked && names[i] == AllowedName(x);
        AllowedNameRead(x);
      } else if b in ticked {
        var i :| 0 <= i < |names| && names[i] == AllowedName(b);
        AllowedNameRead(b);
      }
    }
    assert r.value == ticked;
  }

  /**
   * Species constraints survive a save and a load: a form that is on, with
   * its eight limit fields and nothing else, comes back with the same boxes
   * ticked and the same limits; a form that is off comes back off with
   * nothing set.
   */
  lemma ConstraintsRoundTrip(f: ConstraintFields)
    requires f.on ==> f.initial.Keys == LimitKeys
    ensures LoadConstraints(SaveConstraints(f)) == Ok(if f.on then f else ConstraintsOff)
  {
    if f.on {
      var sc := SaveConstraints(f);
      AllowedRoundTrip(f.ticked);
      assert sc - {"allowed"} == f.initial;
    }
  }

  /**
   * Species constraints of an input file that load without error are saved
   * back as the eight limit fields, those the file leaves out at their
   * defaults and every other key dropped, beside an `allowed` list that
   * holds each box named once, in the fixed order, spelled in lower case. A
   * file that sets exactly the eight limits comes back unchanged but for
   * `allowed`.
   */
  lemma ConstraintsReload(sc: map<string, Setting>)
    requires LoadConstraints(sc).Ok?
    ensures var f := LoadConstraints(sc).value; var saved := SaveConstraints(f);
      && (|sc| == 0 ==> saved == sc)
      && (|sc| > 0 ==> saved.Keys == LimitKeys + {"allowed"} && saved["allowed"] == Names(AllowedList(f.ticked))
                       && forall k :: k in LimitKeys ==> saved[k] == (if k in sc then sc[k] else LimitDefault(k)))
    ensures var f := LoadConstraints(sc).value;
      sc.Keys - {"allowed"} == LimitKeys ==> SaveConstraints(f) == sc["allowed" := Names(AllowedList(f.ticked))]
  {
    var f := LoadConstraints(sc).value;
    if |sc| == 0 {
      assert sc == map[];
    } else {
      var saved := SaveConstraints(f);
      forall k | k in LimitKeys
        ensures saved[k] == (if k in sc then sc[k] else LimitDefault(k))
      {
        assert k != "allowed";
      }
      if sc.Keys - {"allowed"} == LimitKeys {
        assert saved == sc["allowed" := Names(AllowedList(f.ticked))];
      }
    }
  }
}
