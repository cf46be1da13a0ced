/**
 * The database wrapper of the web site: the modification times it records
 * for the database files, which decide whether a section of the database is
 * read again; the preferred order of the thermo libraries; and the lookup of
 * a database component by section and subsection. The file system is a
 * parameter: the files that exist with their modification times, and the
 * files a directory walk lists. Reading the database itself is RMG-Py's and
 * is recorded only as the list of sections read.
 */
module DbTools {
  import opened Common
  import PyText

  type Path = string

  /** The files that exist (`os.path.isfile`), each with its modification time (`os.stat(path).st_mtime`). */
  type Files = map<Path, int>

  /** Recorded modification times: the `timestamps` dictionary. */
  type Stamps = map<Path, int>

  // ---------------------------------------------------------------------
  // Modification checks
  // ---------------------------------------------------------------------

  /**
   * `is_file_modified`: a path that is not a file is modified when it was
   * recorded; a file is modified when it was not recorded or its time
   * differs from the recorded one, in either direction.
   */
  function FileModified(ts: Stamps, files: Files, path: Path): (r: bool)
    ensures r <==> (path in ts || path in files) && !(path in ts && path in files && ts[path] == files[path])
  {
    if path !in files then path in ts
    else if path !in ts then true
    else files[path] != ts[path]
  }

  /** What `os.walk(dirpath)` lists: distinct existing files, each with a path that starts with `dirpath`. */
  predicate Walk(files: Files, dirpath: Path, walked: seq<Path>)
  {
    (forall i :: 0 <= i < |walked| ==> walked[i] in files && PyText.StartsWith(walked[i], dirpath))
    && (forall i, j :: 0 <= i < j < |walked| ==> walked[i] != walked[j])
  }

  /** The recorded paths that start with `dirpath`: the initial `to_check` of `is_dir_modified`. */
  function Tracked(ts: Stamps, dirpath: Path): set<Path>
  {
    set p | p in ts && PyText.StartsWith(p, dirpath)
  }

  /** The meaning of `is_dir_modified`: some walked file is modified, or some recorded path under `dirpath` is. */
  predicate DirModified(ts: Stamps, files: Files, dirpath: Path, walked: seq<Path>)
  {
    (exists i :: 0 <= i < |walked| && FileModified(ts, files, walked[i]))
    || (exists p :: p in Tracked(ts, dirpath) && FileModified(ts, files, p))
  }

  /** The times `reset_dir_timestamps` records: each walked file from index `k` on gets its current time. */
  function Stamped(ts: Stamps, files: Files, walked: seq<Path>, k: nat): (r: Stamps)
    requires k <= |walked|
    requires forall i :: 0 <= i < |walked| ==> walked[i] in files
    decreases |walked| - k
  {
    if k == |walked| then ts
    else Stamped(ts[walked[k] := files[walked[k]]], files, walked, k + 1)
  }

  /** Recording the walked files sets each of them to its current time and leaves every other record alone. */
  lemma {:induction false} StampedValues(ts: Stamps, files: Files, walked: seq<Path>, k: nat, p: Path)
    requires k <= |walked|
    requires forall i :: 0 <= i < |walked| ==> walked[i] in files
    ensures p in walked[k..] ==> p in Stamped(ts, files, walked, k) && Stamped(ts, files, walked, k)[p] == files[p]
    ensures p !in walked[k..] ==> (p in Stamped(ts, files, walked, k) <==> p in ts)
    ensures p !in walked[k..] && p in ts ==> Stamped(ts, files, walked, k)[p] == ts[p]
    decreases |walked| - k
  {
    if k < |walked| {
      assert walked[k..] == [walked[k]] + walked[k + 1..];
      StampedValues(ts[walked[k] := files[walked[k]]], files, walked, k + 1, p);
    }
  }

  /** After the walked files are recorded, none of them is modified. */
  lemma StampedWalkUnmodified(ts: Stamps, files: Files, dirpath: Path, walked: seq<Path>, i: nat)
    requires Walk(files, dirpath, walked) && i < |walked|
    ensures !FileModified(Stamped(ts, files, walked, 0), files, walked[i])
  {
    assert walked[0..] == walked;
    StampedValues(ts, files, walked, 0, walked[i]);
  }

  /**
   * After recording, a directory is unmodified exactly when every recorded
   * path under it that the walk did not list still exists with its recorded
   * time.
   */
  lemma ResetClean(ts: Stamps, files: Files, dirpath: Path, walked: seq<Path>)
    requires Walk(files, dirpath, walked)
    ensures !DirModified(Stamped(ts, files, walked, 0), files, dirpath, walked)
      <==> forall p :: p in Tracked(ts, dirpath) && p !in walked ==> p in files && files[p] == ts[p]
  {
    var after := Stamped(ts, files, walked, 0);
    assert walked[0..] == walked;
    forall i | 0 <= i < |walked|
      ensures !FileModified(after, files, walked[i])
    {
      StampedWalkUnmodified(ts, files, dirpath, walked, i);
    }
    forall p
      ensures p in Tracked(after, dirpath) <==> p in Tracked(ts, dirpath) || p in walked
      ensures p in Tracked(ts, dirpath) && p !in walked ==> (FileModified(after, files, p) <==> !(p in files && files[p] == ts[p]))
    {
      StampedValues(ts, files, walked, 0, p);
    }
  }

  /**
   * A recorded file under a directory that has since been deleted keeps the
   * directory modified after it is read again and its times are recorded:
   * `reset_dir_timestamps` never forgets it, so every later `load` reads the
   * section again.
   */
  lemma StaleEntryKeepsReloading(ts: Stamps, files: Files, dirpath: Path, walked: seq<Path>, gone: Path)
    requires Walk(files, dirpath, walked)
    requires gone in Tracked(ts, dirpath) && gone !in files
    ensures DirModified(ts, files, dirpath, walked)
    ensures DirModified(Stamped(ts, files, walked, 0), files, dirpath, walked)
  {
    assert FileModified(ts, files, gone);
    assert gone !in walked;
    ResetClean(ts, files, dirpath, walked);
  }

  /** The records under `dirpath` that the walk no longer lists, forgotten. */
  function Pruned(ts: Stamps, dirpath: Path, walked: seq<Path>): (r: Stamps)
    ensures forall p :: p in r <==> p in ts && (p in walked || !PyText.StartsWith(p, dirpath))
    ensures forall p :: p in r ==> r[p] == ts[p]
  {
    map p | p in ts && (p in walked || !PyText.StartsWith(p, dirpath)) :: ts[p]
  }

  /** Recording a directory's times with the vanished records forgotten first. */
  function PrunedStamped(ts: Stamps, files: Files, dirpath: Path, walked: seq<Path>): Stamps
    requires Walk(files, dirpath, walked)
  {
    Stamped(Pruned(ts, dirpath, walked), files, walked, 0)
  }

  /** With vanished records forgotten, a directory is unmodified right after its times are recorded. */
  lemma PrunedResetIsClean(ts: Stamps, files: Files, dirpath: Path, walked: seq<Path>)
    requires Walk(files, dirpath, walked)
    ensures !DirModified(PrunedStamped(ts, files, dirpath, walked), files, dirpath, walked)
  {
    ResetClean(Pruned(ts, dirpath, walked), files, dirpath, walked);
  }

  // ---------------------------------------------------------------------
  // Library order
  // ---------------------------------------------------------------------

  /** The thermo libraries looked up first, best first. */
  const PreferredOrder: seq<string> :=
    ["primaryThermoLibrary", "DFT_QCI_thermo", "GRI-Mech3.0", "CBS_QB3_1dHR", "KlippensteinH2O2"]

  predicate Distinct(s: seq<string>)
  {
    forall i, j :: 0 <= i < j < |s| ==> s[i] != s[j]
  }

  /** The preferred labels that are present, in preferred order. */
  function Present(preferred: seq<string>, order: seq<string>): seq<string>
  {
    if |preferred| == 0 then []
    else (if preferred[0] in order then [preferred[0]] else []) + Present(preferred[1..], order)
  }

  /** The labels of `order` that are not preferred, in their original order. */
  function Others(preferred: seq<string>, order: seq<string>): seq<string>
  {
    if |order| == 0 then []
    else (if order[0] in preferred then [] else [order[0]]) + Others(preferred, order[1..])
  }

  /** The present labels are the preferred ones that occur in the order. */
  lemma {:induction false} PresentMembers(preferred: seq<string>, order: seq<string>, x: string)
    ensures x in Present(preferred, order) <==> x in preferred && x in order
  {
    if |preferred| > 0 {
      assert preferred == [preferred[0]] + preferred[1..];
      PresentMembers(preferred[1..], order, x);
    }
  }

  /** The other labels are those of the order that are not preferred. */
  lemma {:induction false} OthersMembers(preferred: seq<string>, order: seq<string>, x: string)
    ensures x in Others(preferred, order) <==> x in order && x !in preferred
  {
    if |order| > 0 {
      assert order == [order[0]] + order[1..];
      OthersMembers(preferred, order[1..], x);
    }
  }

  /** Appending each label of `xs` from index `k` on that `acc` does not hold yet. */
  function AppendMissing(acc: seq<string>, xs: seq<string>, k: nat): seq<string>
    requires k <= |xs|
    decreases |xs| - k
  {
    if k == |xs| then acc
    else AppendMissing(if xs[k] in acc then acc else acc + [xs[k]], xs, k + 1)
  }

  /** The reordering of the thermo libraries after they are read. */
  function Reordered(preferred: seq<string>, order: seq<string>): seq<string>
  {
    AppendMissing(Present(preferred, order), order, 0)
  }

  /** The first preferred label, if present, then the present labels among the rest. */
  lemma PresentStep(preferred: seq<string>, k: nat, order: seq<string>)
    requires k < |preferred|
    ensures Present(preferred[k..], order)
            == (if preferred[k] in order then [preferred[k]] else []) + Present(preferred[k + 1..], order)
  {
    assert preferred[k..][1..] == preferred[k + 1..];
  }

  /** The reordering step of `load`: the preferred libraries that are present, then the others. */
  method ReorderLibraries(preferred: seq<string>, order: seq<string>) returns (newOrder: seq<string>)
    ensures newOrder == Reordered(preferred, order)
  {
    newOrder := KeepPresent(preferred, order);
    newOrder := AppendRest(newOrder, order);
  }

  /** The first loop of the reordering: the preferred labels that occur in the order, in preferred order. */
  method KeepPresent(preferred: seq<string>, order: seq<string>) returns (kept: seq<string>)
    ensures kept == Present(preferred, order)
  {
    kept := [];
    assert preferred[0..] == preferred;
    for k := 0 to |preferred|
      invariant kept + Present(preferred[k..], order) == Present(preferred, order)
    {
      PresentStep(preferred, k, order);
      var head: seq<string> := if preferred[k] in order then [preferred[k]] else [];
      assert kept + (head + Present(preferred[k + 1..], order)) == Present(preferred, order);
      kept := kept + head;
    }
    assert preferred[|preferred|..] == [];
  }

  /** The second loop of the reordering: every label of the order not yet held, appended in turn. */
  method AppendRest(start: seq<string>, order: seq<string>) returns (out: seq<string>)
    ensures out == AppendMissing(start, order, 0)
  {
    out := start;
    for k := 0 to |order|
      invariant AppendMissing(out, order, k) == AppendMissing(start, order, 0)
    {
      if order[k] !in out {
        out := out + [order[k]];
      }
    }
  }

  /** The labels of `order` from index `k` on that are not preferred. */
  lemma OthersStep(preferred: seq<string>, xs: seq<string>, k: nat)
    requires k < |xs|
    ensures Others(preferred, xs[k..]) == (if xs[k] in preferred then [] else [xs[k]]) + Others(preferred, xs[k + 1..])
  {
    assert xs[k..][1..] == xs[k + 1..];
  }

  /** With distinct labels, appending the missing ones appends exactly those not held, in order. */
  lemma {:induction false} AppendMissingFilters(acc: seq<string>, xs: seq<string>, k: nat, preferred: seq<string>)
    requires k <= |xs| && Distinct(xs)
    requires forall i :: k <= i < |xs| ==> (xs[i] in acc <==> xs[i] in preferred)
    ensures AppendMissing(acc, xs, k) == acc + Others(preferred, xs[k..])
    decreases |xs| - k
  {
    if k < |xs| {
      OthersStep(preferred, xs, k);
      var next := if xs[k] in acc then acc else acc + [xs[k]];
      forall i | k + 1 <= i < |xs|
        ensures xs[i] in next <==> xs[i] in preferred
      {
        assert xs[i] != xs[k];
      }
      AppendMissingFilters(next, xs, k + 1, preferred);
    } else {
      assert xs[k..] == [];
    }
  }

  /**
   * For distinct library labels the new order is the preferred labels that
   * are present, in preferred order, followed by the other labels in their
   * original order.
   */
  lemma ReorderedShape(preferred: seq<string>, order: seq<string>)
    requires Distinct(order)
    ensures Reordered(preferred, order) == Present(preferred, order) + Others(preferred, order)
  {
    assert order[0..] == order;
    forall i | 0 <= i < |order|
      ensures order[i] in Present(preferred, order) <==> order[i] in preferred
    {
      PresentMembers(preferred, order, order[i]);
    }
    AppendMissingFilters(Present(preferred, order), order, 0, preferred);
  }

  /** A distinct sequence counts each of its elements once. */
  lemma {:induction false} DistinctCount(s: seq<string>, x: string)
    requires Distinct(s)
    ensures multiset(s)[x] == if x in s then 1 else 0
  {
    if |s| > 0 {
      assert s == [s[0]] + s[1..];
      DistinctCount(s[1..], x);
    }
  }

  lemma {:induction false} PresentDistinct(preferred: seq<string>, order: seq<string>)
    requires Distinct(preferred)
    ensures Distinct(Present(preferred, order))
  {
    if |preferred| > 0 {
      PresentDistinct(preferred[1..], order);
      assert preferred[0] !in preferred[1..];
      PresentMembers(preferred[1..], order, preferred[0]);
    }
  }

  lemma {:induction false} OthersDistinct(preferred: seq<string>, order: seq<string>)
    requires Distinct(order)
    ensures Distinct(Others(preferred, order))
  {
    if |order| > 0 {
      OthersDistinct(preferred, order[1..]);
      assert order[0] !in order[1..];
      OthersMembers(preferred, order[1..], order[0]);
    }
  }

  /** For distinct labels the new order is a permutation of the old one. */
  lemma ReorderedIsPermutation(preferred: seq<string>, order: seq<string>)
    requires Distinct(preferred) && Distinct(order)
    ensures multiset(Reordered(preferred, order)) == multiset(order)
  {
    ReorderedShape(preferred, order);
    var a := Present(preferred, order);
    var b := Others(preferred, order);
    PresentDistinct(preferred, order);
    OthersDistinct(preferred, order);
    forall x
      ensures multiset(a + b)[x] == multiset(order)[x]
    {
      DistinctCount(a, x);
      DistinctCount(b, x);
      PresentMembers(preferred, order, x);
      OthersMembers(preferred, order, x);
      DistinctCount(order, x);
    }
    assert multiset(a + b) == multiset(order);
  }

  // ---------------------------------------------------------------------
  // Loading
  // ---------------------------------------------------------------------

  /** The sections `load` can read, each from its own directory. */
  datatype Section =
    | ThermoDepository | ThermoLibraries | ThermoGroups | Surface
    | TransportLibraries | TransportGroups | Solvation
    | KineticsLibraries | KineticsFamilies | Statmech

  /** `component in [name, '']`, the test `load` applies to its component and section arguments. */
  predicate Selects(arg: string, name: string)
  {
    arg == name || arg == ""
  }

  /** The component and section names that select each section; solvation and statmech ignore the section. */
  predicate Considered(s: Section, component: string, section: string)
  {
    match s
    case ThermoDepository => Selects(component, "thermo") && Selects(section, "depository")
    case ThermoLibraries => Selects(component, "thermo") && Selects(section, "libraries")
    case ThermoGroups => Selects(component, "thermo") && Selects(section, "groups")
    case Surface => Selects(component, "thermo") && Selects(section, "surface")
    case TransportLibraries => Selects(component, "transport") && Selects(section, "libraries")
    case TransportGroups => Selects(component, "transport") && Selects(section, "groups")
    case Solvation => Selects(component, "solvation")
    case KineticsLibraries => Selects(component, "kinetics") && Selects(section, "libraries")
    case KineticsFamilies => Selects(component, "kinetics") && Selects(section, "families")
    case Statmech => Selects(component, "statmech")
  }

  /** Every section, in the order `load` considers them. */
  const AllSections: seq<Section> := [
    ThermoDepository, ThermoLibraries, ThermoGroups, Surface, TransportLibraries,
    TransportGroups, Solvation, KineticsLibraries, KineticsFamilies, Statmech]

  /** Every thermo section: what `load('thermo', '')` considers. */
  const ThermoPlan: seq<Section> := [ThermoDepository, ThermoLibraries, ThermoGroups, Surface]

  /** `load()` with no arguments considers every section, and `load('thermo', '')` exactly the thermo ones. */
  lemma PlanChoices(s: Section)
    ensures Considered(s, "", "")
    ensures Considered(s, "thermo", "") <==> s in ThermoPlan
  {
  }

  /** An unknown component selects no section. */
  lemma UnknownComponentLoadsNothing(s: Section, component: string, section: string)
    requires component !in {"", "thermo", "transport", "solvation", "kinetics", "statmech"}
    ensures !Considered(s, component, section)
  {
  }

  /** Every section's walk lists existing files under its directory. */
  predicate Walks(files: Files, dirOf: Section -> Path, walk: Section -> seq<Path>)
  {
    forall s :: Walk(files, dirOf(s), walk(s))
  }

  /** Every path a section's walk lists exists: all that recording its times needs. */
  predicate Listed(files: Files, walk: Section -> seq<Path>)
  {
    forall s, i :: 0 <= i < |walk(s)| ==> walk(s)[i] in files
  }

  /** The times recorded after reading the given sections again, one after the other. */
  function StampedAll(ts: Stamps, files: Files, walk: Section -> seq<Path>, secs: seq<Section>): Stamps
    requires Listed(files, walk)
    decreases |secs|
  {
    if secs == [] then ts
    else Stamped(StampedAll(ts, files, walk, secs[..|secs| - 1]), files, walk(secs[|secs| - 1]), 0)
  }

  /** Recording a run of sections and then another is recording the two runs in turn. */
  lemma {:induction false} StampedAllAppend(ts: Stamps, files: Files, walk: Section -> seq<Path>, a: seq<Section>, b: seq<Section>)
    requires Listed(files, walk)
    ensures StampedAll(ts, files, walk, a + b) == StampedAll(StampedAll(ts, files, walk, a), files, walk, b)
    decreases |b|
  {
    if b == [] {
      assert a + b == a;
    } else {
      assert (a + b)[..|a + b| - 1] == a + b[..|b| - 1];
      StampedAllAppend(ts, files, walk, a, b[..|b| - 1]);
    }
  }

  /**
   * The sections of a plan that are read again, in order: each one whose
   * directory is modified given the times recorded by the sections read
   * again before it.
   */
  function PlannedReload(ts: Stamps, files: Files, dirOf: Section -> Path, walk: Section -> seq<Path>, plan: seq<Section>): seq<Section>
    requires Listed(files, walk)
    decreases |plan|
  {
    if plan == [] then []
    else if DirModified(ts, files, dirOf(plan[0]), walk(plan[0])) then
      [plan[0]] + PlannedReload(Stamped(ts, files, walk(plan[0]), 0), files, dirOf, walk, plan[1..])
    else PlannedReload(ts, files, dirOf, walk, plan[1..])
  }

  /**
   * The sections one turn of `load` reads again: a considered section
   * modified given the times `ts`, followed, for the kinetics families, by
   * the sections of `thermo` (the thermo plan) read again for it.
   */
  function LoadHere(ts: Stamps, files: Files, dirOf: Section -> Path, walk: Section -> seq<Path>,
                    component: string, section: string, thermo: seq<Section>, s: Section): seq<Section>
    requires Listed(files, walk)
  {
    if Considered(s, component, section) && DirModified(ts, files, dirOf(s), walk(s)) then
      [s] + (if s == KineticsFamilies then PlannedReload(Stamped(ts, files, walk(s), 0), files, dirOf, walk, thermo) else [])
    else []
  }

  /** The sections `load(component, section)` reads again, in order: each turn's, given the times recorded before it. */
  function LoadReload(ts: Stamps, files: Files, dirOf: Section -> Path, walk: Section -> seq<Path>,
                      component: string, section: string, thermo: seq<Section>, secs: seq<Section>): seq<Section>
    requires Listed(files, walk)
    decreases |secs|
  {
    if secs == [] then []
    else
      var before := LoadReload(ts, files, dirOf, walk, component, section, thermo, secs[..|secs| - 1]);
      before + LoadHere(StampedAll(ts, files, walk, before), files, dirOf, walk, component, section, thermo, secs[|secs| - 1])
  }

  /**
   * `load` reads again only considered sections, and the sections of
   * `thermo` only after the kinetics families.
   */
  lemma {:induction false} LoadReloadSelects(ts: Stamps, files: Files, dirOf: Section -> Path, walk: Section -> seq<Path>,
                                             component: string, section: string, thermo: seq<Section>, secs: seq<Section>)
    requires Listed(files, walk)
    ensures var r := LoadReload(ts, files, dirOf, walk, component, section, thermo, secs);
      (forall s :: s in r ==> Considered(s, component, section) || s in thermo)
      && ((forall s :: s in r ==> Considered(s, component, section)) || KineticsFamilies in r)
    decreases |secs|
  {
    if secs != [] {
      var before := LoadReload(ts, files, dirOf, walk, component, section, thermo, secs[..|secs| - 1]);
      LoadReloadSelects(ts, files, dirOf, walk, component, section, thermo, secs[..|secs| - 1]);
      var s := secs[|secs| - 1];
      var ts0 := StampedAll(ts, files, walk, before);
      var here := LoadHere(ts0, files, dirOf, walk, component, section, thermo, s);
      if here != [] {
        var ts1 := Stamped(ts0, files, walk(s), 0);
        PlannedReloadModifiedAtTurn(ts1, files, dirOf, walk, thermo);
        forall x | x in here
          ensures x == s || (s == KineticsFamilies && x in thermo)
        {
          var i :| 0 <= i < |here| && here[i] == x;
          if i > 0 {
            assert x == PlannedReload(ts1, files, dirOf, walk, thermo)[i - 1];
          }
        }
      }
      assert LoadReload(ts, files, dirOf, walk, component, section, thermo, secs) == before + here;
    }
  }

  /** With no considered section modified, `load` reads nothing again. */
  lemma {:induction false} LoadReloadQuiet(ts: Stamps, files: Files, dirOf: Section -> Path, walk: Section -> seq<Path>,
                                           component: string, section: string, thermo: seq<Section>, secs: seq<Section>)
    requires Listed(files, walk)
    requires forall s :: Considered(s, component, section) ==> !DirModified(ts, files, dirOf(s), walk(s))
    ensures LoadReload(ts, files, dirOf, walk, component, section, thermo, secs) == []
    decreases |secs|
  {
    if secs != [] {
      LoadReloadQuiet(ts, files, dirOf, walk, component, section, thermo, secs[..|secs| - 1]);
      assert StampedAll(ts, files, walk, []) == ts;
      var s := secs[|secs| - 1];
      assert Considered(s, component, section) ==> !DirModified(ts, files, dirOf(s), walk(s));
    }
  }

  /** Reading one more section again records its walk on top of the times before. */
  lemma StampedAllSnoc(ts: Stamps, files: Files, walk: Section -> seq<Path>, r: seq<Section>, s: Section)
    requires Listed(files, walk)
    ensures StampedAll(ts, files, walk, r + [s]) == Stamped(StampedAll(ts, files, walk, r), files, walk(s), 0)
  {
    assert (r + [s])[..|r + [s]| - 1] == r;
  }

  /** `PlannedReload` of the plan from its `k`-th section on, one step unfolded. */
  lemma PlannedReloadStep(ts: Stamps, files: Files, dirOf: Section -> Path, walk: Section -> seq<Path>, plan: seq<Section>, k: nat)
    requires Listed(files, walk) && k < |plan|
    ensures PlannedReload(ts, files, dirOf, walk, plan[k..]) ==
      if DirModified(ts, files, dirOf(plan[k]), walk(plan[k]))
      then [plan[k]] + PlannedReload(Stamped(ts, files, walk(plan[k]), 0), files, dirOf, walk, plan[k + 1..])
      else PlannedReload(ts, files, dirOf, walk, plan[k + 1..])
  {
    assert plan[k..][0] == plan[k] && plan[k..][1..] == plan[k + 1..];
  }

  /** Each of `r` is one of `plan`'s, and its directory is modified given the times recorded by the ones before it. */
  predicate ModifiedInTurn(ts: Stamps, files: Files, dirOf: Section -> Path, walk: Section -> seq<Path>, plan: seq<Section>, r: seq<Section>)
    requires Listed(files, walk)
  {
    forall i :: 0 <= i < |r| ==> r[i] in plan && DirModified(StampedAll(ts, files, walk, r[..i]), files, dirOf(r[i]), walk(r[i]))
  }

  /**
   * Every section a plan reads again is one of the plan's, and its directory
   * is modified given the times recorded by the sections read before it.
   */
  lemma {:induction false} PlannedReloadModifiedAtTurn(ts: Stamps, files: Files, dirOf: Section -> Path, walk: Section -> seq<Path>, plan: seq<Section>)
    requires Listed(files, walk)
    ensures ModifiedInTurn(ts, files, dirOf, walk, plan, PlannedReload(ts, files, dirOf, walk, plan))
    decreases |plan|
  {
    if plan != [] {
      var rest := plan[1..];
      var r := PlannedReload(ts, files, dirOf, walk, plan);
      if DirModified(ts, files, dirOf(plan[0]), walk(plan[0])) {
        var ts1 := Stamped(ts, files, walk(plan[0]), 0);
        var t := PlannedReload(ts1, files, dirOf, walk, rest);
        PlannedReloadModifiedAtTurn(ts1, files, dirOf, walk, rest);
        assert r == [plan[0]] + t;
        assert StampedAll(ts, files, walk, [plan[0]]) == ts1 by {
          assert [plan[0]][..0] == [];
        }
        forall i | 0 <= i < |r|
          ensures r[i] in plan && DirModified(StampedAll(ts, files, walk, r[..i]), files, dirOf(r[i]), walk(r[i]))
        {
          if i == 0 {
            assert r[..0] == [];
          } else {
            var j := i - 1;
            assert r[i] == t[j];
            assert 0 <= j < |t|;
            assert t[j] in rest && DirModified(StampedAll(ts1, files, walk, t[..j]), files, dirOf(t[j]), walk(t[j]));
            assert r[..i] == [plan[0]] + t[..j];
            StampedAllAppend(ts, files, walk, [plan[0]], t[..j]);
          }
        }
      } else {
        PlannedReloadModifiedAtTurn(ts, files, dirOf, walk, rest);
        assert r == PlannedReload(ts, files, dirOf, walk, rest);
        forall i | 0 <= i < |r|
          ensures r[i] in plan
        {
          assert r[i] in rest;
        }
        assert ModifiedInTurn(ts, files, dirOf, walk, rest, r);
      }
    }
  }

  /** `LoadReload` of the first `k + 1` sections: those of the first `k`, then the `k`-th turn's. */
  lemma LoadReloadSnoc(ts: Stamps, files: Files, dirOf: Section -> Path, walk: Section -> seq<Path>,
                       component: string, section: string, thermo: seq<Section>, secs: seq<Section>, k: nat)
    requires Listed(files, walk) && k < |secs|
    ensures var before := LoadReload(ts, files, dirOf, walk, component, section, thermo, secs[..k]);
      LoadReload(ts, files, dirOf, walk, component, section, thermo, secs[..k + 1]) ==
      before + LoadHere(StampedAll(ts, files, walk, before), files, dirOf, walk, component, section, thermo, secs[k])
  {
    assert secs[..k + 1][..k] == secs[..k];
  }

  /**
   * One more planned section keeps the loop's account: the sections read so
   * far, then those the rest of the plan reads, are all the plan reads, and
   * the times recorded are those of the sections read so far.
   */
  lemma PlannedReloadAdvance(ts: Stamps, ts0: Stamps, files: Files, dirOf: Section -> Path, walk: Section -> seq<Path>,
                             plan: seq<Section>, k: nat, reloaded: seq<Section>)
    requires Listed(files, walk) && k < |plan|
    requires reloaded + PlannedReload(ts0, files, dirOf, walk, plan[k..]) == PlannedReload(ts, files, dirOf, walk, plan)
    requires ts0 == StampedAll(ts, files, walk, reloaded)
    ensures var again := DirModified(ts0, files, dirOf(plan[k]), walk(plan[k]));
      var after := if again then reloaded + [plan[k]] else reloaded;
      var ts1 := if again then Stamped(ts0, files, walk(plan[k]), 0) else ts0;
      after + PlannedReload(ts1, files, dirOf, walk, plan[k + 1..]) == PlannedReload(ts, files, dirOf, walk, plan)
      && ts1 == StampedAll(ts, files, walk, after)
  {
    PlannedReloadStep(ts0, files, dirOf, walk, plan, k);
    StampedAllSnoc(ts, files, walk, reloaded, plan[k]);
    var rest := PlannedReload(Stamped(ts0, files, walk(plan[k]), 0), files, dirOf, walk, plan[k + 1..]);
    assert reloaded + ([plan[k]] + rest) == (reloaded + [plan[k]]) + rest;
  }

  /** A plan none of whose directories is modified reads nothing again. */
  lemma {:induction false} QuietPlanReloadsNothing(ts: Stamps, files: Files, dirOf: Section -> Path, walk: Section -> seq<Path>, plan: seq<Section>)
    requires Listed(files, walk)
    ensures (forall i :: 0 <= i < |plan| ==> !DirModified(ts, files, dirOf(plan[i]), walk(plan[i])))
            ==> PlannedReload(ts, files, dirOf, walk, plan) == []
    decreases |plan|
  {
    if plan != [] && forall i :: 0 <= i < |plan| ==> !DirModified(ts, files, dirOf(plan[i]), walk(plan[i])) {
      assert !DirModified(ts, files, dirOf(plan[0]), walk(plan[0]));
      QuietPlanReloadsNothing(ts, files, dirOf, walk, plan[1..]);
      forall i | 0 <= i < |plan[1..]|
        ensures !DirModified(ts, files, dirOf(plan[1..][i]), walk(plan[1..][i]))
      {
        assert plan[1..][i] == plan[i + 1];
      }
    }
  }

  /** A plan reads its first section again first exactly when that section's directory is modified. */
  lemma PlannedReloadFirst(ts: Stamps, files: Files, dirOf: Section -> Path, walk: Section -> seq<Path>, plan: seq<Section>)
    requires Listed(files, walk) && |plan| > 0
    ensures var r := PlannedReload(ts, files, dirOf, walk, plan);
      DirModified(ts, files, dirOf(plan[0]), walk(plan[0])) <==> |r| > 0 && r[0] == plan[0]
  {
    var r := PlannedReload(ts, files, dirOf, walk, plan);
    if |r| > 0 {
      PlannedReloadModifiedAtTurn(ts, files, dirOf, walk, plan);
      assert r[..0] == [];
      assert DirModified(StampedAll(ts, files, walk, r[..0]), files, dirOf(r[0]), walk(r[0]));
    }
  }

  /** The web site's database: recorded file times and the thermo library order. */
  class RMGWebDatabase {
    var timestamps: Stamps
    var libraryOrder: seq<string>

    constructor()
      ensures timestamps == map[] && libraryOrder == []
    {
      timestamps := map[];
      libraryOrder := [];
    }

    /** `reset_timestamp`: record the current time of one existing file. */
    method ResetTimestamp(files: Files, path: Path)
      requires path in files
      modifies this
      ensures timestamps == old(timestamps)[path := files[path]]
      ensures libraryOrder == old(libraryOrder)
    {
      timestamps := timestamps[path := files[path]];
    }

    /** `reset_dir_timestamps`: record the current time of every walked file. */
    method ResetDirTimestamps(files: Files, dirpath: Path, walked: seq<Path>)
      requires Walk(files, dirpath, walked)
      modifies this
      ensures timestamps == Stamped(old(timestamps), files, walked, 0)
      ensures libraryOrder == old(libraryOrder)
    {
      for k := 0 to |walked|
        invariant Stamped(timestamps, files, walked, k) == Stamped(old(timestamps), files, walked, 0)
        invariant libraryOrder == old(libraryOrder)
      {
        ResetTimestamp(files, walked[k]);
      }
    }

    /**
     * `is_dir_modified`: look at the walked files first, crossing each
     * unmodified one off the recorded paths under `dirpath`, then at the
     * recorded paths left. A walked file reaches the crossing-off only when
     * it is recorded, so `to_check.remove` never raises.
     */
    method IsDirModified(files: Files, dirpath: Path, walked: seq<Path>) returns (r: bool)
      requires Walk(files, dirpath, walked)
      ensures r == DirModified(timestamps, files, dirpath, walked)
    {
      var ts := timestamps;
      var tracked := Tracked(ts, dirpath);
      var toCheck := tracked;
      for k := 0 to |walked|
        invariant forall p :: p in toCheck <==> p in tracked && p !in walked[..k]
        invariant forall i :: 0 <= i < k ==> !FileModified(ts, files, walked[i])
      {
        var path := walked[k];
        if FileModified(ts, files, path) {
          return true;
        }
        assert path !in walked[..k] by {
          forall i | 0 <= i < k
            ensures walked[..k][i] != path
          {
            assert walked[i] != walked[k];
          }
        }
        assert walked[..k + 1] == walked[..k] + [path];
        toCheck := toCheck - {path};
      }
      assert walked[..|walked|] == walked;
      forall p | p in tracked && p !in toCheck
        ensures !FileModified(ts, files, p)
      {
        var i :| 0 <= i < |walked| && walked[i] == p;
      }
      while toCheck != {}
        invariant toCheck <= tracked
        invariant forall p :: p in tracked && p !in toCheck ==> !FileModified(ts, files, p)
        decreases |toCheck|
      {
        var path :| path in toCheck;
        if FileModified(ts, files, path) {
          return true;
        }
        toCheck := toCheck - {path};
      }
      return false;
    }

    /** One gated section of `load`: read it again only when its directory is modified, then record its times. */
    method LoadSection(files: Files, dirpath: Path, walked: seq<Path>) returns (reloaded: bool)
      requires Walk(files, dirpath, walked)
      modifies this
      ensures reloaded == DirModified(old(timestamps), files, dirpath, walked)
      ensures timestamps == if reloaded then Stamped(old(timestamps), files, walked, 0) else old(timestamps)
      ensures libraryOrder == old(libraryOrder)
    {
      reloaded := IsDirModified(files, dirpath, walked);
      if reloaded {
        ResetDirTimestamps(files, dirpath, walked);
      }
    }

    /**
     * One section of `load`: read it again only when its directory is
     * modified, and then record its times; reading the thermo libraries again
     * puts them in the preferred order, given the order in which RMG-Py read
     * them (`readOrder`).
     */
    method LoadOne(files: Files, dirOf: Section -> Path, walk: Section -> seq<Path>, readOrder: seq<string>, s: Section)
      returns (again: bool)
      requires Walk(files, dirOf(s), walk(s))
      modifies this
      ensures again == DirModified(old(timestamps), files, dirOf(s), walk(s))
      ensures timestamps == if again then Stamped(old(timestamps), files, walk(s), 0) else old(timestamps)
      ensures libraryOrder == if again && s == ThermoLibraries then Reordered(PreferredOrder, readOrder) else old(libraryOrder)
    {
      again := LoadSection(files, dirOf(s), walk(s));
      if again && s == ThermoLibraries {
        libraryOrder := ReorderLibraries(PreferredOrder, readOrder);
      }
    }

    /** The sections of a plan in turn, each loaded by `LoadOne`. */
    method LoadPlanned(files: Files, dirOf: Section -> Path, walk: Section -> seq<Path>, readOrder: seq<string>, plan: seq<Section>)
      returns (reloaded: seq<Section>)
      requires Walks(files, dirOf, walk)
      modifies this
      ensures reloaded == PlannedReload(old(timestamps), files, dirOf, walk, plan)
      ensures timestamps == StampedAll(old(timestamps), files, walk, reloaded)
      ensures forall s :: s in reloaded ==> s in plan
      ensures (forall i :: 0 <= i < |plan| ==> !DirModified(old(timestamps), files, dirOf(plan[i]), walk(plan[i])))
              ==> reloaded == [] && timestamps == old(timestamps) && libraryOrder == old(libraryOrder)
      ensures libraryOrder == if ThermoLibraries in reloaded then Reordered(PreferredOrder, readOrder) else old(libraryOrder)
    {
      reloaded := [];
      for k := 0 to |plan|
        invariant reloaded + PlannedReload(timestamps, files, dirOf, walk, plan[k..]) == PlannedReload(old(timestamps), files, dirOf, walk, plan)
        invariant timestamps == StampedAll(old(timestamps), files, walk, reloaded)
        invariant libraryOrder == if ThermoLibraries in reloaded then Reordered(PreferredOrder, readOrder) else old(libraryOrder)
      {
        PlannedReloadAdvance(old(timestamps), timestamps, files, dirOf, walk, plan, k, reloaded);
        var again := LoadOne(files, dirOf, walk, readOrder, plan[k]);
        if again {
          reloaded := reloaded + [plan[k]];
        }
      }
      assert plan[|plan|..] == [];
      PlannedReloadModifiedAtTurn(old(timestamps), files, dirOf, walk, plan);
      QuietPlanReloadsNothing(old(timestamps), files, dirOf, walk, plan);
    }

    /** One turn of `load`: one section, and for the kinetics families the thermo sections after it. */
    method LoadTurn(files: Files, dirOf: Section -> Path, walk: Section -> seq<Path>, readOrder: seq<string>,
                    component: string, section: string, thermo: seq<Section>, s: Section)
      returns (here: seq<Section>)
      requires Walks(files, dirOf, walk)
      modifies this
      ensures here == LoadHere(old(timestamps), files, dirOf, walk, component, section, thermo, s)
      ensures timestamps == StampedAll(old(timestamps), files, walk, here)
      ensures libraryOrder == if ThermoLibraries in here then Reordered(PreferredOrder, readOrder) else old(libraryOrder)
    {
      here := [];
      if Considered(s, component, section) {
        var again := LoadOne(files, dirOf, walk, readOrder, s);
        if again {
          StampedAllSnoc(old(timestamps), files, walk, [], s);
          assert [] + [s] == [s];
          here := [s];
          if s == KineticsFamilies {
            var thermo := LoadPlanned(files, dirOf, walk, readOrder, thermo);
            StampedAllAppend(old(timestamps), files, walk, here, thermo);
            here := here + thermo;
          }
        }
      }
    }

    /** The turns of `load` over `secs`, in order. */
    method LoadSections(files: Files, dirOf: Section -> Path, walk: Section -> seq<Path>, readOrder: seq<string>,
                        component: string, section: string, thermo: seq<Section>, secs: seq<Section>)
      returns (reloaded: seq<Section>)
      requires Walks(files, dirOf, walk)
      modifies this
      ensures reloaded == LoadReload(old(timestamps), files, dirOf, walk, component, section, thermo, secs)
      ensures timestamps == StampedAll(old(timestamps), files, walk, reloaded)
      ensures libraryOrder == if ThermoLibraries in reloaded then Reordered(PreferredOrder, readOrder) else old(libraryOrder)
    {
      reloaded := [];
      for k := 0 to |secs|
        invariant reloaded == LoadReload(old(timestamps), files, dirOf, walk, component, section, thermo, secs[..k])
        invariant timestamps == StampedAll(old(timestamps), files, walk, reloaded)
        invariant libraryOrder == if ThermoLibraries in reloaded then Reordered(PreferredOrder, readOrder) else old(libraryOrder)
      {
        LoadReloadSnoc(old(timestamps), files, dirOf, walk, component, section, thermo, secs, k);
        var here := LoadTurn(files, dirOf, walk, readOrder, component, section, thermo, secs[k]);
        StampedAllAppend(old(timestamps), files, walk, reloaded, here);
        reloaded := reloaded + here;
      }
      assert secs[..|secs|] == secs;
    }

    /**
     * `load(component, section)`: the selected sections in turn, each read
     * again only when modified; reading the kinetics families again first
     * loads the whole thermo database.
     */
    method Load(files: Files, dirOf: Section -> Path, walk: Section -> seq<Path>, readOrder: seq<string>, component: string, section: string)
      returns (reloaded: seq<Section>)
      requires Walks(files, dirOf, walk)
      modifies this
      ensures reloaded == LoadReload(old(timestamps), files, dirOf, walk, component, section, ThermoPlan, AllSections)
      ensures timestamps == StampedAll(old(timestamps), files, walk, reloaded)
      ensures forall s :: s in reloaded ==> Considered(s, component, section) || s in ThermoPlan
      ensures (forall s :: s in reloaded ==> Considered(s, component, section)) || KineticsFamilies in reloaded
      ensures (forall s :: Considered(s, component, section) ==> !DirModified(old(timestamps), files, dirOf(s), walk(s)))
              ==> reloaded == [] && timestamps == old(timestamps) && libraryOrder == old(libraryOrder)
      ensures libraryOrder == if ThermoLibraries in reloaded then Reordered(PreferredOrder, readOrder) else old(libraryOrder)
    {
      reloaded := LoadSections(files, dirOf, walk, readOrder, component, section, ThermoPlan, AllSections);
      LoadReloadSelects(old(timestamps), files, dirOf, walk, component, section, ThermoPlan, AllSections);
      if forall s :: Considered(s, component, section) ==> !DirModified(old(timestamps), files, dirOf(s), walk(s)) {
        LoadReloadQuiet(old(timestamps), files, dirOf, walk, component, section, ThermoPlan, AllSections);
      }
    }
  }

  /**
   * A section read again with every recorded path under it still present
   * and unchanged apart from the walked files is not read a third time:
   * loading twice with no file changes reads nothing the second time.
   */
  lemma RepeatLoadIsQuiet(ts: Stamps, files: Files, dirpath: Path, walked: seq<Path>)
    requires Walk(files, dirpath, walked)
    requires forall p :: p in Tracked(ts, dirpath) && p !in walked ==> p in files && files[p] == ts[p]
    ensures var after := if DirModified(ts, files, dirpath, walked) then Stamped(ts, files, walked, 0) else ts;
      !DirModified(after, files, dirpath, walked)
  {
    ResetClean(ts, files, dirpath, walked);
  }

  // ---------------------------------------------------------------------
  // Looking up a component
  // ---------------------------------------------------------------------

  /** Why a lookup raises `ValueError`. */
  datatype LookupError = InvalidSection(section: string) | InvalidSubsection(subsection: string)

  /** A database component held in named dictionaries: depository, libraries and groups. */
  datatype Component<D> = Component(depository: map<string, D>, libraries: map<string, D>, groups: map<string, D>)

  /** A dictionary lookup whose `KeyError` becomes an invalid subsection. */
  function Entry<D>(dict: map<string, D>, subsection: string): (r: Result<D, LookupError>)
    ensures r.Ok? <==> subsection in dict
    ensures r.Ok? ==> r.value == dict[subsection]
    ensures r.Err? ==> r.error == InvalidSubsection(subsection)
  {
    if subsection in dict then Ok(dict[subsection]) else Err(InvalidSubsection(subsection))
  }

  /** `get_transport_database`: libraries or groups. */
  function GetTransportDatabase<D>(c: Component<D>, section: string, subsection: string): (r: Result<D, LookupError>)
    ensures section != "libraries" && section != "groups" ==> r == Err(InvalidSection(section))
    ensures section == "libraries" ==> r == Entry(c.libraries, subsection)
    ensures section == "groups" ==> r == Entry(c.groups, subsection)
  {
    if section == "libraries" then Entry(c.libraries, subsection)
    else if section == "groups" then Entry(c.groups, subsection)
    else Err(InvalidSection(section))
  }

  /** What `get_solvation_database` returns: the whole solvation database for an empty section, else one part. */
  datatype SolvationPart<D> = WholeSolvation | SolvationEntry(db: D)

  /** `get_solvation_database`: the whole database, libraries or groups. */
  function GetSolvationDatabase<D>(c: Component<D>, section: string, subsection: string): (r: Result<SolvationPart<D>, LookupError>)
    ensures section == "" ==> r == Ok(WholeSolvation)
    ensures section != "" && section != "libraries" && section != "groups" ==> r == Err(InvalidSection(section))
    ensures (section == "libraries" || section == "groups") ==>
      (r.Ok? <==> subsection in (if section == "libraries" then c.libraries else c.groups))
  {
    if section == "" then Ok(WholeSolvation)
    else if section == "libraries" || section == "groups" then
      match Entry(if section == "libraries" then c.libraries else c.groups, subsection)
      case Ok(d) => Ok(SolvationEntry(d))
      case Err(e) => Err(e)
    else Err(InvalidSection(section))
  }

  /** `get_statmech_database` and `get_thermo_database`: depository, libraries or groups. */
  function GetComponentDatabase<D>(c: Component<D>, section: string, subsection: string): (r: Result<D, LookupError>)
    ensures section != "depository" && section != "libraries" && section != "groups" ==> r == Err(InvalidSection(section))
    ensures section == "depository" ==> r == Entry(c.depository, subsection)
    ensures section == "libraries" ==> r == Entry(c.libraries, subsection)
    ensures section == "groups" ==> r == Entry(c.groups, subsection)
  {
    if section == "depository" then Entry(c.depository, subsection)
    else if section == "libraries" then Entry(c.libraries, subsection)
    else if section == "groups" then Entry(c.groups, subsection)
    else Err(InvalidSection(section))
  }

  /** A reaction family: its label, its groups and rules, and its labelled depositories. */
  datatype Family<D> = Family(name: string, groups: D, rules: D, depositories: seq<(string, D)>)

  /** The kinetics database: libraries and families by name. */
  datatype Kinetics<D> = Kinetics(libraries: map<string, D>, families: map<string, Family<D>>)

  /** The position of the first depository with the given label: `next(...)`, `None` for `StopIteration`. */
  function FirstLabelled<D>(depositories: seq<(string, D)>, want: string): (r: Option<nat>)
    ensures r.None? <==> forall i :: 0 <= i < |depositories| ==> depositories[i].0 != want
    ensures r.Some? ==> r.value < |depositories| && depositories[r.value].0 == want
                        && forall j :: 0 <= j < r.value ==> depositories[j].0 != want
  {
    if |depositories| == 0 then None
    else if depositories[0].0 == want then Some(0)
    else
      match FirstLabelled(depositories[1..], want)
      case None => None
      case Some(i) => Some(i + 1)
  }

  /** The part of a family a 'family/part' subsection names: groups, rules, or the depository labelled 'family/part'. */
  function FamilyPart<D>(family: Family<D>, part: string, subsection: string): Result<Option<D>, LookupError>
  {
    if part == "groups" then Ok(Some(family.groups))
    else if part == "rules" then Ok(Some(family.rules))
    else
      match FirstLabelled(family.depositories, family.name + "/" + part)
      case None => Err(InvalidSubsection(subsection))
      case Some(i) => Ok(Some(family.depositories[i].1))
  }

  /**
   * `get_kinetics_database`: a library, or for families a subsection split
   * at '/' into a nonempty family name and a part; any other shape of the
   * subsection gives `None` without raising.
   */
  function GetKineticsDatabase<D>(k: Kinetics<D>, section: string, subsection: string): (r: Result<Option<D>, LookupError>)
    ensures section != "libraries" && section != "families" ==> r == Err(InvalidSection(section))
    ensures section == "libraries" ==> (r.Ok? <==> subsection in k.libraries)
    ensures r.Ok? && section == "libraries" ==> r.value == Some(k.libraries[subsection])
  {
    if section == "libraries" then
      match Entry(k.libraries, subsection)
      case Ok(d) => Ok(Some(d))
      case Err(e) => Err(e)
    else if section == "families" then
      var parts := PyText.Split(subsection, "/");
      if parts[0] != "" && |parts| == 2 then
        if parts[0] in k.families then FamilyPart(k.families[parts[0]], parts[1], subsection)
        else Err(InvalidSubsection(subsection))
      else Ok(None)
    else Err(InvalidSection(section))
  }

  /** A families subsection without '/' names no family part: the lookup gives `None`. */
  lemma FamilyWithoutSlashIsNone<D>(k: Kinetics<D>, subsection: string)
    requires '/' !in subsection
    ensures GetKineticsDatabase(k, "families", subsection) == Ok(None)
  {
    PyText.SplitMissingChar(subsection, '/');
  }

  /** A families subsection with an empty family name gives `None`. */
  lemma FamilyWithEmptyNameIsNone<D>(k: Kinetics<D>, rest: string)
    ensures GetKineticsDatabase(k, "families", "/" + rest) == Ok(None)
  {
    PyText.SplitAtFirst("", '/', rest);
    assert "" + ['/'] + rest == "/" + rest;
  }

  /** A families subsection with two '/' gives `None`. */
  lemma FamilyWithTwoSlashesIsNone<D>(k: Kinetics<D>, a: string, b: string, c: string)
    requires '/' !in a && '/' !in b
    ensures GetKineticsDatabase(k, "families", a + "/" + b + "/" + c) == Ok(None)
  {
    PyText.SplitAtFirst(a, '/', b + "/" + c);
    PyText.SplitAtFirst(b, '/', c);
    assert a + "/" + b + "/" + c == a + ['/'] + (b + ['/'] + c);
  }

  /** A 'family/part' subsection with a nonempty family name and no further '/' names that part of the family. */
  lemma FamilySubsection<D>(k: Kinetics<D>, name: string, part: string)
    requires '/' !in name && '/' !in part && name != ""
    ensures GetKineticsDatabase(k, "families", name + "/" + part)
            == if name in k.families then FamilyPart(k.families[name], part, name + "/" + part)
               else Err(InvalidSubsection(name + "/" + part))
  {
    PyText.SplitAtFirst(name, '/', part);
    PyText.SplitMissingChar(part, '/');
    assert name + "/" + part == name + ['/'] + part;
  }

  /** 'family/groups' names the family's groups. */
  lemma FamilyGroups<D>(k: Kinetics<D>, name: string)
    requires '/' !in name && name != "" && name in k.families
    ensures GetKineticsDatabase(k, "families", name + "/groups") == Ok(Some(k.families[name].groups))
  {
    assert "/" + "groups" == "/groups";
    assert '/' !in "groups";
    FamilySubsection(k, name, "groups");
    PyText.Associative(name, "/", "groups");
  }

  /** 'family/rules' names the family's rules. */
  lemma FamilyRules<D>(k: Kinetics<D>, name: string)
    requires '/' !in name && name != "" && name in k.families
    ensures GetKineticsDatabase(k, "families", name + "/rules") == Ok(Some(k.families[name].rules))
  {
    assert "/" + "rules" == "/rules";
    assert '/' !in "rules";
    FamilySubsection(k, name, "rules");
    PyText.Associative(name, "/", "rules");
  }

  /** A 'family/part' subsection naming a family that does not exist is an invalid subsection. */
  lemma UnknownFamilyInvalid<D>(k: Kinetics<D>, name: string, part: string)
    requires '/' !in name && '/' !in part && name != "" && name !in k.families
    ensures GetKineticsDatabase(k, "families", name + "/" + part) == Err(InvalidSubsection(name + "/" + part))
  {
    FamilySubsection(k, name, part);
  }
}
