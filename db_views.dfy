/**
 * The logic of the database views that does not depend on RMG-Py: listing a
 * tree of entries depth first, resolving the entry indices 0 and -1,
 * choosing the index of a new entry, collapsing isomorphic search results
 * with their counts, the URL arguments of a reaction, and the template
 * counters of the kinetics data page. Reaction isomorphism, the test whether
 * a reaction has the searched reactants, adjacency lists and Django's URL
 * reversal are outside the model: the first is a parameter, the second a
 * field, the third a string already in the molecule, and a reversed URL is
 * kept as its route name and keyword arguments.
 */
module DbViews {
  import opened Common
  import PyText

  // ---------------------------------------------------------------------
  // The tree of a database, as a list
  // ---------------------------------------------------------------------

  /** A database entry: its index and its children in the tree. */
  datatype Entry = Entry(index: int, children: seq<Entry>)

  /** The entries of a forest, each followed by the entries below it. */
  function Preorder(es: seq<Entry>): seq<Entry>
    decreases es
  {
    if |es| == 0 then [] else [es[0]] + Preorder(es[0].children) + Preorder(es[1..])
  }

  /** The number of entries in a forest. */
  function Size(es: seq<Entry>): nat
    decreases es
  {
    if |es| == 0 then 0 else 1 + Size(es[0].children) + Size(es[1..])
  }

  /** `e` is one of the entries of the forest, at any depth. */
  predicate Occurs(e: Entry, es: seq<Entry>)
    decreases es
  {
    |es| > 0 && (es[0] == e || Occurs(e, es[0].children) || Occurs(e, es[1..]))
  }

  /** The listing of the forest from its k-th root on. */
  lemma PreorderStep(es: seq<Entry>, k: nat)
    requires k < |es|
    ensures Preorder(es[k..]) == [es[k]] + Preorder(es[k].children) + Preorder(es[k + 1..])
  {
    assert es[k..][0] == es[k];
    assert es[k..][1..] == es[k + 1..];
  }

  /** `getDatabaseTreeAsList`: each root, then the listing of its children, root after root. */
  method GetDatabaseTreeAsList(entries: seq<Entry>) returns (tree: seq<Entry>)
    ensures tree == Preorder(entries)
    decreases entries
  {
    tree := [];
    assert entries[0..] == entries;
    for k := 0 to |entries|
      invariant tree + Preorder(entries[k..]) == Preorder(entries)
    {
      var entry := entries[k];
      PreorderStep(entries, k);
      var below := GetDatabaseTreeAsList(entry.children);
      assert tree + ([entry] + below + Preorder(entries[k + 1..])) == Preorder(entries);
      tree := tree + [entry];
      tree := tree + below;
    }
    assert entries[|entries|..] == [];
  }

  /** The listing holds every entry of the forest once: its length is the number of entries. */
  lemma {:induction false} PreorderLength(es: seq<Entry>)
    ensures |Preorder(es)| == Size(es)
    decreases es
  {
    if |es| > 0 {
      PreorderLength(es[0].children);
      PreorderLength(es[1..]);
    }
  }

  /** The listing holds exactly the entries of the forest. */
  lemma {:induction false} PreorderMembers(es: seq<Entry>, e: Entry)
    ensures e in Preorder(es) <==> Occurs(e, es)
    decreases es
  {
    if |es| > 0 {
      PreorderMembers(es[0].children, e);
      PreorderMembers(es[1..], e);
      assert Preorder(es) == [es[0]] + (Preorder(es[0].children) + Preorder(es[1..]));
    }
  }

  /**
   * Depth first: every entry of the forest is listed at some position i,
   * immediately followed by the listing of its own children, so it comes
   * before all of its descendants.
   */
  lemma {:induction false} SubtreeFollows(es: seq<Entry>, e: Entry) returns (i: nat)
    requires Occurs(e, es)
    ensures ListedAt(Preorder(es), i, e)
    decreases es, 1
  {
    if es[0] == e {
      i := 0;
      PreorderUnfold(es);
      ListedFirst(e, Preorder(es[1..]));
    } else if Occurs(e, es[0].children) {
      i := FollowsInChildren(es, e);
    } else {
      i := FollowsInSiblings(es, e);
    }
  }

  /** An entry below the first root is listed within the listing of that root's children. */
  lemma {:induction false} FollowsInChildren(es: seq<Entry>, e: Entry) returns (i: nat)
    requires |es| > 0 && Occurs(e, es[0].children)
    ensures ListedAt(Preorder(es), i, e)
    decreases es, 0
  {
    var j := SubtreeFollows(es[0].children, e);
    i := 1 + j;
    PreorderUnfold(es);
    ListedInside([es[0]], Preorder(es[0].children), Preorder(es[1..]), j, e);
  }

  /** An entry of a later root's tree is listed within the listing of the later roots. */
  lemma {:induction false} FollowsInSiblings(es: seq<Entry>, e: Entry) returns (i: nat)
    requires |es| > 0 && Occurs(e, es[1..])
    ensures ListedAt(Preorder(es), i, e)
    decreases es, 0
  {
    var j := SubtreeFollows(es[1..], e);
    var front := [es[0]] + Preorder(es[0].children);
    i := |front| + j;
    PreorderUnfold(es);
    ListedAfter(front, Preorder(es[1..]), j, e);
  }

  /** One unfolding of the listing. */
  lemma PreorderUnfold(es: seq<Entry>)
    requires |es| > 0
    ensures Preorder(es) == [es[0]] + Preorder(es[0].children) + Preorder(es[1..])
  {
  }

  /** A root listed first, before the listing of its children. */
  lemma ListedFirst(e: Entry, rest: seq<Entry>)
    ensures ListedAt([e] + Preorder(e.children) + rest, 0, e)
  {
    SliceMiddle([e], Preorder(e.children), rest);
  }

  /** A listing inside a longer one keeps its entries in place, shifted. */
  lemma ListedInside(front: seq<Entry>, mid: seq<Entry>, back: seq<Entry>, j: nat, e: Entry)
    requires ListedAt(mid, j, e)
    ensures ListedAt(front + mid + back, |front| + j, e)
  {
    SliceInside(front, mid, back, j, |Preorder(e.children)|);
  }

  /** A listing at the end of a longer one keeps its entries in place, shifted. */
  lemma ListedAfter(front: seq<Entry>, back: seq<Entry>, j: nat, e: Entry)
    requires ListedAt(back, j, e)
    ensures ListedAt(front + back, |front| + j, e)
  {
    SliceEnd(front, back, j, |Preorder(e.children)|);
  }

  /** Position i of a listing holds e, followed by the listing of e's children. */
  predicate ListedAt(listed: seq<Entry>, i: nat, e: Entry)
  {
    var sub := Preorder(e.children);
    i + |sub| < |listed| && listed[i] == e && listed[i + 1..i + 1 + |sub|] == sub
  }

  /** The middle part of a concatenation. */
  lemma SliceMiddle<T>(front: seq<T>, mid: seq<T>, back: seq<T>)
    ensures (front + mid + back)[|front|..|front| + |mid|] == mid
  {
  }

  /** An element of the middle part of a concatenation, and the n elements after it. */
  lemma SliceInside<T>(front: seq<T>, mid: seq<T>, back: seq<T>, j: nat, n: nat)
    requires j + n < |mid|
    ensures (front + mid + back)[|front| + j] == mid[j]
    ensures (front + mid + back)[|front| + j + 1..|front| + j + 1 + n] == mid[j + 1..j + 1 + n]
  {
  }

  /** An element of the last part of a concatenation, and the n elements after it. */
  lemma SliceEnd<T>(front: seq<T>, back: seq<T>, j: nat, n: nat)
    requires j + n < |back|
    ensures (front + back)[|front| + j] == back[j]
    ensures (front + back)[|front| + j + 1..|front| + j + 1 + n] == back[j + 1..j + 1 + n]
  {
  }

  // ---------------------------------------------------------------------
  // Entry indices
  // ---------------------------------------------------------------------

  /** Why an entry view fails: no entry has the index (`Http404`), or 0 or -1 with no positive index (`min`/`max` of nothing: `ValueError`). */
  datatype IndexError = Http404 | NoPositiveIndex

  /** The entry to show, or the index to redirect to. */
  datatype Resolution = Show(index: int) | Redirect(index: int)

  /** No index of the list is positive. */
  predicate NoPositive(indices: seq<int>)
  {
    forall k :: 0 <= k < |indices| ==> indices[k] <= 0
  }

  /** `min(i for i in indices if i > 0)`, None for an empty selection. */
  function MinPositive(indices: seq<int>): (r: Option<int>)
    ensures r.None? <==> NoPositive(indices)
    ensures r.Some? ==> r.value > 0 && r.value in indices
    ensures r.Some? ==> forall k :: 0 <= k < |indices| && indices[k] > 0 ==> r.value <= indices[k]
  {
    if |indices| == 0 then None
    else
      var rest := MinPositive(indices[1..]);
      if indices[0] <= 0 then rest
      else if rest.Some? && rest.value < indices[0] then rest
      else Some(indices[0])
  }

  /** `max(i for i in indices if i > 0)`, None for an empty selection. */
  function MaxPositive(indices: seq<int>): (r: Option<int>)
    ensures r.None? <==> NoPositive(indices)
    ensures r.Some? ==> r.value > 0 && r.value in indices
    ensures r.Some? ==> forall k :: 0 <= k < |indices| ==> indices[k] <= r.value
  {
    if |indices| == 0 then None
    else
      var rest := MaxPositive(indices[1..]);
      if indices[0] <= 0 then rest
      else if rest.Some? && rest.value > indices[0] then rest
      else Some(indices[0])
  }

  /**
   * The index lookup of the thermo and kinetics entry views: 0 redirects to
   * the least positive index, -1 to the greatest, and any other index is
   * shown when an entry has it and is a 404 otherwise.
   */
  function ResolveIndex(indices: seq<int>, index: int): (r: Result<Resolution, IndexError>)
    ensures index != 0 && index != -1 ==> (r == Ok(Show(index)) <==> index in indices)
    ensures r == Err(Http404) <==> index != 0 && index != -1 && index !in indices
    ensures r == Err(NoPositiveIndex) <==> (index == 0 || index == -1) && NoPositive(indices)
    ensures index == 0 && r.Ok? ==>
      && r.value.Redirect? && r.value.index > 0 && r.value.index in indices
      && forall k :: 0 <= k < |indices| && indices[k] > 0 ==> r.value.index <= indices[k]
    ensures index == -1 && r.Ok? ==>
      && r.value.Redirect? && r.value.index > 0 && r.value.index in indices
      && forall k :: 0 <= k < |indices| ==> indices[k] <= r.value.index
  {
    if index != 0 && index != -1 then
      if index in indices then Ok(Show(index)) else Err(Http404)
    else
      match (if index == 0 then MinPositive(indices) else MaxPositive(indices))
      case None => Err(NoPositiveIndex)
      case Some(i) => Ok(Redirect(i))
  }

  /** The views' `for ... else: raise Http404` search, then `min` or `max` for 0 and -1. */
  method ResolveEntryIndex(indices: seq<int>, index: int) returns (r: Result<Resolution, IndexError>)
    ensures r == ResolveIndex(indices, index)
  {
    if index != 0 && index != -1 {
      var k := 0;
      while k < |indices| && indices[k] != index
        invariant 0 <= k <= |indices|
        invariant index !in indices[..k]
      {
        k := k + 1;
      }
      if k == |indices| {
        assert indices[..k] == indices;
        return Err(Http404);
      }
      return Ok(Show(index));
    }
    var extreme := if index == 0 then MinPositive(indices) else MaxPositive(indices);
    if extreme.None? {
      return Err(NoPositiveIndex);
    }
    r := Ok(Redirect(extreme.value));
  }

  /** The greatest element of a nonempty list. */
  function Max(s: seq<int>): (m: int)
    requires |s| > 0
    ensures m in s && forall k :: 0 <= k < |s| ==> s[k] <= m
  {
    if |s| == 1 then s[0]
    else
      var rest := Max(s[1..]);
      if s[0] >= rest then s[0] else rest
  }

  /** `max(indices or [0]) + 1`: the index given to a new entry. */
  function NewIndex(indices: seq<int>): int
  {
    if |indices| == 0 then 1 else Max(indices) + 1
  }

  /**
   * A new index is greater than every existing one, so no entry has it; it
   * is one past the greatest index, or 1 for an empty database.
   */
  lemma NewIndexFresh(indices: seq<int>)
    ensures forall k :: 0 <= k < |indices| ==> indices[k] < NewIndex(indices)
    ensures NewIndex(indices) !in indices
    ensures |indices| == 0 ==> NewIndex(indices) == 1
    ensures |indices| > 0 ==> NewIndex(indices) - 1 in indices
  {
    if |indices| > 0 {
      var m := Max(indices);
      assert forall k :: 0 <= k < |indices| ==> indices[k] <= m;
    }
  }

  /** In a database of positive indices, a new index is positive too, so the 0 and -1 redirects can reach it. */
  lemma NewIndexPositive(indices: seq<int>)
    requires forall k :: 0 <= k < |indices| ==> indices[k] > 0
    ensures NewIndex(indices) > 1 || (|indices| == 0 && NewIndex(indices) == 1)
  {
    if |indices| > 0 {
      assert indices[0] <= Max(indices);
    }
  }

  // ---------------------------------------------------------------------
  // Search results without duplicates
  // ---------------------------------------------------------------------

  /** The unique reactions found so far and how many results each stands for. */
  datatype Tally<R> = Tally(unique: seq<R>, counts: seq<nat>)

  /** The first unique reaction from position k on that `r` is isomorphic to: where the inner loop breaks. */
  function FirstIsomorphic<R>(unique: seq<R>, r: R, iso: (R, R) -> bool, k: nat): (found: Option<nat>)
    requires k <= |unique|
    ensures found.Some? ==> k <= found.value < |unique| && iso(r, unique[found.value])
    ensures found.Some? ==> forall i :: k <= i < found.value ==> !iso(r, unique[i])
    ensures found.None? ==> forall i :: k <= i < |unique| ==> !iso(r, unique[i])
    decreases |unique| - k
  {
    if k == |unique| then None
    else if iso(r, unique[k]) then Some(k)
    else FirstIsomorphic(unique, r, iso, k + 1)
  }

  /** One result: counted against the first unique reaction it is isomorphic to, or appended as a new one with count 1. */
  function AddResult<R>(t: Tally<R>, r: R, iso: (R, R) -> bool): Tally<R>
    requires |t.unique| == |t.counts|
  {
    match FirstIsomorphic(t.unique, r, iso, 0)
    case None => Tally(t.unique + [r], t.counts + [1])
    case Some(i) => Tally(t.unique, t.counts[i := t.counts[i] + 1])
  }

  /** The tally of a list of results, taken from first to last. */
  function Tallied<R>(rs: seq<R>, iso: (R, R) -> bool): (t: Tally<R>)
    ensures |t.unique| == |t.counts|
  {
    if |rs| == 0 then Tally([], [])
    else AddResult(Tallied(rs[..|rs| - 1], iso), rs[|rs| - 1], iso)
  }

  /** The duplicate-removal loop of `kineticsResults`. */
  method RemoveDuplicates<R>(reactionList: seq<R>, iso: (R, R) -> bool) returns (unique: seq<R>, counts: seq<nat>)
    ensures Tally(unique, counts) == Tallied(reactionList, iso)
  {
    unique, counts := [], [];
    for k := 0 to |reactionList|
      invariant Tally(unique, counts) == Tallied(reactionList[..k], iso)
    {
      var reaction := reactionList[k];
      var i := 0;
      while i < |unique| && !iso(reaction, unique[i])
        invariant 0 <= i <= |unique|
        invariant FirstIsomorphic(unique, reaction, iso, i) == FirstIsomorphic(unique, reaction, iso, 0)
      {
        i := i + 1;
      }
      assert reactionList[..k + 1][..k] == reactionList[..k];
      if i < |unique| {
        counts := counts[i := counts[i] + 1];
      } else {
        unique := unique + [reaction];
        counts := counts + [1];
      }
    }
    assert reactionList[..|reactionList|] == reactionList;
  }

  function Sum(s: seq<nat>): nat
  {
    if |s| == 0 then 0 else Sum(s[..|s| - 1]) + s[|s| - 1]
  }

  /** Adding one to an element adds one to the sum. */
  lemma {:induction false} SumIncrement(s: seq<nat>, i: nat)
    requires i < |s|
    ensures Sum(s[i := s[i] + 1]) == Sum(s) + 1
  {
    var t := s[i := s[i] + 1];
    assert t[..|t| - 1] == if i == |s| - 1 then s[..|s| - 1] else s[..|s| - 1][i := s[i] + 1];
    if i < |s| - 1 {
      SumIncrement(s[..|s| - 1], i);
    }
  }

  /** Every count is at least 1, and the counts add up to the number of results. */
  lemma {:induction false} TallyCounts<R>(rs: seq<R>, iso: (R, R) -> bool)
    ensures Positive(Tallied(rs, iso).counts)
    ensures Sum(Tallied(rs, iso).counts) == |rs|
  {
    if |rs| > 0 {
      TallyCounts(rs[..|rs| - 1], iso);
      AddResultCounts(Tallied(rs[..|rs| - 1], iso), rs[|rs| - 1], iso);
    }
  }

  /** Every count is at least 1. */
  predicate Positive(counts: seq<nat>)
  {
    forall i :: 0 <= i < |counts| ==> counts[i] >= 1
  }

  /** One more result keeps every count positive and adds one to their sum. */
  lemma AddResultCounts<R>(t: Tally<R>, r: R, iso: (R, R) -> bool)
    requires |t.unique| == |t.counts| && Positive(t.counts)
    ensures Positive(AddResult(t, r, iso).counts)
    ensures Sum(AddResult(t, r, iso).counts) == Sum(t.counts) + 1
  {
    match FirstIsomorphic(t.unique, r, iso, 0)
    case None =>
      var c := t.counts + [1];
      assert c[..|c| - 1] == t.counts;
    case Some(i) =>
      SumIncrement(t.counts, i);
  }

  /** No reaction of the list is isomorphic to an earlier one. */
  predicate NoneIsomorphic<R>(u: seq<R>, iso: (R, R) -> bool)
  {
    forall i, j :: 0 <= i < j < |u| ==> !iso(u[j], u[i])
  }

  /** No unique reaction is isomorphic to an earlier one. */
  lemma {:induction false} TallyDistinct<R>(rs: seq<R>, iso: (R, R) -> bool)
    ensures NoneIsomorphic(Tallied(rs, iso).unique, iso)
  {
    if |rs| > 0 {
      var front := rs[..|rs| - 1];
      var r := rs[|rs| - 1];
      TallyDistinct(front, iso);
      var before := Tallied(front, iso).unique;
      var t := Tallied(front, iso);
      assert Tallied(rs, iso) == AddResult(t, r, iso);
      if FirstIsomorphic(before, r, iso, 0).None? {
        var u := before + [r];
        assert Tallied(rs, iso).unique == u;
        forall i, j | 0 <= i < j < |u|
          ensures !iso(u[j], u[i])
        {
          if j == |before| {
            assert u[j] == r && u[i] == before[i];
          } else {
            assert u[j] == before[j] && u[i] == before[i];
          }
        }
      }
    }
  }

  /** Every unique reaction is one of the results, and every result is a unique reaction or isomorphic to one. */
  lemma {:induction false} TallyCovers<R>(rs: seq<R>, iso: (R, R) -> bool)
    ensures var u := Tallied(rs, iso).unique;
      forall i :: 0 <= i < |u| ==> u[i] in rs
    ensures var u := Tallied(rs, iso).unique;
      forall k :: 0 <= k < |rs| ==> rs[k] in u || exists i :: 0 <= i < |u| && iso(rs[k], u[i])
  {
    if |rs| > 0 {
      var front := rs[..|rs| - 1];
      TallyCovers(front, iso);
      var u := Tallied(rs, iso).unique;
      var before := Tallied(front, iso).unique;
      assert before <= u;
      forall i | 0 <= i < |u|
        ensures u[i] in rs
      {
        if i < |before| {
          assert before[i] in front;
        }
      }
      forall k | 0 <= k < |rs|
        ensures rs[k] in u || exists i :: 0 <= i < |u| && iso(rs[k], u[i])
      {
        if k < |front| {
          assert rs[k] == front[k];
          if !(front[k] in before) {
            var i :| 0 <= i < |before| && iso(front[k], before[i]);
            assert u[i] == before[i];
          }
        } else {
          var found := FirstIsomorphic(before, rs[k], iso, 0);
          if found.Some? {
            assert u[found.value] == before[found.value];
          }
        }
      }
    }
  }

  /** The unique reactions keep the order of their first results: the tally of a prefix starts the tally of the whole. */
  lemma {:induction false} TallyGrows<R>(rs: seq<R>, n: nat, iso: (R, R) -> bool)
    requires n <= |rs|
    ensures Tallied(rs[..n], iso).unique <= Tallied(rs, iso).unique
    decreases |rs| - n
  {
    if n < |rs| {
      TallyGrows(rs[..|rs| - 1], n, iso);
      assert rs[..|rs| - 1][..n] == rs[..n];
    } else {
      assert rs[..n] == rs;
    }
  }

  // ---------------------------------------------------------------------
  // The URL of a reaction
  // ---------------------------------------------------------------------

  /** What a reactant or product is in RMG-Py; a molecule stands for its adjacency list. */
  datatype Chem = Molecule(adjlist: string) | Species(molecules: seq<string>) | Group | LogicNode

  /** A reaction participant, bare or held in a database entry as its `item`. */
  datatype Participant = Bare(chem: Chem) | InEntry(item: Chem)

  /** The keyword arguments of the reaction routes. */
  datatype Key = ReactantKey(n: nat) | ProductKey(n: nat) | ResonanceKey | FamilyKey | EstimatorKey

  datatype Arg = Text(text: string) | Flag(flag: bool)

  /** `database:kinetics-data` and `database:kinetics-group`. */
  datatype RouteName = KineticsData | KineticsGroup

  /** The empty string, or a route reversed with its keyword arguments. */
  datatype Url = NoUrl | Reverse(route: RouteName, kwargs: map<Key, Arg>)

  /** The exceptions `getReactionUrl` raises: an object without `molecule` (`AttributeError`), a species without molecules (`IndexError`). */
  datatype UrlError = NoMoleculeAttribute | NoMolecules

  /** A reactant, taken out of its entry. */
  function Unwrap(p: Participant): Chem
  {
    match p
    case Bare(c) => c
    case InEntry(c) => c
  }

  predicate IsGroup(c: Chem)
  {
    c.Group? || c.LogicNode?
  }

  /** `mol if isinstance(mol, Molecule) else mol.molecule[0]`. */
  function MoleculeOf(c: Chem): Result<string, UrlError>
  {
    match c
    case Molecule(a) => Ok(a)
    case Species(ms) => if |ms| == 0 then Err(NoMolecules) else Ok(ms[0])
    case Group => Err(NoMoleculeAttribute)
    case LogicNode => Err(NoMoleculeAttribute)
  }

  /** A product is not taken out of an entry: an entry has no `molecule`. */
  function ProductMolecule(p: Participant): Result<string, UrlError>
  {
    match p
    case Bare(c) => MoleculeOf(c)
    case InEntry(_) => Err(NoMoleculeAttribute)
  }

  /** The reactant arguments from position k on; None when a reactant is a group or a logic node. */
  function ReactantArgs(rs: seq<Participant>, k: nat, kw: map<Key, Arg>): Result<Option<map<Key, Arg>>, UrlError>
    requires k <= |rs|
    decreases |rs| - k
  {
    if k == |rs| then Ok(Some(kw))
    else if IsGroup(Unwrap(rs[k])) then Ok(None)
    else
      match MoleculeOf(Unwrap(rs[k]))
      case Err(e) => Err(e)
      case Ok(a) => ReactantArgs(rs, k + 1, kw[ReactantKey(k + 1) := Text(a)])
  }

  /** The product arguments from position k on. */
  function ProductArgs(ps: seq<Participant>, k: nat, kw: map<Key, Arg>): Result<map<Key, Arg>, UrlError>
    requires k <= |ps|
    decreases |ps| - k
  {
    if k == |ps| then Ok(kw)
    else
      match ProductMolecule(ps[k])
      case Err(e) => Err(e)
      case Ok(a) => ProductArgs(ps, k + 1, kw[ProductKey(k + 1) := Text(a)])
  }

  /** The route and arguments once the participants are in `kwargs`; an empty family stands for `None`. */
  function Route(kw: map<Key, Arg>, family: string, estimator: string, resonance: bool): Url
  {
    var args := kw[ResonanceKey := Flag(resonance)];
    if family != "" then
      if estimator != "" then
        Reverse(KineticsGroup, args[FamilyKey := Text(family)][EstimatorKey := Text(PyText.Replace(estimator, " ", "_"))])
      else NoUrl
    else Reverse(KineticsData, args)
  }

  /** `getReactionUrl`. */
  function ReactionUrl(reactants: seq<Participant>, products: seq<Participant>, family: string, estimator: string, resonance: bool): Result<Url, UrlError>
  {
    match ReactantArgs(reactants, 0, map[])
    case Err(e) => Err(e)
    case Ok(None) => Ok(NoUrl)
    case Ok(Some(kw)) =>
      match ProductArgs(products, 0, kw)
      case Err(e) => Err(e)
      case Ok(kw2) => Ok(Route(kw2, family, estimator, resonance))
  }

  /** `getReactionUrl`: the reactant loop, the product loop, then the route. */
  method GetReactionUrl(reactants: seq<Participant>, products: seq<Participant>, family: string, estimator: string, resonance: bool)
    returns (r: Result<Url, UrlError>)
    ensures r == ReactionUrl(reactants, products, family, estimator, resonance)
  {
    var kwargs: map<Key, Arg> := map[];
    for index := 0 to |reactants|
      invariant ReactantArgs(reactants, index, kwargs) == ReactantArgs(reactants, 0, map[])
    {
      var reactant := Unwrap(reactants[index]);
      if IsGroup(reactant) {
        return Ok(NoUrl);
      }
      var mol := MoleculeOf(reactant);
      if mol.Err? {
        return Err(mol.error);
      }
      kwargs := kwargs[ReactantKey(index + 1) := Text(mol.value)];
    }
    for index := 0 to |products|
      invariant ProductArgs(products, index, kwargs) == match ReactantArgs(reactants, 0, map[])
        case Ok(Some(kw)) => ProductArgs(products, 0, kw)
        case _ => Err(NoMolecules)
    {
      var mol := ProductMolecule(products[index]);
      if mol.Err? {
        return Err(mol.error);
      }
      kwargs := kwargs[ProductKey(index + 1) := Text(mol.value)];
    }
    r := Ok(Route(kwargs, family, estimator, resonance));
  }

  /** Every reactant from position k on is a species or molecule that has a molecule. */
  predicate ReactantsUsable(rs: seq<Participant>, k: nat)
  {
    forall j :: k <= j < |rs| ==> !IsGroup(Unwrap(rs[j])) && MoleculeOf(Unwrap(rs[j])).Ok?
  }

  /** Every product from position k on gives a molecule. */
  predicate ProductsUsable(ps: seq<Participant>, k: nat)
  {
    forall j :: k <= j < |ps| ==> ProductMolecule(ps[j]).Ok?
  }

  /** The keys of reactants k+1 to n. */
  function ReactantKeys(k: nat, n: nat): set<Key>
  {
    set i: nat | k < i <= n :: ReactantKey(i)
  }

  /** The keys of products k+1 to n. */
  function ProductKeys(k: nat, n: nat): set<Key>
  {
    set i: nat | k < i <= n :: ProductKey(i)
  }

  /** A group or logic node among the reactants, after usable ones, makes the URL empty. */
  lemma {:induction false} GroupReactantArgs(rs: seq<Participant>, k: nat, g: nat, kw: map<Key, Arg>)
    requires k <= g < |rs| && IsGroup(Unwrap(rs[g]))
    requires forall j :: k <= j < g ==> !IsGroup(Unwrap(rs[j])) && MoleculeOf(Unwrap(rs[j])).Ok?
    ensures ReactantArgs(rs, k, kw) == Ok(None)
    decreases g - k
  {
    if k < g {
      GroupReactantArgs(rs, k + 1, g, kw[ReactantKey(k + 1) := Text(MoleculeOf(Unwrap(rs[k])).value)]);
    }
  }

  /**
   * A reactant that is a functional group or a logic node, bare or in an
   * entry, gives the empty URL whatever the products, family and estimator.
   */
  lemma GroupReactantGivesNoUrl(reactants: seq<Participant>, products: seq<Participant>, family: string, estimator: string, resonance: bool, g: nat)
    requires g < |reactants| && IsGroup(Unwrap(reactants[g]))
    requires forall j :: 0 <= j < g ==> !IsGroup(Unwrap(reactants[j])) && MoleculeOf(Unwrap(reactants[j])).Ok?
    ensures ReactionUrl(reactants, products, family, estimator, resonance) == Ok(NoUrl)
  {
    GroupReactantArgs(reactants, 0, g, map[]);
  }

  /** Usable reactants from position k on add exactly their keys, each bound to its molecule. */
  lemma {:induction false} UsableReactantArgs(rs: seq<Participant>, k: nat, kw: map<Key, Arg>) returns (out: map<Key, Arg>)
    requires k <= |rs| && ReactantsUsable(rs, k)
    ensures ReactantArgs(rs, k, kw) == Ok(Some(out))
    ensures out.Keys == kw.Keys + ReactantKeys(k, |rs|)
    ensures forall j :: k <= j < |rs| ==> out[ReactantKey(j + 1)] == Text(MoleculeOf(Unwrap(rs[j])).value)
    ensures forall key :: key in kw && key !in ReactantKeys(k, |rs|) ==> out[key] == kw[key]
    decreases |rs| - k
  {
    if k == |rs| {
      out := kw;
      assert ReactantKeys(k, |rs|) == {};
    } else {
      var next := kw[ReactantKey(k + 1) := Text(MoleculeOf(Unwrap(rs[k])).value)];
      out := UsableReactantArgs(rs, k + 1, next);
      assert ReactantKeys(k, |rs|) == {ReactantKey(k + 1)} + ReactantKeys(k + 1, |rs|);
    }
  }

  /** Usable products from position k on add exactly their keys, each bound to its molecule. */
  lemma {:induction false} UsableProductArgs(ps: seq<Participant>, k: nat, kw: map<Key, Arg>) returns (out: map<Key, Arg>)
    requires k <= |ps| && ProductsUsable(ps, k)
    ensures ProductArgs(ps, k, kw) == Ok(out)
    ensures out.Keys == kw.Keys + ProductKeys(k, |ps|)
    ensures forall j :: k <= j < |ps| ==> out[ProductKey(j + 1)] == Text(ProductMolecule(ps[j]).value)
    ensures forall key :: key in kw && key !in ProductKeys(k, |ps|) ==> out[key] == kw[key]
    decreases |ps| - k
  {
    if k == |ps| {
      out := kw;
      assert ProductKeys(k, |ps|) == {};
    } else {
      var next := kw[ProductKey(k + 1) := Text(ProductMolecule(ps[k]).value)];
      out := UsableProductArgs(ps, k + 1, next);
      assert ProductKeys(k, |ps|) == {ProductKey(k + 1)} + ProductKeys(k + 1, |ps|);
    }
  }

  /**
   * With usable participants the URL of a reaction reverses
   * `kinetics-data` without a family and `kinetics-group` with a family and
   * an estimator; its arguments are reactant1.., product1.. and resonance,
   * plus the family and the estimator with spaces turned into '_'.
   */
  lemma UrlArguments(reactants: seq<Participant>, products: seq<Participant>, family: string, estimator: string, resonance: bool)
    requires ReactantsUsable(reactants, 0) && ProductsUsable(products, 0)
    requires family == "" || estimator != ""
    ensures var r := ReactionUrl(reactants, products, family, estimator, resonance);
      && r.Ok? && r.value.Reverse?
      && (r.value.route == KineticsGroup <==> family != "")
      && r.value.kwargs.Keys == ReactantKeys(0, |reactants|) + ProductKeys(0, |products|) + {ResonanceKey}
                                + (if family != "" then {FamilyKey, EstimatorKey} else {})
      && (forall j :: 0 <= j < |reactants| ==> r.value.kwargs[ReactantKey(j + 1)] == Text(MoleculeOf(Unwrap(reactants[j])).value))
      && (forall j :: 0 <= j < |products| ==> r.value.kwargs[ProductKey(j + 1)] == Text(ProductMolecule(products[j]).value))
      && r.value.kwargs[ResonanceKey] == Flag(resonance)
      && (family != "" ==> r.value.kwargs[EstimatorKey] == Text(PyText.Replace(estimator, " ", "_"))
                           && ' ' !in r.value.kwargs[EstimatorKey].text)
  {
    var kw := UsableReactantArgs(reactants, 0, map[]);
    var kw2 := UsableProductArgs(products, 0, kw);
    RouteArguments(kw2, family, estimator, resonance);
  }

  /** The route of the collected arguments: resonance, and with a family the family and the estimator, are added to them. */
  lemma RouteArguments(kw: map<Key, Arg>, family: string, estimator: string, resonance: bool)
    requires family == "" || estimator != ""
    ensures var url := Route(kw, family, estimator, resonance);
      && url.Reverse?
      && (url.route == KineticsGroup <==> family != "")
      && url.kwargs.Keys == kw.Keys + {ResonanceKey} + (if family != "" then {FamilyKey, EstimatorKey} else {})
      && (forall key :: key in kw && (key.ReactantKey? || key.ProductKey?) ==> url.kwargs[key] == kw[key])
      && url.kwargs[ResonanceKey] == Flag(resonance)
      && (family != "" ==> url.kwargs[EstimatorKey] == Text(PyText.Replace(estimator, " ", "_"))
                           && ' ' !in url.kwargs[EstimatorKey].text)
  {
    PyText.ReplaceCharFree(estimator, ' ', "_", ' ');
    assert " " == [' '];
  }

  /** A family without an estimator gives the empty URL whenever no exception is raised. */
  lemma FamilyWithoutEstimator(reactants: seq<Participant>, products: seq<Participant>, family: string, resonance: bool)
    requires family != ""
    ensures ReactionUrl(reactants, products, family, "", resonance).Err?
         || ReactionUrl(reactants, products, family, "", resonance) == Ok(NoUrl)
  {
  }

  /** Products are not checked for groups: a group product after usable reactants raises instead of giving the empty URL. */
  lemma GroupProductRaises(reactants: seq<Participant>, products: seq<Participant>, family: string, estimator: string, resonance: bool, g: nat)
    requires ReactantsUsable(reactants, 0)
    requires g < |products| && products[g].Bare? && IsGroup(products[g].chem)
    requires forall j :: 0 <= j < g ==> ProductMolecule(products[j]).Ok?
    ensures ReactionUrl(reactants, products, family, estimator, resonance) == Err(NoMoleculeAttribute)
  {
    var kw := UsableReactantArgs(reactants, 0, map[]);
    ProductErrorAt(products, 0, g, kw);
  }

  /** The first failing product decides the error. */
  lemma {:induction false} ProductErrorAt(ps: seq<Participant>, k: nat, g: nat, kw: map<Key, Arg>)
    requires k <= g < |ps| && ProductMolecule(ps[g]).Err?
    requires forall j :: k <= j < g ==> ProductMolecule(ps[j]).Ok?
    ensures ProductArgs(ps, k, kw) == Err(ProductMolecule(ps[g]).error)
    decreases g - k
  {
    if k < g {
      ProductErrorAt(ps, k + 1, g, kw[ProductKey(k + 1) := Text(ProductMolecule(ps[k]).value)]);
    }
  }

  // ---------------------------------------------------------------------
  // Template counters of the kinetics data page
  // ---------------------------------------------------------------------

  /** What the counters need of a found reaction: a template reaction or not, its estimator, and whether it has the searched reactants. */
  datatype Found = Found(template: bool, estimator: string, forward: bool)

  /** The counter added to the source of a reaction: none, 'forward template k of n' or 'reverse template k of n'. */
  datatype Counter = NoCounter | ForwardTemplate(k: nat, n: nat) | ReverseTemplate(k: nat, n: nat)

  /** A template reaction estimated by rate rules. */
  predicate RateRule(f: Found)
  {
    f.template && f.estimator == "rate rules"
  }

  /** The number of rate-rule template reactions in the given direction. */
  function CountRules(fs: seq<Found>, forward: bool): nat
  {
    if |fs| == 0 then 0
    else CountRules(fs[..|fs| - 1], forward) + (if RateRule(fs[|fs| - 1]) && fs[|fs| - 1].forward == forward then 1 else 0)
  }

  /** The counter of reaction i: its rank among the rate-rule templates of its direction, shown only when there are several. */
  function Label(fs: seq<Found>, i: nat): Counter
    requires i < |fs|
  {
    if !RateRule(fs[i]) then NoCounter
    else
      var n := CountRules(fs, fs[i].forward);
      var k := CountRules(fs[..i + 1], fs[i].forward);
      if n <= 1 then NoCounter
      else if fs[i].forward then ForwardTemplate(k, n)
      else ReverseTemplate(k, n)
  }

  /** The first pass of `kineticsData`: the numbers of forward and reverse rate-rule templates. */
  method CountTemplates(fs: seq<Found>) returns (forward: nat, reverse: nat)
    ensures forward == CountRules(fs, true) && reverse == CountRules(fs, false)
  {
    forward, reverse := 0, 0;
    for i := 0 to |fs|
      invariant forward == CountRules(fs[..i], true) && reverse == CountRules(fs[..i], false)
    {
      assert fs[..i + 1][..i] == fs[..i];
      if RateRule(fs[i]) {
        if fs[i].forward {
          forward := forward + 1;
        } else {
          reverse := reverse + 1;
        }
      }
    }
    assert fs[..|fs|] == fs;
  }

  /** The counters of `kineticsData`: the two counts first, then a running count per direction. */
  method TemplateCounters(fs: seq<Found>) returns (labels: seq<Counter>)
    ensures |labels| == |fs|
    ensures forall i :: 0 <= i < |fs| ==> labels[i] == Label(fs, i)
  {
    var numForward, numReverse := CountTemplates(fs);
    var countForward, countReverse := 0, 0;
    labels := [];
    for i := 0 to |fs|
      invariant |labels| == i
      invariant countForward == CountRules(fs[..i], true) && countReverse == CountRules(fs[..i], false)
      invariant forall j :: 0 <= j < i ==> labels[j] == Label(fs, j)
    {
      var counter := NoCounter;
      if RateRule(fs[i]) {
        if fs[i].forward {
          countForward := countForward + 1;
          if numForward > 1 {
            counter := ForwardTemplate(countForward, numForward);
          }
        } else {
          countReverse := countReverse + 1;
          if numReverse > 1 {
            counter := ReverseTemplate(countReverse, numReverse);
          }
        }
      }
      assert fs[..i + 1][..i] == fs[..i];
      labels := labels + [counter];
    }
  }

  /** Counting over a longer prefix never counts less, and never more than the whole list. */
  lemma {:induction false} CountMonotone(fs: seq<Found>, i: nat, j: nat, forward: bool)
    requires i <= j <= |fs|
    ensures CountRules(fs[..i], forward) <= CountRules(fs[..j], forward)
    decreases j - i
  {
    if i < j {
      CountMonotone(fs, i, j - 1, forward);
      assert fs[..j][..j - 1] == fs[..j - 1];
    }
  }

  /**
   * A counter is shown exactly for the rate-rule templates of a direction
   * that has more than one, and the k of 'template k of n' lies between 1
   * and n.
   */
  lemma CounterRange(fs: seq<Found>, i: nat)
    requires i < |fs|
    ensures Label(fs, i) != NoCounter <==> RateRule(fs[i]) && CountRules(fs, fs[i].forward) > 1
    ensures Label(fs, i).ForwardTemplate? ==> fs[i].forward && 1 <= Label(fs, i).k <= Label(fs, i).n
    ensures Label(fs, i).ReverseTemplate? ==> !fs[i].forward && 1 <= Label(fs, i).k <= Label(fs, i).n
  {
    if RateRule(fs[i]) {
      assert fs[..i + 1][..i] == fs[..i];
      CountMonotone(fs, i + 1, |fs|, fs[i].forward);
      assert fs[..|fs|] == fs;
    }
  }

  /** Later templates of the same direction get larger numbers, so no two share one. */
  lemma CountersIncrease(fs: seq<Found>, i: nat, j: nat)
    requires i < j < |fs| && RateRule(fs[i]) && RateRule(fs[j]) && fs[i].forward == fs[j].forward
    requires Label(fs, i) != NoCounter
    ensures Label(fs, j) != NoCounter && Label(fs, i).k < Label(fs, j).k && Label(fs, i).n == Label(fs, j).n
  {
    var d := fs[i].forward;
    CountMonotone(fs, i + 1, j, d);
    assert fs[..j + 1][..j] == fs[..j];
  }
}
