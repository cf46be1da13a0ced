/**
 * The URL patterns of the kinetics search, reaction and group-estimate
 * pages, generated from every combination of optional reactant, product
 * and resonance fragments. A generated pattern is kept as the list of
 * fragments it chains; `Pattern` spells it out as the regular expression.
 */
module DbUrls {
  import PyText

  datatype Fragment = Reactant1 | Reactant2 | Reactant3 | Product1 | Product2 | Product3 | Resonance

  /** The position of a fragment in `url_parts`. */
  function Rank(f: Fragment): nat
  {
    match f
    case Reactant1 => 0
    case Reactant2 => 1
    case Reactant3 => 2
    case Product1 => 3
    case Product2 => 4
    case Product3 => 5
    case Resonance => 6
  }

  /** `url_parts`. */
  function Part(f: Fragment): string
  {
    match f
    case Reactant1 => "reactant1=(?P<reactant1>[\\S\\s]+)"
    case Reactant2 => "__reactant2=(?P<reactant2>[\\S\\s]+)"
    case Reactant3 => "__reactant3=(?P<reactant3>[\\S\\s]+)"
    case Product1 => "__product1=(?P<product1>[\\S\\s]+)"
    case Product2 => "__product2=(?P<product2>[\\S\\s]+)"
    case Product3 => "__product3=(?P<product3>[\\S\\s]+)"
    case Resonance => "__res=(?P<resonance>[\\S\\s]+)"
  }

  /** The three generated families: search results, reaction pages, and group estimates (where product1 is mandatory). */
  datatype Page = Results | Reaction | FamilyGroup

  function Prefix(page: Page): string
  {
    match page
    case Results => "^kinetics/results/"
    case Reaction => "^kinetics/reaction/"
    case FamilyGroup => "^kinetics/families/(?P<family>[^/]+)/(?P<estimator>[^/]+)/"
  }

  /** The number of flags each loop draws from `itertools.product([1, 0], repeat=n)`. */
  function FlagCount(page: Page): nat
  {
    if page == FamilyGroup then 5 else 6
  }

  /** A route of the URL configuration: a hand-written pattern, or a generated one. */
  datatype Route = Fixed(pattern: string) | Generated(page: Page, fragments: seq<Fragment>)

  function Concat(parts: seq<Fragment>): string
  {
    if |parts| == 0 then "" else Part(parts[0]) + Concat(parts[1..])
  }

  /** The regular expression of a route. */
  function Pattern(route: Route): string
  {
    match route
    case Fixed(p) => p
    case Generated(page, fragments) => Prefix(page) + Concat(fragments) + "$"
  }

  /** A generated pattern is the page prefix, then reactant1, the other fragments, and a closing '$'. */
  lemma PatternShape(page: Page, flags: seq<bool>)
    requires |flags| == FlagCount(page)
    ensures PyText.StartsWith(Pattern(Generated(page, Fragments(page, flags))), Prefix(page) + Part(Reactant1))
    ensures PyText.EndsWith(Pattern(Generated(page, Fragments(page, flags))), "$")
  {
    var r := Fragments(page, flags);
    LeadsWithReactant1(page, flags);
    assert Concat(r) == Part(Reactant1) + Concat(r[1..]);
    OpenAndClosed(Prefix(page), Part(Reactant1), Concat(r[1..]));
  }

  /** The first fragment of every generated pattern is reactant1. */
  lemma LeadsWithReactant1(page: Page, flags: seq<bool>)
    requires |flags| == FlagCount(page)
    ensures |Fragments(page, flags)| > 0 && Fragments(page, flags)[0] == Reactant1
  {
    FragmentsShape(page, flags);
  }

  /** 'prefix + (first + rest) + "$"' starts with prefix + first and ends with '$'. */
  lemma OpenAndClosed(prefix: string, first: string, rest: string)
    ensures PyText.StartsWith(prefix + (first + rest) + "$", prefix + first)
    ensures PyText.EndsWith(prefix + (first + rest) + "$", "$")
  {
    var body := rest + "$";
    assert prefix + (first + rest) + "$" == prefix + (first + body);
    PyText.ExtendPrefix(first, body, first);
    PyText.PrependPrefix(prefix, first + body, first);
    PyText.EndsWithItself(prefix + (first + rest), "$");
  }

  function Pow2(n: nat): (r: nat)
    ensures r > 0
  {
    if n == 0 then 1 else 2 * Pow2(n - 1)
  }

  function Prepend(b: bool, tuples: seq<seq<bool>>): (r: seq<seq<bool>>)
    ensures |r| == |tuples|
    ensures forall k :: 0 <= k < |r| ==> r[k] == [b] + tuples[k]
  {
    if |tuples| == 0 then [] else [[b] + tuples[0]] + Prepend(b, tuples[1..])
  }

  /** `itertools.product([1, 0], repeat=n)`, 1 before 0 in every position. */
  function Product(n: nat): (r: seq<seq<bool>>)
    ensures |r| == Pow2(n)
    ensures forall k :: 0 <= k < |r| ==> |r[k]| == n
  {
    if n == 0 then [[]]
    else Prepend(true, Product(n - 1)) + Prepend(false, Product(n - 1))
  }

  /** Every combination of n flags is drawn, at some position k. */
  lemma {:induction false} ProductComplete(n: nat, t: seq<bool>) returns (k: nat)
    requires |t| == n
    ensures k < |Product(n)| && Product(n)[k] == t
  {
    if n == 0 {
      k := 0;
    } else {
      var rest := Product(n - 1);
      var j := ProductComplete(n - 1, t[1..]);
      assert t == [t[0]] + rest[j];
      k := if t[0] then j else |rest| + j;
      assert Product(n)[k] == [t[0]] + rest[j];
    }
  }

  /** The last combination `itertools.product` draws. */
  function LastDrawn(n: nat): seq<bool>
  {
    Product(n)[Pow2(n) - 1]
  }

  /** The first combination drawn has every flag set, so the most specific pattern of a loop comes first; the last has none. */
  lemma {:induction false} ProductEnds(n: nat)
    ensures forall j :: 0 <= j < n ==> Product(n)[0][j]
    ensures forall j :: 0 <= j < n ==> !LastDrawn(n)[j]
  {
    if n > 0 {
      ProductEnds(n - 1);
      var rest := Product(n - 1);
      var high := Prepend(true, rest);
      var low := Prepend(false, rest);
      var first := rest[0];
      var last := LastDrawn(n - 1);
      assert |high| == |rest| && Pow2(n) - 1 == |high| + |rest| - 1;
      assert Product(n) == high + low;
      assert Product(n)[0] == high[0] == [true] + first;
      assert LastDrawn(n) == low[|rest| - 1] == [false] + last;
      forall j | 0 <= j < n
        ensures Product(n)[0][j] && !LastDrawn(n)[j]
      {
        if j > 0 {
          assert Product(n)[0][j] == first[j - 1];
          assert LastDrawn(n)[j] == last[j - 1];
        }
      }
    }
  }

  /** The fragment at position i of `url_parts`. */
  function FragmentAt(i: nat): (f: Fragment)
    requires i < 7
    ensures Rank(f) == i
  {
    [Reactant1, Reactant2, Reactant3, Product1, Product2, Product3, Resonance][i]
  }

  /** The fragments among the first n of `url_parts` whose mask bit is set, in order. */
  function Selected(mask: seq<bool>, n: nat): seq<Fragment>
    requires n <= |mask| && n <= 7
  {
    if n == 0 then [] else Selected(mask, n - 1) + (if mask[n - 1] then [FragmentAt(n - 1)] else [])
  }

  /** A fragment is selected exactly when its bit is set. */
  lemma {:induction false} SelectedMember(mask: seq<bool>, n: nat, f: Fragment)
    requires n <= |mask| && n <= 7
    ensures f in Selected(mask, n) <==> Rank(f) < n && mask[Rank(f)]
  {
    if n > 0 {
      SelectedMember(mask, n - 1, f);
      if Rank(f) == n - 1 {
        assert f == FragmentAt(n - 1) by {
          assert Rank(FragmentAt(n - 1)) == Rank(f);
        }
      }
    }
  }

  /** The selected fragments keep the order of `url_parts`. */
  lemma {:induction false} SelectedOrdered(mask: seq<bool>, n: nat)
    requires n <= |mask| && n <= 7
    ensures forall i, j :: 0 <= i < j < |Selected(mask, n)| ==> Rank(Selected(mask, n)[i]) < Rank(Selected(mask, n)[j])
    ensures forall i :: 0 <= i < |Selected(mask, n)| ==> Rank(Selected(mask, n)[i]) < n
  {
    if n > 0 {
      SelectedOrdered(mask, n - 1);
    }
  }

  /** The mask of one combination: reactant1 always, reactant3 only with reactant2, product3 only with product2, product1 always for the group loop. */
  function Mask(page: Page, flags: seq<bool>): (m: seq<bool>)
    requires |flags| == FlagCount(page)
    ensures |m| == 7
  {
    var p := if page == FamilyGroup then [flags[0], flags[1], true] + flags[2..] else flags;
    [true, p[0], p[0] && p[1], p[2], p[3], p[3] && p[4], p[5]]
  }

  /** The fragments a loop body chains for one combination of flags. */
  function Fragments(page: Page, flags: seq<bool>): seq<Fragment>
    requires |flags| == FlagCount(page)
  {
    Selected(Mask(page, flags), 7)
  }

  /** The shape of every generated pattern: reactant1 first, the fixed order, reactant3 only with reactant2, product3 only with product2, product1 in every group pattern. */
  lemma FragmentsShape(page: Page, flags: seq<bool>)
    requires |flags| == FlagCount(page)
    ensures var r := Fragments(page, flags);
      && |r| > 0 && r[0] == Reactant1
      && (forall i, j :: 0 <= i < j < |r| ==> Rank(r[i]) < Rank(r[j]))
      && (Reactant3 in r ==> Reactant2 in r)
      && (Product3 in r ==> Product2 in r)
      && (page == FamilyGroup ==> Product1 in r)
  {
    var m := Mask(page, flags);
    var r := Fragments(page, flags);
    SelectedOrdered(m, 7);
    SelectedMember(m, 7, Reactant1);
    SelectedMember(m, 7, Reactant2);
    SelectedMember(m, 7, Reactant3);
    SelectedMember(m, 7, Product1);
    SelectedMember(m, 7, Product2);
    SelectedMember(m, 7, Product3);
    assert Reactant1 in r;
  }

  lemma GroupHasProduct1(flags: seq<bool>)
    requires |flags| == FlagCount(FamilyGroup)
    ensures Product1 in Fragments(FamilyGroup, flags)
  {
    SelectedMember(Mask(FamilyGroup, flags), 7, Product1);
  }

  /** Two combinations chain the same fragments exactly when their masks agree. */
  lemma FragmentsDetermineMask(page: Page, f: seq<bool>, g: seq<bool>)
    requires |f| == FlagCount(page) && |g| == FlagCount(page)
    ensures Fragments(page, f) == Fragments(page, g) <==> Mask(page, f) == Mask(page, g)
  {
    var a := Mask(page, f);
    var b := Mask(page, g);
    if Fragments(page, f) == Fragments(page, g) {
      forall i | 0 <= i < 7
        ensures a[i] == b[i]
      {
        SelectedMember(a, 7, FragmentAt(i));
        SelectedMember(b, 7, FragmentAt(i));
      }
    }
  }

  /** Without reactant2 the reactant3 flag is ignored, and without product2 the product3 flag: the duplicates among the generated patterns. */
  lemma IgnoredFlags(page: Page, flags: seq<bool>)
    requires |flags| == FlagCount(page)
    ensures !flags[0] ==> Fragments(page, flags) == Fragments(page, flags[1 := !flags[1]])
    ensures var p2 := if page == FamilyGroup then 2 else 3;
      !flags[p2] ==> Fragments(page, flags) == Fragments(page, flags[p2 + 1 := !flags[p2 + 1]])
  {
    var p2 := if page == FamilyGroup then 2 else 3;
    if !flags[0] {
      assert Mask(page, flags) == Mask(page, flags[1 := !flags[1]]);
    }
    if !flags[p2] {
      assert Mask(page, flags) == Mask(page, flags[p2 + 1 := !flags[p2 + 1]]);
    }
  }

  /** One loop body: `url_pattern +=` each selected fragment in turn. */
  method BuildFragments(page: Page, flags: seq<bool>) returns (parts: seq<Fragment>)
    requires |flags| == FlagCount(page)
    ensures parts == Fragments(page, flags)
  {
    ghost var m := Mask(page, flags);
    var r2 := flags[0];
    var r3 := flags[1];
    var p1 := if page == FamilyGroup then true else flags[2];
    var p2 := if page == FamilyGroup then flags[2] else flags[3];
    var p3 := if page == FamilyGroup then flags[3] else flags[4];
    var res := if page == FamilyGroup then flags[4] else flags[5];
    parts := [Reactant1];
    assert parts == Selected(m, 1);
    if r2 {
      parts := parts + [Reactant2];
    }
    assert parts == Selected(m, 2);
    if r2 && r3 {
      parts := parts + [Reactant3];
    }
    assert parts == Selected(m, 3);
    if p1 {
      parts := parts + [Product1];
    }
    assert parts == Selected(m, 4);
    if p2 {
      parts := parts + [Product2];
    }
    assert parts == Selected(m, 5);
    if p2 && p3 {
      parts := parts + [Product3];
    }
    assert parts == Selected(m, 6);
    if res {
      parts := parts + [Resonance];
    }
  }

  /** The routes generated for a list of flag combinations, in order. */
  function GeneratedRoutes(page: Page, combos: seq<seq<bool>>): (r: seq<Route>)
    requires forall k :: 0 <= k < |combos| ==> |combos[k]| == FlagCount(page)
    ensures |r| == |combos|
    ensures forall k :: 0 <= k < |r| ==> r[k] == Generated(page, Fragments(page, combos[k]))
  {
    if |combos| == 0 then []
    else GeneratedRoutes(page, combos[..|combos| - 1]) + [Generated(page, Fragments(page, combos[|combos| - 1]))]
  }

  lemma GeneratedRoutesStep(page: Page, combos: seq<seq<bool>>, k: nat)
    requires forall j :: 0 <= j < |combos| ==> |combos[j]| == FlagCount(page)
    requires k < |combos|
    ensures GeneratedRoutes(page, combos[..k + 1]) == GeneratedRoutes(page, combos[..k]) + [Generated(page, Fragments(page, combos[k]))]
  {
    assert combos[..k + 1][..k] == combos[..k];
  }

  /** Every group pattern chains product1. */
  lemma GroupRoutesHaveProduct1(combos: seq<seq<bool>>)
    requires forall k :: 0 <= k < |combos| ==> |combos[k]| == FlagCount(FamilyGroup)
    ensures forall k :: 0 <= k < |combos| ==> Product1 in GeneratedRoutes(FamilyGroup, combos)[k].fragments
  {
    forall k | 0 <= k < |combos|
      ensures Product1 in GeneratedRoutes(FamilyGroup, combos)[k].fragments
    {
      GroupHasProduct1(combos[k]);
    }
  }

  /** The routes one generator loop appends for a page. */
  function Section(page: Page): seq<Route>
  {
    GeneratedRoutes(page, Product(FlagCount(page)))
  }

  /**
   * One generator loop: a route per combination of flags, in the order
   * they are drawn (`Product(FlagCount(page))` in the configuration),
   * appended after the existing routes, which are left unchanged.
   */
  method AppendGenerated(urlpatterns: seq<Route>, page: Page, combos: seq<seq<bool>>) returns (result: seq<Route>)
    requires forall j :: 0 <= j < |combos| ==> |combos[j]| == FlagCount(page)
    ensures result == urlpatterns + GeneratedRoutes(page, combos)
  {
    result := urlpatterns;
    var k := 0;
    while k < |combos|
      invariant 0 <= k <= |combos|
      invariant result == urlpatterns + GeneratedRoutes(page, combos[..k])
    {
      var parts := BuildFragments(page, combos[k]);
      GeneratedRoutesStep(page, combos, k);
      result := result + [Generated(page, parts)];
      k := k + 1;
    }
    assert combos[..k] == combos;
  }

  /** The generator loops append 64 results, 64 reaction and 32 group patterns. */
  lemma SectionSizes(page: Page)
    ensures |Section(page)| == if page == FamilyGroup then 32 else 64
  {
    assert Pow2(5) == 32 && Pow2(6) == 64;
  }
}
