/** The grouping step of renderProjects: projects are collected into a
    dictionary keyed by category, each key holding the projects of that
    category in list order, and the dictionary's keys are visited in the order
    they were first inserted. */
module Grouping {
  import opened Catalog

  /** The category key of every project, in list order. */
  function Categories(ps: seq<Project>): (cs: seq<string>)
    ensures |cs| == |ps|
  {
    if ps == [] then [] else Categories(ps[..|ps| - 1]) + [CategoryOf(ps[|ps| - 1])]
  }

  lemma {:induction false} CategoriesAt(ps: seq<Project>, j: int)
    requires 0 <= j < |ps|
    ensures Categories(ps)[j] == CategoryOf(ps[j])
  {
    if j < |ps| - 1 {
      CategoriesAt(ps[..|ps| - 1], j);
    }
  }

  /** The distinct elements of s in the order of their first appearance. */
  function FirstAppearance(s: seq<string>): seq<string> {
    if s == [] then []
    else
      var d := FirstAppearance(s[..|s| - 1]);
      if s[|s| - 1] in d then d else d + [s[|s| - 1]]
  }

  predicate Distinct(d: seq<string>) {
    forall i, j :: 0 <= i < j < |d| ==> d[i] != d[j]
  }

  /** FirstAppearance of a list extended by one element. */
  lemma FirstAppearanceSnoc(s: seq<string>, c: string)
    ensures FirstAppearance(s + [c]) ==
      if c in FirstAppearance(s) then FirstAppearance(s) else FirstAppearance(s) + [c]
  {
    assert (s + [c])[..|s|] == s;
  }

  /** The keys are the elements of s. */
  lemma {:induction false} FirstAppearanceHas(s: seq<string>, x: string)
    ensures x in FirstAppearance(s) <==> x in s
  {
    if s != [] {
      var init := s[..|s| - 1];
      FirstAppearanceHas(init, x);
      assert s == init + [s[|s| - 1]];
    }
  }

  /** Each key occurs once. */
  lemma {:induction false} FirstAppearanceDistinct(s: seq<string>)
    ensures Distinct(FirstAppearance(s))
  {
    if s != [] {
      var init := s[..|s| - 1];
      FirstAppearanceDistinct(init);
      var d, c := FirstAppearance(init), s[|s| - 1];
      if c !in d {
        var e := d + [c];
        assert FirstAppearance(s) == e;
        forall i, j | 0 <= i < j < |e| ensures e[i] != e[j] {
          assert e[i] == d[i] && d[i] in d;
          if j < |d| { assert e[j] == d[j]; } else { assert e[j] == c; }
        }
      }
    }
  }

  /** The projects of category k, in list order. */
  function InCategory(ps: seq<Project>, k: string): seq<Project> {
    if ps == [] then []
    else
      InCategory(ps[..|ps| - 1], k) + (if CategoryOf(ps[|ps| - 1]) == k then [ps[|ps| - 1]] else [])
  }

  /** The `byCategory` reduce: `order` is the key order of the dictionary
      (what Object.entries visits) and `groups` its contents. */
  method GroupByCategory(projects: seq<Project>) returns (order: seq<string>, groups: map<string, seq<Project>>)
    ensures order == FirstAppearance(Categories(projects)) && Distinct(order)
    ensures forall k :: k in groups <==> k in order
    ensures forall k :: k in groups ==> groups[k] == InCategory(projects, k)
  {
    order, groups := [], map[];
    var i := 0;
    while i < |projects|
      invariant 0 <= i <= |projects|
      invariant Grouped(projects[..i], order, groups)
    {
      var p := projects[i];
      var cat := CategoryOf(p);
      assert projects[..i + 1] == projects[..i] + [p];
      GroupedSnoc(projects[..i], p, order, groups);
      if cat in groups {
        groups := groups[cat := groups[cat] + [p]];
      } else {
        groups := groups[cat := [p]];
        order := order + [cat];
      }
      i := i + 1;
    }
    assert projects[..i] == projects;
    FirstAppearanceDistinct(Categories(projects));
  }

  /** The dictionary built from ps: its key order is the first-appearance
      order of the categories, its keys are those of the order, and each key
      holds the projects of its category. */
  ghost predicate Grouped(ps: seq<Project>, order: seq<string>, groups: map<string, seq<Project>>) {
    && order == FirstAppearance(Categories(ps))
    && (forall k :: k in groups <==> k in order)
    && (forall k :: k in groups ==> groups[k] == InCategory(ps, k))
  }

  /** One step of the reduce keeps the dictionary the one built from the
      projects seen so far. */
  lemma GroupedSnoc(done: seq<Project>, p: Project, order: seq<string>, groups: map<string, seq<Project>>)
    requires Grouped(done, order, groups)
    ensures var cat := CategoryOf(p);
      Grouped(done + [p],
        if cat in groups then order else order + [cat],
        groups[cat := if cat in groups then groups[cat] + [p] else [p]])
  {
    var cat := CategoryOf(p);
    FirstAppearanceHas(Categories(done), cat);
    OrderSnoc(done, p, order);
    KeysSnoc(cat, order, groups, p);
    ContentsSnoc(done, p, groups);
  }

  /** A step of the reduce, for the key order: a category seen for the first
      time is appended. */
  lemma OrderSnoc(done: seq<Project>, p: Project, order: seq<string>)
    requires order == FirstAppearance(Categories(done))
    ensures var cat := CategoryOf(p);
      FirstAppearance(Categories(done + [p])) == if cat in order then order else order + [cat]
  {
    CategoriesSnoc(done, p);
    FirstAppearanceSnoc(Categories(done), CategoryOf(p));
  }

  /** A step of the reduce, for the key set. */
  lemma KeysSnoc(cat: string, order: seq<string>, groups: map<string, seq<Project>>, p: Project)
    requires forall k :: k in groups <==> k in order
    ensures cat in groups ==> forall k :: k in groups[cat := groups[cat] + [p]] <==> k in order
    ensures cat !in groups ==> forall k :: k in groups[cat := [p]] <==> k in order + [cat]
  {
  }

  /** A step of the reduce, for the groups: `(acc[cat] ||= []).push(p)`. */
  lemma ContentsSnoc(done: seq<Project>, p: Project, groups: map<string, seq<Project>>)
    requires forall k :: k in groups ==> groups[k] == InCategory(done, k)
    requires CategoryOf(p) !in groups ==> CategoryOf(p) !in Categories(done)
    ensures var cat := CategoryOf(p);
      var g := groups[cat := if cat in groups then groups[cat] + [p] else [p]];
      forall k :: k in g ==> g[k] == InCategory(done + [p], k)
  {
    var cat := CategoryOf(p);
    var g := groups[cat := if cat in groups then groups[cat] + [p] else [p]];
    if cat !in groups {
      NoProjectNoGroup(done, cat);
    }
    forall k | k in g ensures g[k] == InCategory(done + [p], k) {
      InCategorySnoc(done, p, k);
    }
  }

  lemma CategoriesSnoc(ps: seq<Project>, p: Project)
    ensures Categories(ps + [p]) == Categories(ps) + [CategoryOf(p)]
  {
    assert (ps + [p])[..|ps|] == ps;
  }

  lemma InCategorySnoc(ps: seq<Project>, p: Project, k: string)
    ensures InCategory(ps + [p], k) == InCategory(ps, k) + (if CategoryOf(p) == k then [p] else [])
  {
    assert (ps + [p])[..|ps|] == ps;
  }

  /** A category that no project has has an empty group. */
  lemma {:induction false} NoProjectNoGroup(ps: seq<Project>, k: string)
    requires k !in Categories(ps)
    ensures InCategory(ps, k) == []
  {
    if ps != [] {
      var init := ps[..|ps| - 1];
      assert Categories(ps) == Categories(init) + [CategoryOf(ps[|ps| - 1])];
      NoProjectNoGroup(init, k);
    }
  }

  /** The indices of the projects of category k, in increasing order. */
  function CategoryIndices(ps: seq<Project>, k: string): seq<nat> {
    if ps == [] then []
    else CategoryIndices(ps[..|ps| - 1], k) + (if CategoryOf(ps[|ps| - 1]) == k then [|ps| - 1] else [])
  }

  /** Partition and stability: the group of k lists exactly the projects at the
      positions whose category is k, each once, in increasing position order.
      So every project lands in the group of its own category and in no other,
      and a group keeps the relative order of the list. */
  lemma {:induction false} GroupIsStableSelection(ps: seq<Project>, k: string)
    ensures var idx, g := CategoryIndices(ps, k), InCategory(ps, k);
      && |idx| == |g|
      && (forall m :: 0 <= m < |idx| ==> idx[m] < |ps| && g[m] == ps[idx[m]])
      && (forall m, n :: 0 <= m < n < |idx| ==> idx[m] < idx[n])
      && (forall j :: 0 <= j < |ps| ==> (j in idx <==> CategoryOf(ps[j]) == k))
  {
    if ps != [] {
      var last := |ps| - 1;
      var init := ps[..last];
      GroupIsStableSelection(init, k);
      var idx0, g0 := CategoryIndices(init, k), InCategory(init, k);
      var hit := CategoryOf(ps[last]) == k;
      assert CategoryIndices(ps, k) == idx0 + (if hit then [last] else []);
      assert InCategory(ps, k) == g0 + (if hit then [ps[last]] else []);
      assert forall j :: 0 <= j < last ==> ps[j] == init[j];
    }
  }

  /** Every project is grouped exactly once: its category is one of the keys,
      the project's position is selected by that key's group, and by no other
      key's. */
  lemma EveryProjectGrouped(ps: seq<Project>, j: int, k: string)
    requires 0 <= j < |ps|
    ensures CategoryOf(ps[j]) in FirstAppearance(Categories(ps))
    ensures ps[j] in InCategory(ps, CategoryOf(ps[j]))
    ensures j in CategoryIndices(ps, k) <==> k == CategoryOf(ps[j])
  {
    CategoriesAt(ps, j);
    FirstAppearanceHas(Categories(ps), CategoryOf(ps[j]));
    GroupIsStableSelection(ps, CategoryOf(ps[j]));
    GroupIsStableSelection(ps, k);
    var idx := CategoryIndices(ps, CategoryOf(ps[j]));
    var m :| 0 <= m < |idx| && idx[m] == j;
    assert InCategory(ps, CategoryOf(ps[j]))[m] == ps[j];
  }

  /** The keys come in the order in which their categories first occur in the
      list. */
  lemma {:induction false} KeysInFirstAppearanceOrder(s: seq<string>, i: int, j: int)
    requires 0 <= i < j < |FirstAppearance(s)|
    ensures FirstAppearance(s)[i] in s && FirstAppearance(s)[j] in s
    ensures FirstIndex(s, FirstAppearance(s)[i]) < FirstIndex(s, FirstAppearance(s)[j])
  {
    var init, c := s[..|s| - 1], s[|s| - 1];
    assert s == init + [c];
    FirstAppearanceSnoc(init, c);
    var d := FirstAppearance(init);
    var x, y := FirstAppearance(s)[i], FirstAppearance(s)[j];
    assert x == d[i];
    FirstAppearanceHas(init, x);
    FirstAppearanceHas(init, c);
    if j < |d| {
      assert y == d[j];
      FirstAppearanceHas(init, y);
      KeysInFirstAppearanceOrder(init, i, j);
      FirstIndexPrefix(init, c, x);
      FirstIndexPrefix(init, c, y);
    } else {
      assert y == c && c !in init;
      FirstIndexPrefix(init, c, x);
      FirstIndexLast(init, y);
    }
  }

  /** The position of the first occurrence of x in s. */
  function FirstIndex(s: seq<string>, x: string): (n: nat)
    requires x in s
    ensures n < |s| && s[n] == x && x !in s[..n]
  {
    if s[0] == x then 0 else 1 + FirstIndex(s[1..], x)
  }

  lemma {:induction false} FirstIndexPrefix(s: seq<string>, c: string, x: string)
    requires x in s
    ensures FirstIndex(s + [c], x) == FirstIndex(s, x)
  {
    if s[0] != x {
      assert (s + [c])[1..] == s[1..] + [c];
      FirstIndexPrefix(s[1..], c, x);
    }
  }

  lemma {:induction false} FirstIndexLast(s: seq<string>, c: string)
    requires c !in s
    ensures FirstIndex(s + [c], c) == |s|
  {
    if s != [] {
      assert (s + [c])[1..] == s[1..] + [c];
      FirstIndexLast(s[1..], c);
    }
  }
}
