/** The store of open tabs and of the page names to keep cached. */
module TagsView {
  import opened Basics

  /** Parameters or query of a route, in order. Two of them have the same JSON text exactly if they are
      equal, since all values are strings. */
  type Fields = seq<(string, string)>

  /** An open tab. */
  datatype Tab = Tab(name: string, params: Fields, query: Fields, labelText: string, closable: bool, cache: bool)

  /** The route that a tab is opened for, or that is looked up among the tabs, has the same fields. */
  type View = Tab

  datatype State = State(visited: seq<Tab>, cached: seq<string>, defaults: set<string>)

  predicate Same(t: Tab, v: View) {
    t.name == v.name && t.params == v.params && t.query == v.query
  }

  function LabelOf(start: string, params: Fields): string
    decreases |params|
  {
    if params == [] then start else LabelOf(start + "-" + params[0].1, params[1..])
  }

  function TabFor(v: View): Tab {
    v.(labelText := LabelOf(v.labelText, v.params))
  }

  predicate Open(visited: seq<Tab>, v: View) {
    exists t :: t in visited && Same(t, v)
  }

  /** The names of the open tabs that are to be cached, one for each tab. */
  function CacheNames(tabs: seq<Tab>): seq<string> {
    if tabs == [] then [] else (if tabs[0].cache then [tabs[0].name] else []) + CacheNames(tabs[1..])
  }

  function RemoveTab(tabs: seq<Tab>, v: View): seq<Tab> {
    if tabs == [] then [] else if Same(tabs[0], v) then tabs[1..] else [tabs[0]] + RemoveTab(tabs[1..], v)
  }

  function RemoveName(names: seq<string>, name: string): seq<string> {
    if names == [] then [] else if names[0] == name then names[1..] else [names[0]] + RemoveName(names[1..], name)
  }

  /** The tabs that stay open when all others but `keep` are closed. */
  function Kept(tabs: seq<Tab>, keep: Option<View>): seq<Tab> {
    if tabs == [] then []
    else
      (if !tabs[0].closable || (keep.Some? && Same(tabs[0], keep.value)) then [tabs[0]] else []) + Kept(tabs[1..], keep)
  }

  datatype Mutation = Add(view: View) | Del(view: View) | DelOthers(view: View) | DelAll

  function Apply(s: State, m: Mutation): State {
    match m
    case Add(v) =>
      if v.name in s.defaults || Open(s.visited, v) then s
      else s.(visited := s.visited + [TabFor(v)], cached := if v.cache then Dedup(s.cached + [v.name]) else s.cached)
    case Del(v) => s.(visited := RemoveTab(s.visited, v), cached := RemoveName(s.cached, v.name))
    case DelOthers(v) => s.(visited := Kept(s.visited, Some(v)), cached := CacheNames(Kept(s.visited, Some(v))))
    case DelAll => s.(visited := Kept(s.visited, None), cached := CacheNames(Kept(s.visited, None)))
  }

  function Run(defaults: set<string>, ms: seq<Mutation>): State {
    if ms == [] then State([], [], defaults) else Apply(Run(defaults, ms[..|ms| - 1]), ms[|ms| - 1])
  }

  // ----- Invariants

  ghost predicate DistinctTabs(tabs: seq<Tab>) {
    forall i, j :: 0 <= i < j < |tabs| ==> !Same(tabs[i], tabs[j])
  }

  /** Open tabs are pairwise different, none is a default view, and each name is cached at most as often
      as there are open tabs of that name to be cached. */
  ghost predicate Valid(s: State) {
    && DistinctTabs(s.visited)
    && (forall t :: t in s.visited ==> t.name !in s.defaults)
    && multiset(s.cached) <= multiset(CacheNames(s.visited))
  }

  lemma {:induction false} CacheNamesJoin(a: seq<Tab>, b: seq<Tab>)
    ensures CacheNames(a + b) == CacheNames(a) + CacheNames(b)
  {
    if a == [] {
      assert a + b == b;
    } else {
      assert (a + b)[1..] == a[1..] + b;
      CacheNamesJoin(a[1..], b);
    }
  }

  lemma {:induction false} RemoveNameCounts(names: seq<string>, name: string)
    ensures multiset(RemoveName(names, name)) == multiset(names) - multiset{name}
  {
    if names != [] {
      assert names == [names[0]] + names[1..];
      RemoveNameCounts(names[1..], name);
    }
  }

  lemma {:induction false} RemoveTabMembers(tabs: seq<Tab>, v: View)
    ensures forall t :: t in RemoveTab(tabs, v) ==> t in tabs
    ensures forall n :: n in CacheNames(RemoveTab(tabs, v)) ==> n in CacheNames(tabs)
  {
    if tabs != [] && !Same(tabs[0], v) {
      RemoveTabMembers(tabs[1..], v);
      assert ([tabs[0]] + RemoveTab(tabs[1..], v))[1..] == RemoveTab(tabs[1..], v);
    }
  }

  lemma {:induction false} RemoveTabCounts(tabs: seq<Tab>, v: View)
    ensures multiset(CacheNames(tabs)) - multiset{v.name} <= multiset(CacheNames(RemoveTab(tabs, v)))
  {
    if tabs != [] {
      var rest := RemoveTab(tabs[1..], v);
      RemoveTabCounts(tabs[1..], v);
      if !Same(tabs[0], v) {
        assert ([tabs[0]] + rest)[1..] == rest;
      }
    }
  }

  lemma DistinctCons(t: Tab, tabs: seq<Tab>)
    ensures DistinctTabs([t] + tabs) <==> DistinctTabs(tabs) && forall u :: u in tabs ==> !Same(t, u)
  {
    var all := [t] + tabs;
    assert forall i :: 0 <= i < |tabs| ==> all[i + 1] == tabs[i];
    if DistinctTabs(all) {
      forall i, j | 0 <= i < j < |tabs| ensures !Same(tabs[i], tabs[j]) {
        assert !Same(all[i + 1], all[j + 1]);
      }
      forall u | u in tabs ensures !Same(t, u) {
        var i :| 0 <= i < |tabs| && tabs[i] == u;
        assert !Same(all[0], all[i + 1]);
      }
    }
  }

  lemma {:induction false} RemoveTabDistinct(tabs: seq<Tab>, v: View)
    requires DistinctTabs(tabs)
    ensures DistinctTabs(RemoveTab(tabs, v)) && !Open(RemoveTab(tabs, v), v)
  {
    if tabs != [] {
      assert tabs == [tabs[0]] + tabs[1..];
      DistinctCons(tabs[0], tabs[1..]);
      if !Same(tabs[0], v) {
        RemoveTabDistinct(tabs[1..], v);
        RemoveTabMembers(tabs[1..], v);
        DistinctCons(tabs[0], RemoveTab(tabs[1..], v));
      }
    }
  }

  lemma {:induction false} KeptKeeps(tabs: seq<Tab>, keep: Option<View>)
    ensures forall t :: t in Kept(tabs, keep) ==> t in tabs
    ensures DistinctTabs(tabs) ==> DistinctTabs(Kept(tabs, keep))
  {
    if tabs != [] {
      KeptKeeps(tabs[1..], keep);
      assert tabs == [tabs[0]] + tabs[1..];
      DistinctCons(tabs[0], tabs[1..]);
      DistinctCons(tabs[0], Kept(tabs[1..], keep));
    }
  }

  lemma {:induction false} DistinctCounts(xs: seq<string>, x: string)
    requires Distinct(xs)
    ensures multiset(xs)[x] == if x in xs then 1 else 0
  {
    if xs != [] {
      assert xs == [xs[0]] + xs[1..];
      DistinctCounts(xs[1..], x);
    }
  }

  lemma AddCounts(s: State, v: View)
    requires multiset(s.cached) <= multiset(CacheNames(s.visited))
    ensures multiset(Apply(s, Add(v)).cached) <= multiset(CacheNames(Apply(s, Add(v)).visited))
  {
    CacheNamesJoin(s.visited, [TabFor(v)]);
    if v.cache {
      var all := s.cached + [v.name];
      assert CacheNames([TabFor(v)]) == [v.name];
      forall n ensures multiset(Dedup(all))[n] <= multiset(all)[n] {
        DistinctCounts(Dedup(all), n);
        assert n in Dedup(all) <==> n in SetOf(all);
        assert n in all ==> multiset(all)[n] > 0;
      }
    } else {
      assert CacheNames([TabFor(v)]) == [];
    }
  }

  lemma AddDistinct(tabs: seq<Tab>, v: View)
    requires DistinctTabs(tabs) && !Open(tabs, v)
    ensures DistinctTabs(tabs + [TabFor(v)])
  {
    forall i | 0 <= i < |tabs| ensures !Same(tabs[i], TabFor(v)) {
      assert tabs[i] in tabs && !Same(tabs[i], v);
    }
  }

  lemma AddValid(s: State, v: View)
    requires Valid(s)
    ensures Valid(Apply(s, Add(v)))
  {
    AddCounts(s, v);
    if Apply(s, Add(v)) != s {
      AddDistinct(s.visited, v);
    }
  }

  lemma {:induction false} RunValid(defaults: set<string>, ms: seq<Mutation>)
    ensures Valid(Run(defaults, ms))
    decreases |ms|
  {
    if ms != [] {
      var s, m := Run(defaults, ms[..|ms| - 1]), ms[|ms| - 1];
      RunValid(defaults, ms[..|ms| - 1]);
      match m {
        case Add(v) => AddValid(s, v);
        case Del(v) =>
          RemoveTabMembers(s.visited, v);
          RemoveTabDistinct(s.visited, v);
          RemoveTabCounts(s.visited, v);
          RemoveNameCounts(s.cached, v.name);
        case DelOthers(v) => KeptKeeps(s.visited, Some(v));
        case DelAll => KeptKeeps(s.visited, None);
      }
    }
  }

  /** The converse of the cache bound: every open tab that is to be cached has its name cached. */
  ghost predicate AllCached(s: State) {
    forall n :: n in CacheNames(s.visited) ==> n in s.cached
  }

  lemma AddKeepsAllCached(s: State, v: View)
    requires AllCached(s)
    ensures AllCached(Apply(s, Add(v)))
  {
    CacheNamesJoin(s.visited, [TabFor(v)]);
    if v.cache {
      assert CacheNames([TabFor(v)]) == [v.name];
      assert forall n :: n in s.cached + [v.name] ==> n in SetOf(s.cached + [v.name]);
      assert forall n :: n in SetOf(Dedup(s.cached + [v.name])) ==> n in Dedup(s.cached + [v.name]);
    } else {
      assert CacheNames([TabFor(v)]) == [];
    }
  }

  lemma DelKeepsAllCached(s: State, v: View)
    requires AllCached(s)
    ensures AllCached(Apply(s, Del(v))) <==>
            v.name !in CacheNames(RemoveTab(s.visited, v)) || multiset(s.cached)[v.name] != 1
  {
    var left, names := CacheNames(RemoveTab(s.visited, v)), RemoveName(s.cached, v.name);
    RemoveTabMembers(s.visited, v);
    RemoveNameCounts(s.cached, v.name);
    forall n ensures n in names <==> multiset(names)[n] > 0 {}
    forall n ensures n in s.cached <==> multiset(s.cached)[n] > 0 {}
    if v.name in left {
      assert v.name in s.cached;
    }
  }

  /** Every mutation but `Del` keeps that. `Del` keeps it exactly if no tab of the name is left to be
      cached, or the name is cached more than once: otherwise a tab stays open without its cache. */
  lemma AllCachedKept(s: State, m: Mutation)
    requires AllCached(s)
    ensures AllCached(Apply(s, m)) <==>
            (m.Del? ==> m.view.name !in CacheNames(RemoveTab(s.visited, m.view)) || multiset(s.cached)[m.view.name] != 1)
  {
    match m
    case Add(v) => AddKeepsAllCached(s, v);
    case Del(v) => DelKeepsAllCached(s, v);
    case DelOthers(_) =>
    case DelAll =>
  }

  function CachedTab(name: string, p: Fields): Tab {
    Tab(name, p, [], "", true, true)
  }

  lemma OpenFirst(a: View)
    requires a.cache
    ensures Apply(State([], [], {}), Add(a)) == State([TabFor(a)], [a.name], {})
  {
    assert !Open([], a);
    DedupOne(a.name);
    assert [] + [a.name] == [a.name] && [] + [TabFor(a)] == [TabFor(a)];
  }

  lemma OpenSecond(a: View, b: View)
    requires b.cache && b.name == a.name && !Same(TabFor(a), b)
    ensures Apply(State([TabFor(a)], [a.name], {}), Add(b)) == State([TabFor(a), TabFor(b)], [a.name], {})
  {
    DedupOne(a.name);
    assert [a.name] + [a.name] == [a.name, a.name] && [TabFor(a)] + [TabFor(b)] == [TabFor(a), TabFor(b)];
  }

  lemma TwoTabs(name: string, p: Fields, q: Fields)
    requires p != q
    ensures var a, b := CachedTab(name, p), CachedTab(name, q);
            Run({}, [Add(a), Add(b)]) == State([TabFor(a), TabFor(b)], [name], {})
  {
    var a, b := CachedTab(name, p), CachedTab(name, q);
    OpenFirst(a);
    OpenSecond(a, b);
    RunTwo(Add(a), Add(b));
  }

  /** Two open tabs of one page: when the first is closed, the second stays open without its cache. */
  lemma CacheDropped(name: string, p: Fields, q: Fields)
    requires p != q
    ensures var a, b := CachedTab(name, p), CachedTab(name, q);
            var before := Run({}, [Add(a), Add(b)]);
            var after := Apply(before, Del(a));
            && AllCached(before) && after == State([TabFor(b)], [], {}) && !AllCached(after)
  {
    var a, b := CachedTab(name, p), CachedTab(name, q);
    TwoTabs(name, p, q);
    assert [TabFor(a), TabFor(b)][1..] == [TabFor(b)] && [name][1..] == [];
    assert CacheNames([TabFor(b)]) == [name] && name in [name];
    assert CacheNames([TabFor(a), TabFor(b)]) == [name, name];
  }

  lemma DedupOne(name: string)
    ensures Dedup([name]) == [name] && Dedup([name, name]) == [name]
  {
    assert [name][..0] == [] && [name, name][..1] == [name];
  }

  lemma RunTwo(m: Mutation, n: Mutation)
    ensures Run({}, [m, n]) == Apply(Apply(State([], [], {}), m), n)
  {
    assert [m, n][..1] == [m] && [m][..0] == [];
    assert Run({}, []) == State([], [], {});
    assert Run({}, [m]) == Apply(Run({}, []), m);
  }

  lemma {:induction false} RemoveFirstTab(tabs: seq<Tab>, i: nat, v: View)
    requires i < |tabs| && Same(tabs[i], v) && forall j :: 0 <= j < i ==> !Same(tabs[j], v)
    ensures RemoveTab(tabs, v) == tabs[..i] + tabs[i + 1..]
  {
    if i > 0 {
      RemoveFirstTab(tabs[1..], i - 1, v);
      assert tabs[1..][..i - 1] == tabs[1..i] && tabs[1..][i..] == tabs[i + 1..];
    }
  }

  lemma {:induction false} RemoveNoTab(tabs: seq<Tab>, v: View)
    requires forall j :: 0 <= j < |tabs| ==> !Same(tabs[j], v)
    ensures RemoveTab(tabs, v) == tabs
  {
    if tabs != [] {
      RemoveNoTab(tabs[1..], v);
    }
  }

  lemma {:induction false} RemoveFirstName(names: seq<string>, i: nat, name: string)
    requires i < |names| && names[i] == name && name !in names[..i]
    ensures RemoveName(names, name) == names[..i] + names[i + 1..]
  {
    if i > 0 {
      assert names[0] in names[..i] && names[1..][..i - 1] == names[1..i] && names[1..][i..] == names[i + 1..];
      RemoveFirstName(names[1..], i - 1, name);
    }
  }

  lemma {:induction false} RemoveNoName(names: seq<string>, name: string)
    requires name !in names
    ensures RemoveName(names, name) == names
  {
    if names != [] {
      RemoveNoName(names[1..], name);
    }
  }

  lemma KeptStep(tabs: seq<Tab>, i: nat, keep: Option<View>, done: seq<Tab>)
    requires i < |tabs|
    ensures
      var stays := !tabs[i].closable || (keep.Some? && Same(tabs[i], keep.value));
      done + Kept(tabs[i..], keep) == (if stays then done + [tabs[i]] else done) + Kept(tabs[i + 1..], keep)
  {
    assert tabs[i..][1..] == tabs[i + 1..];
  }

  lemma CacheNamesSnoc(tabs: seq<Tab>, v: Tab)
    ensures CacheNames(tabs + [v]) == if v.cache then CacheNames(tabs) + [v.name] else CacheNames(tabs)
  {
    CacheNamesJoin(tabs, [v]);
    assert CacheNames([v]) == if v.cache then [v.name] else [];
  }

  /** The store, whose lists the mutations push to, splice and replace. */
  class Store {
    var visitedViews: seq<Tab>
    var cachedViews: seq<string>
    const defaultNames: set<string>

    constructor (defaultNames: set<string>)
      ensures Current() == State([], [], defaultNames)
    {
      this.defaultNames := defaultNames;
      visitedViews, cachedViews := [], [];
    }

    ghost function Current(): State
      reads this
    {
      State(visitedViews, cachedViews, defaultNames)
    }

    method AddVisitedView(view: View)
      modifies this
      ensures Current() == Apply(old(Current()), Add(view))
    {
      if view.name in defaultNames {
        return;
      }
      for i := 0 to |visitedViews|
        invariant forall j :: 0 <= j < i ==> !Same(visitedViews[j], view)
        invariant Current() == old(Current())
      {
        if Same(visitedViews[i], view) {
          assert visitedViews[i] in visitedViews;
          return;
        }
      }
      var labelText := view.labelText;
      assert view.params[0..] == view.params;
      for k := 0 to |view.params|
        invariant LabelOf(labelText, view.params[k..]) == LabelOf(view.labelText, view.params)
        invariant Current() == old(Current())
      {
        assert view.params[k..][1..] == view.params[k + 1..];
        labelText := labelText + "-" + view.params[k].1;
      }
      visitedViews := visitedViews + [Tab(view.name, view.params, view.query, labelText, view.closable, view.cache)];
      if view.cache {
        cachedViews := Dedup(cachedViews + [view.name]);
      }
    }

    method DelVisitedView(view: View)
      modifies this
      ensures Current() == Apply(old(Current()), Del(view))
    {
      SpliceTab(view);
      SpliceName(view.name);
    }

    method SpliceTab(view: View)
      modifies this`visitedViews
      ensures visitedViews == RemoveTab(old(visitedViews), view)
    {
      for i := 0 to |visitedViews|
        invariant visitedViews == old(visitedViews)
        invariant forall j :: 0 <= j < i ==> !Same(visitedViews[j], view)
      {
        if Same(visitedViews[i], view) {
          RemoveFirstTab(visitedViews, i, view);
          visitedViews := visitedViews[..i] + visitedViews[i + 1..];
          return;
        }
      }
      RemoveNoTab(visitedViews, view);
    }

    method SpliceName(name: string)
      modifies this`cachedViews
      ensures cachedViews == RemoveName(old(cachedViews), name)
    {
      for i := 0 to |cachedViews|
        invariant cachedViews == old(cachedViews)
        invariant name !in cachedViews[..i]
      {
        if cachedViews[i] == name {
          RemoveFirstName(cachedViews, i, name);
          cachedViews := cachedViews[..i] + cachedViews[i + 1..];
          return;
        }
      }
      RemoveNoName(cachedViews, name);
    }

    /** The loop of both closing mutations. */
    method Retain(keep: Option<View>)
      modifies this
      ensures visitedViews == Kept(old(visitedViews), keep)
      ensures cachedViews == CacheNames(Kept(old(visitedViews), keep))
    {
      var visitedArr, cachedArr := [], [];
      ghost var goal := Kept(visitedViews, keep);
      assert visitedViews[0..] == visitedViews;
      for i := 0 to |visitedViews|
        invariant visitedViews == old(visitedViews)
        invariant visitedArr + Kept(visitedViews[i..], keep) == goal
        invariant cachedArr == CacheNames(visitedArr)
      {
        var v := visitedViews[i];
        KeptStep(visitedViews, i, keep, visitedArr);
        if !v.closable || (keep.Some? && Same(v, keep.value)) {
          CacheNamesSnoc(visitedArr, v);
          visitedArr := visitedArr + [v];
          if v.cache {
            cachedArr := cachedArr + [v.name];
          }
        }
      }
      visitedViews, cachedViews := visitedArr, cachedArr;
    }

    method DelOthersViews(view: View)
      modifies this
      ensures Current() == Apply(old(Current()), DelOthers(view))
    {
      Retain(Some(view));
    }

    method DelAllViews()
      modifies this
      ensures Current() == Apply(old(Current()), DelAll)
    {
      Retain(None);
    }
  }
}
