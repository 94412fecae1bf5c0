/** What each mutation of the tab store opens, closes and caches. Two tabs are the same if they agree in
    their name, their parameters and their query. */
module TabLaws {
  import opened Basics
  import opened TagsView

  predicate Agree(t: Tab, v: View) {
    t.name == v.name && t.params == v.params && t.query == v.query
  }

  /** In every run open tabs differ in their name, their parameters or their query. */
  lemma OpenTabsDiffer(defaults: set<string>, ms: seq<Mutation>)
    ensures var tabs := Run(defaults, ms).visited;
            forall i, j :: 0 <= i < j < |tabs| ==> !Agree(tabs[i], tabs[j])
  {
    RunValid(defaults, ms);
    var tabs := Run(defaults, ms).visited;
    forall i, j | 0 <= i < j < |tabs| ensures !Agree(tabs[i], tabs[j]) {
      assert !Same(tabs[i], tabs[j]);
    }
  }

  /** The label is that of the page, followed by the parameters. */
  lemma {:induction false} LabelAppends(start: string, params: Fields, p: (string, string))
    ensures LabelOf(start, []) == start
    ensures LabelOf(start, params + [p]) == LabelOf(start, params) + "-" + p.1
    decreases |params|
  {
    if params == [] {
      assert [] + [p] == [p] && [p][1..] == [];
    } else {
      assert (params + [p])[1..] == params[1..] + [p];
      LabelAppends(start + "-" + params[0].1, params[1..], p);
    }
  }

  /** A tab is opened at the end, unless it is a default view or open already; and its name is then cached,
      if it is to be. */
  lemma AddOpensExactly(s: State, v: View)
    ensures var after := Apply(s, Add(v));
            if v.name in s.defaults || exists t :: t in s.visited && Agree(t, v)
            then after == s
            else
              && after.visited == s.visited + [v.(labelText := LabelOf(v.labelText, v.params))]
              && (if v.cache then forall n :: n in after.cached <==> n in s.cached || n == v.name else after.cached == s.cached)
  {
    assert Open(s.visited, v) <==> exists t :: t in s.visited && Same(t, v);
    var all := s.cached + [v.name];
    assert forall n :: n in all <==> n in s.cached || n == v.name;
    assert forall n :: n in all <==> n in SetOf(all);
    assert forall n :: n in Dedup(all) <==> n in SetOf(Dedup(all));
  }

  /** Exactly the first tab with this name, these parameters and this query is closed, and the first entry
      of its name is no longer cached. */
  lemma DelClosesExactly(s: State, v: View)
    ensures var tabs, after := s.visited, Apply(s, Del(v)).visited;
            && ((forall t :: t in tabs ==> !Agree(t, v)) ==> after == tabs)
            && (forall i :: FirstAgrees(tabs, i, v) ==> after == tabs[..i] + tabs[i + 1..])
    ensures var names, after := s.cached, Apply(s, Del(v)).cached;
            && (v.name !in names ==> after == names)
            && forall i :: 0 <= i < |names| && names[i] == v.name && v.name !in names[..i] ==> after == names[..i] + names[i + 1..]
  {
    var tabs, names := s.visited, s.cached;
    if forall t :: t in tabs ==> !Agree(t, v) {
      assert forall j :: 0 <= j < |tabs| ==> !Agree(tabs[j], v);
      RemoveNoTab(tabs, v);
    }
    forall i | FirstAgrees(tabs, i, v) ensures RemoveTab(tabs, v) == tabs[..i] + tabs[i + 1..] {
      forall j | 0 <= j < i ensures !Same(tabs[j], v) { assert !Agree(tabs[j], v); }
      RemoveFirstTab(tabs, i, v);
    }
    if v.name !in names {
      RemoveNoName(names, v.name);
    }
    forall i | 0 <= i < |names| && names[i] == v.name && v.name !in names[..i]
      ensures RemoveName(names, v.name) == names[..i] + names[i + 1..]
    {
      RemoveFirstName(names, i, v.name);
    }
  }

  predicate FirstAgrees(tabs: seq<Tab>, i: int, v: View) {
    0 <= i < |tabs| && Agree(tabs[i], v) && forall j :: 0 <= j < i ==> !Agree(tabs[j], v)
  }

  lemma {:induction false} KeptMember(tabs: seq<Tab>, keep: Option<View>, t: Tab)
    ensures t in Kept(tabs, keep) <==> t in tabs && (!t.closable || (keep.Some? && Same(t, keep.value)))
  {
    if tabs != [] {
      KeptMember(tabs[1..], keep, t);
      assert t in tabs <==> t == tabs[0] || t in tabs[1..];
    }
  }

  lemma {:induction false} CacheNamesMember(tabs: seq<Tab>, n: string)
    ensures n in CacheNames(tabs) <==> exists t :: t in tabs && t.cache && t.name == n
  {
    if tabs != [] {
      CacheNamesMember(tabs[1..], n);
      assert forall t :: t in tabs <==> t == tabs[0] || t in tabs[1..];
    }
  }

  /** The tabs that stay keep their order. */
  lemma {:induction false} KeptInOrder(a: seq<Tab>, b: seq<Tab>, keep: Option<View>)
    ensures Kept(a + b, keep) == Kept(a, keep) + Kept(b, keep)
    decreases |a|
  {
    if a == [] {
      assert a + b == b;
    } else {
      assert (a + b)[0] == a[0] && (a + b)[1..] == a[1..] + b;
      KeptInOrder(a[1..], b, keep);
      JoinAssociates(Kept(a, keep)[..|Kept(a, keep)| - |Kept(a[1..], keep)|], Kept(a[1..], keep), Kept(b, keep));
    }
  }

  /** Closing the other tabs, or all tabs, keeps exactly those that cannot be closed and, of the others, the
      one with this name, these parameters and this query; and exactly the names of those left that are to
      be cached stay cached. */
  lemma ClosingKeepsExactly(s: State, v: View)
    ensures var after := Apply(s, DelOthers(v));
            && (forall t :: t in after.visited <==>
                 t in s.visited && (!t.closable || Agree(t, v)))
            && (forall n :: n in after.cached <==> exists t :: t in after.visited && t.cache && t.name == n)
    ensures var after := Apply(s, DelAll);
            && (forall t :: t in after.visited <==> t in s.visited && !t.closable)
            && (forall n :: n in after.cached <==> exists t :: t in after.visited && t.cache && t.name == n)
  {
    forall t ensures t in Kept(s.visited, Some(v)) <==> t in s.visited && (!t.closable || Same(t, v)) {
      KeptMember(s.visited, Some(v), t);
    }
    forall t ensures t in Kept(s.visited, None) <==> t in s.visited && !t.closable {
      KeptMember(s.visited, None, t);
    }
    forall n ensures n in CacheNames(Kept(s.visited, Some(v))) <==> exists t :: t in Kept(s.visited, Some(v)) && t.cache && t.name == n {
      CacheNamesMember(Kept(s.visited, Some(v)), n);
    }
    forall n ensures n in CacheNames(Kept(s.visited, None)) <==> exists t :: t in Kept(s.visited, None) && t.cache && t.name == n {
      CacheNamesMember(Kept(s.visited, None), n);
    }
  }
}
