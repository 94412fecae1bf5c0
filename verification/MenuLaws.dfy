/** Which items a menu has, in which order and nested how, in terms of the chains of routes. */
module MenuLaws {
  import opened Basics
  import opened RouteForest
  import opened RouteRows

  /** What a menu item shows of its route. */
  datatype Head = Head(meta: Meta, icon: Option<string>, path: Option<string>, name: Option<string>, group: bool)

  function HeadOf(t: RouteTree): Head {
    Head(t.info.meta, t.info.icon, t.info.path, t.info.name, t.Parent?)
  }

  function ItemHead(item: MenuItem): Head {
    Head(item.meta, item.icon, item.path, item.name, item.Group?)
  }

  function Below(item: MenuItem): seq<MenuItem> {
    if item.Group? then item.children else []
  }

  /** What a menu is built for. */
  datatype Entry = Entry(prop: string, navDefault: string, permissions: seq<string>)

  /** The route is shown in this entry: it names the entry, or none and the entry is the default; it is not
      hidden; and its role is empty or granted. */
  predicate Visible(t: RouteTree, e: Entry) {
    var meta := t.info.meta;
    && (meta.nav == Some(e.prop) || ((meta.nav == None || meta.nav == Some("")) && e.prop == e.navDefault))
    && meta.hidden == false
    && (meta.role == None || meta.role == Some("") || meta.role.value in e.permissions)
  }

  predicate Labelled(t: RouteTree) {
    t.info.meta.labelText.Some?
  }

  /** The labelled routes of a chain, as menu items. */
  function Heads(path: seq<RouteTree>): seq<Head> {
    if path == [] then [] else (if Labelled(path[0]) then [HeadOf(path[0])] else []) + Heads(path[1..])
  }

  /** A labelled route at the end of a chain of routes that are all shown. */
  predicate MakesItem(path: seq<RouteTree>, e: Entry) {
    path != [] && Labelled(path[|path| - 1]) && forall i :: 0 <= i < |path| ==> Visible(path[i], e)
  }

  // ----- All chains and all items, in preorder

  function Prefixed<T>(x: T, paths: seq<seq<T>>): (r: seq<seq<T>>)
    ensures |r| == |paths| && forall i :: 0 <= i < |r| ==> r[i] == [x] + paths[i]
  {
    seq(|paths|, i requires 0 <= i < |paths| => [x] + paths[i])
  }

  /** The chains of the forest: each route with its ancestors, before what lies below it. */
  function AllChains(ts: seq<RouteTree>): seq<seq<RouteTree>>
    decreases ts, 0
  {
    if ts == [] then [] else ChainsFrom(ts[0]) + AllChains(ts[1..])
  }

  function ChainsFrom(t: RouteTree): seq<seq<RouteTree>>
    decreases t, 1
  {
    [[t]] + Prefixed(t, if t.Parent? then AllChains(t.kids) else [])
  }

  /** The items of the menu: each with the items around it, before what lies below it. */
  function ItemPaths(items: seq<MenuItem>): seq<seq<Head>>
    decreases items, 0
  {
    if items == [] then [] else PathsFrom(items[0]) + ItemPaths(items[1..])
  }

  function PathsFrom(item: MenuItem): seq<seq<Head>>
    decreases item, 1
  {
    [[ItemHead(item)]] + Prefixed(ItemHead(item), if item.Group? then ItemPaths(item.children) else [])
  }

  /** What the chains make of the menu, in their order. */
  function Wanted(paths: seq<seq<RouteTree>>, e: Entry): seq<seq<Head>> {
    if paths == [] then []
    else (if MakesItem(paths[0], e) then [Heads(paths[0])] else []) + Wanted(paths[1..], e)
  }

  lemma {:induction false} WantedJoin(a: seq<seq<RouteTree>>, b: seq<seq<RouteTree>>, e: Entry)
    ensures Wanted(a + b, e) == Wanted(a, e) + Wanted(b, e)
  {
    if a == [] {
      assert a + b == b;
    } else {
      assert (a + b)[1..] == a[1..] + b;
      WantedJoin(a[1..], b, e);
    }
  }

  lemma {:induction false} ItemPathsJoin(a: seq<MenuItem>, b: seq<MenuItem>)
    ensures ItemPaths(a + b) == ItemPaths(a) + ItemPaths(b)
    decreases |a|
  {
    if a == [] {
      assert a + b == b;
    } else {
      assert (a + b)[1..] == a[1..] + b;
      ItemPathsJoin(a[1..], b);
    }
  }

  lemma MakesItemBelow(t: RouteTree, path: seq<RouteTree>, e: Entry)
    requires path != []
    ensures MakesItem([t] + path, e) <==> Visible(t, e) && MakesItem(path, e)
    ensures Heads([t] + path) == (if Labelled(t) then [HeadOf(t)] else []) + Heads(path)
  {
    var all := [t] + path;
    assert all[1..] == path && all[|all| - 1] == path[|path| - 1];
    assert forall i :: 0 <= i < |path| ==> all[i + 1] == path[i];
    if MakesItem(all, e) {
      assert Visible(all[0], e);
      forall i | 0 <= i < |path| ensures Visible(path[i], e) { assert Visible(all[i + 1], e); }
    }
  }

  lemma {:induction false} WantedBelow(t: RouteTree, paths: seq<seq<RouteTree>>, e: Entry)
    requires forall i :: 0 <= i < |paths| ==> paths[i] != []
    ensures Wanted(Prefixed(t, paths), e) ==
            if !Visible(t, e) then []
            else if Labelled(t) then Prefixed(HeadOf(t), Wanted(paths, e))
            else Wanted(paths, e)
    decreases |paths|
  {
    if paths != [] {
      var rest := paths[1..];
      assert Prefixed(t, paths)[1..] == Prefixed(t, rest);
      WantedBelow(t, rest, e);
      MakesItemBelow(t, paths[0], e);
      PrefixedCons(HeadOf(t), Heads(paths[0]), Wanted(rest, e));
      assert [] + Heads(paths[0]) == Heads(paths[0]);
    }
  }

  lemma PrefixedCons<T>(x: T, first: seq<T>, rest: seq<seq<T>>)
    ensures Prefixed(x, [first] + rest) == [[x] + first] + Prefixed(x, rest)
    ensures Prefixed(x, [] + rest) == [] + Prefixed(x, rest)
  {
    assert [] + rest == rest;
  }

  lemma {:induction false} ChainsAreNotEmpty(ts: seq<RouteTree>)
    ensures forall i :: 0 <= i < |AllChains(ts)| ==> AllChains(ts)[i] != []
    decreases ts
  {
    if ts != [] {
      ChainsAreNotEmpty(ts[1..]);
    }
  }

  lemma WantedSingle(path: seq<RouteTree>, e: Entry)
    ensures Wanted([path], e) == if MakesItem(path, e) then [Heads(path)] else []
  {
    assert [path][1..] == [];
  }

  lemma WantedOne(t: RouteTree, e: Entry)
    ensures Wanted([[t]], e) == if Visible(t, e) && Labelled(t) then [[HeadOf(t)]] else []
  {
    WantedSingle([t], e);
    assert [t][1..] == [] && [HeadOf(t)] + [] == [HeadOf(t)];
    if MakesItem([t], e) {
      assert Visible([t][0], e);
    }
  }

  /** What the chains from one route make, given what those below it make. */
  lemma ChainsMake(t: RouteTree, e: Entry)
    ensures Wanted(ChainsFrom(t), e) == ItemsAt(t, e, Wanted(AllChains(Kids(t)), e))
  {
    var below := AllChains(Kids(t));
    ChainsAreNotEmpty(Kids(t));
    WantedJoin([[t]], Prefixed(t, below), e);
    WantedOne(t, e);
    WantedBelow(t, below, e);
    assert [] + Wanted(below, e) == Wanted(below, e);
  }

  function ItemsAt(t: RouteTree, e: Entry, below: seq<seq<Head>>): seq<seq<Head>> {
    if !Visible(t, e) then []
    else if Labelled(t) then [[HeadOf(t)]] + Prefixed(HeadOf(t), below)
    else below
  }

  lemma ShownIsVisible(t: RouteTree, e: Entry)
    ensures Visible(t, e) <==> Shown(t.info, e.prop, e.navDefault, e.permissions)
  {
  }

  /** The same for the items of its menu. */
  lemma MenuMakes(t: RouteTree, e: Entry)
    ensures ItemPaths(MenuOf(t, e.prop, e.navDefault, e.permissions)) ==
            ItemsAt(t, e, ItemPaths(Menu(Kids(t), e.prop, e.navDefault, e.permissions)))
  {
    ShownIsVisible(t, e);
    if Visible(t, e) && Labelled(t) {
      OneItem(MenuOf(t, e.prop, e.navDefault, e.permissions)[0]);
    }
  }

  /** The menu of a forest consists of exactly the items that its chains make, in preorder, each nested below
      the nearest labelled routes above it. */
  lemma {:induction false} MenuIsWanted(ts: seq<RouteTree>, e: Entry)
    ensures ItemPaths(Menu(ts, e.prop, e.navDefault, e.permissions)) == Wanted(AllChains(ts), e)
    decreases ts, 0
  {
    if ts != [] {
      MenuOfIsWanted(ts[0], e);
      MenuIsWanted(ts[1..], e);
      WantedJoin(ChainsFrom(ts[0]), AllChains(ts[1..]), e);
      ItemPathsJoin(MenuOf(ts[0], e.prop, e.navDefault, e.permissions), Menu(ts[1..], e.prop, e.navDefault, e.permissions));
    }
  }

  lemma {:induction false} MenuOfIsWanted(t: RouteTree, e: Entry)
    ensures ItemPaths(MenuOf(t, e.prop, e.navDefault, e.permissions)) == Wanted(ChainsFrom(t), e)
    decreases t, 1
  {
    MenuMakes(t, e);
    ChainsMake(t, e);
    if t.Parent? {
      MenuIsWanted(t.kids, e);
    }
  }

  lemma OneItem(item: MenuItem)
    ensures ItemPaths([item]) == PathsFrom(item)
  {
    assert [item][1..] == [] && PathsFrom(item) + [] == PathsFrom(item);
  }

  /** Routes that follow others have their items behind theirs, and a shown route without a label leaves its
      place to the items below it. */
  lemma {:induction false} MenuInOrder(a: seq<RouteTree>, b: seq<RouteTree>, e: Entry)
    ensures Menu(a + b, e.prop, e.navDefault, e.permissions) ==
            Menu(a, e.prop, e.navDefault, e.permissions) + Menu(b, e.prop, e.navDefault, e.permissions)
    ensures |a| == 1 && Visible(a[0], e) && !Labelled(a[0]) ==>
              Menu(a, e.prop, e.navDefault, e.permissions) == Menu(Kids(a[0]), e.prop, e.navDefault, e.permissions)
    decreases |a|
  {
    if a == [] {
      assert a + b == b;
    } else {
      assert (a + b)[1..] == a[1..] + b;
      ShownIsVisible(a[0], e);
      MenuInOrder(a[1..], b, e);
    }
  }

  // ----- Single items

  lemma {:induction false} AllChainsAreChains(ts: seq<RouteTree>, path: seq<RouteTree>)
    ensures path in AllChains(ts) <==> Chain(ts, path)
    decreases ts, 0
  {
    if ts != [] {
      ChainsFromAreChains(ts[0], path);
      AllChainsAreChains(ts[1..], path);
      assert path in AllChains(ts) <==> path in ChainsFrom(ts[0]) || path in AllChains(ts[1..]);
      assert path != [] ==> (path[0] in ts <==> path[0] == ts[0] || path[0] in ts[1..]);
    }
  }

  lemma {:induction false} ChainsFromAreChains(t: RouteTree, path: seq<RouteTree>)
    ensures path in ChainsFrom(t) <==> path != [] && path[0] == t && (|path| > 1 ==> Chain(Kids(t), path[1..]))
    decreases t, 1
  {
    var below := if t.Parent? then AllChains(t.kids) else [];
    var more := Prefixed(t, below);
    if path != [] && path[0] == t {
      if t.Parent? {
        AllChainsAreChains(t.kids, path[1..]);
      }
      assert path == [t] + path[1..];
      if path[1..] in below {
        var i :| 0 <= i < |below| && below[i] == path[1..];
        assert more[i] == path;
      }
      if path in more {
        var i :| 0 <= i < |more| && more[i] == path;
        assert below[i] == more[i][1..];
      }
      assert |path| == 1 ==> path == [t];
    }
    if path in ChainsFrom(t) {
      assert path == [t] || path in more;
    }
  }

  /** An item of the menu with the items around it, from the top down. */
  ghost predicate ItemChain(items: seq<MenuItem>, path: seq<MenuItem>)
    decreases |path|
  {
    path != [] && path[0] in items && (|path| > 1 ==> ItemChain(Below(path[0]), path[1..]))
  }

  function ItemHeads(path: seq<MenuItem>): (hs: seq<Head>)
    ensures |hs| == |path|
  {
    seq(|path|, i requires 0 <= i < |path| => ItemHead(path[i]))
  }

  lemma HeadsBelow(item: MenuItem, rest: seq<MenuItem>)
    ensures ItemHeads([item] + rest) == [ItemHead(item)] + ItemHeads(rest)
  {
  }

  lemma ChainBelow(items: seq<MenuItem>, item: MenuItem, rest: seq<MenuItem>)
    requires item in items && (rest == [] || ItemChain(Below(item), rest))
    ensures ItemChain(items, [item] + rest)
  {
    assert ([item] + rest)[1..] == rest;
  }

  lemma ChainOfRest(items: seq<MenuItem>, path: seq<MenuItem>)
    requires items != [] && ItemChain(items[1..], path)
    ensures ItemChain(items, path)
  {
  }

  lemma PathsBelow(item: MenuItem)
    ensures PathsFrom(item) == [[ItemHead(item)]] + Prefixed(ItemHead(item), ItemPaths(Below(item)))
  {
  }

  lemma OfPrefixed<T>(x: T, paths: seq<seq<T>>, path: seq<T>)
    requires path in [[x]] + Prefixed(x, paths)
    ensures path == [x] || (path != [] && path == [x] + path[1..] && path[1..] in paths)
  {
    var all := [[x]] + Prefixed(x, paths);
    var i :| 0 <= i < |all| && all[i] == path;
    if i > 0 {
      assert path == Prefixed(x, paths)[i - 1] == [x] + paths[i - 1];
      assert path[1..] == paths[i - 1];
    }
  }

  lemma PathFrom(item: MenuItem, hs: seq<Head>)
    requires hs in PathsFrom(item)
    ensures hs == [ItemHead(item)] || (hs != [] && hs == [ItemHead(item)] + hs[1..] && hs[1..] in ItemPaths(Below(item)))
  {
    PathsBelow(item);
    OfPrefixed(ItemHead(item), ItemPaths(Below(item)), hs);
  }

  lemma {:induction false} PathHasChain(items: seq<MenuItem>, hs: seq<Head>) returns (path: seq<MenuItem>)
    requires hs in ItemPaths(items)
    ensures ItemChain(items, path) && ItemHeads(path) == hs
    decreases items
  {
    var item := items[0];
    if hs in PathsFrom(item) {
      PathFrom(item, hs);
      var rest: seq<MenuItem> := [];
      if hs != [ItemHead(item)] {
        rest := PathHasChain(item.children, hs[1..]);
      }
      path := [item] + rest;
      HeadsBelow(item, rest);
      ChainBelow(items, item, rest);
    } else {
      path := PathHasChain(items[1..], hs);
      ChainOfRest(items, path);
    }
  }

  lemma AmongPrefixed<T>(x: T, paths: seq<seq<T>>, rest: seq<T>)
    requires rest == [] || rest in paths
    ensures [x] + rest in [[x]] + Prefixed(x, paths)
  {
    var all := [[x]] + Prefixed(x, paths);
    if rest == [] {
      assert all[0] == [x] == [x] + rest;
    } else {
      var i :| 0 <= i < |paths| && paths[i] == rest;
      assert all[1 + i] == Prefixed(x, paths)[i] == [x] + rest;
    }
  }

  lemma PathTo(item: MenuItem, rest: seq<Head>)
    requires rest == [] || rest in ItemPaths(Below(item))
    ensures [ItemHead(item)] + rest in PathsFrom(item)
  {
    PathsBelow(item);
    AmongPrefixed(ItemHead(item), ItemPaths(Below(item)), rest);
  }

  lemma {:induction false} ChainHasPath(items: seq<MenuItem>, path: seq<MenuItem>)
    requires ItemChain(items, path)
    ensures ItemHeads(path) in ItemPaths(items)
    decreases items
  {
    var item := items[0];
    if path[0] == item {
      var rest := path[1..];
      if rest != [] {
        ChainHasPath(item.children, rest);
      }
      assert path == [item] + rest;
      HeadsBelow(item, rest);
      PathTo(item, ItemHeads(rest));
    } else {
      ChainHasPath(items[1..], path);
    }
  }

  lemma {:induction false} WantedMember(paths: seq<seq<RouteTree>>, e: Entry, hs: seq<Head>)
    ensures hs in Wanted(paths, e) <==> exists path :: path in paths && MakesItem(path, e) && Heads(path) == hs
  {
    if paths != [] {
      WantedMember(paths[1..], e, hs);
      assert forall path :: path in paths <==> path == paths[0] || path in paths[1..];
    }
  }

  /** An item stands in the menu of a forest, below the items around it, exactly if it and they come from the
      labelled routes of a chain that ends in a labelled route and whose routes are all shown. */
  lemma MenuItemsExactly(ts: seq<RouteTree>, e: Entry, hs: seq<Head>)
    ensures (exists path :: ItemChain(Menu(ts, e.prop, e.navDefault, e.permissions), path) && ItemHeads(path) == hs) <==>
            (exists path :: Chain(ts, path) && MakesItem(path, e) && Heads(path) == hs)
  {
    var menu := Menu(ts, e.prop, e.navDefault, e.permissions);
    MenuIsWanted(ts, e);
    WantedMember(AllChains(ts), e, hs);
    if path :| ItemChain(menu, path) && ItemHeads(path) == hs {
      ChainHasPath(menu, path);
      var route :| route in AllChains(ts) && MakesItem(route, e) && Heads(route) == hs;
      AllChainsAreChains(ts, route);
    }
    if route :| Chain(ts, route) && MakesItem(route, e) && Heads(route) == hs {
      AllChainsAreChains(ts, route);
      var path := PathHasChain(menu, hs);
    }
  }

  // ----- The items in their order determine the menu

  lemma FirstTells<T>(a: seq<seq<T>>, r: seq<seq<T>>)
    requires forall i :: 0 <= i < |a| ==> |a[i]| > 1
    requires r == [] || |r[0]| == 1
    ensures a != [] <==> a + r != [] && |(a + r)[0]| > 1
    ensures a != [] ==> (a + r)[0] == a[0] && (a + r)[1..] == a[1..] + r
    ensures a == [] ==> a + r == r
  {
  }

  lemma {:induction false} SplitUnique<T>(a: seq<seq<T>>, r: seq<seq<T>>, b: seq<seq<T>>, s: seq<seq<T>>)
    requires a + r == b + s
    requires (forall i :: 0 <= i < |a| ==> |a[i]| > 1) && (forall i :: 0 <= i < |b| ==> |b[i]| > 1)
    requires (r == [] || |r[0]| == 1) && (s == [] || |s[0]| == 1)
    ensures a == b && r == s
    decreases |a|
  {
    FirstTells(a, r);
    FirstTells(b, s);
    if a != [] {
      SplitUnique(a[1..], r, b[1..], s);
      assert a == [a[0]] + a[1..] && b == [b[0]] + b[1..];
    }
  }

  lemma {:induction false} PathsNotEmpty(items: seq<MenuItem>)
    ensures items != [] ==> ItemPaths(items) != [] && ItemPaths(items)[0] == [ItemHead(items[0])]
    ensures forall i :: 0 <= i < |ItemPaths(items)| ==> |ItemPaths(items)[i]| >= 1
    decreases items
  {
    if items != [] {
      PathsNotEmpty(items[1..]);
    }
  }

  lemma PrefixedInjective<T>(x: T, a: seq<seq<T>>, b: seq<seq<T>>)
    requires Prefixed(x, a) == Prefixed(x, b)
    ensures a == b
  {
    assert |a| == |Prefixed(x, a)| == |b|;
    forall i | 0 <= i < |a| ensures a[i] == b[i] {
      assert Prefixed(x, a)[i][1..] == a[i] && Prefixed(x, b)[i][1..] == b[i];
    }
  }

  lemma PathsUnfold(m: seq<MenuItem>)
    requires m != []
    ensures ItemPaths(m) == [[ItemHead(m[0])]] + (Prefixed(ItemHead(m[0]), ItemPaths(Below(m[0]))) + ItemPaths(m[1..]))
  {
    JoinAssociates([[ItemHead(m[0])]], Prefixed(ItemHead(m[0]), ItemPaths(Below(m[0]))), ItemPaths(m[1..]));
  }

  /** An item starts where a path has one head. */
  lemma PathLengths(m: seq<MenuItem>)
    requires m != []
    ensures forall i :: 0 <= i < |ItemPaths(Below(m[0]))| ==> |Prefixed(ItemHead(m[0]), ItemPaths(Below(m[0])))[i]| > 1
    ensures ItemPaths(m[1..]) == [] || |ItemPaths(m[1..])[0]| == 1
  {
    PathsNotEmpty(Below(m[0]));
    PathsNotEmpty(m[1..]);
  }

  lemma ConsInjective<T>(x: T, a: seq<T>, y: T, b: seq<T>)
    requires [x] + a == [y] + b
    ensures x == y && a == b
  {
    assert ([x] + a)[0] == x && ([x] + a)[1..] == a;
    assert ([y] + b)[0] == y && ([y] + b)[1..] == b;
  }

  lemma SameItem(x: MenuItem, y: MenuItem)
    requires ItemHead(x) == ItemHead(y) && Below(x) == Below(y)
    ensures x == y
  {
  }

  /** Two menus with the same items in preorder, each below the same items, are the same menu. */
  lemma {:induction false} PathsDetermineMenu(m: seq<MenuItem>, n: seq<MenuItem>)
    requires ItemPaths(m) == ItemPaths(n)
    ensures m == n
    decreases m
  {
    PathsNotEmpty(m);
    PathsNotEmpty(n);
    if m != [] {
      var x, y := m[0], n[0];
      PathsUnfold(m);
      PathsUnfold(n);
      PathLengths(m);
      PathLengths(n);
      var p, q := ItemPaths(Below(x)), ItemPaths(Below(y));
      ConsInjective([ItemHead(x)], Prefixed(ItemHead(x), p) + ItemPaths(m[1..]),
                    [ItemHead(y)], Prefixed(ItemHead(y), q) + ItemPaths(n[1..]));
      assert ItemHead(x) == [ItemHead(x)][0] == [ItemHead(y)][0] == ItemHead(y);
      SplitUnique(Prefixed(ItemHead(x), p), ItemPaths(m[1..]), Prefixed(ItemHead(y), q), ItemPaths(n[1..]));
      PrefixedInjective(ItemHead(x), p, q);
      if x.Group? {
        PathsDetermineMenu(x.children, Below(y));
      }
      SameItem(x, y);
      PathsDetermineMenu(m[1..], n[1..]);
      assert m == [x] + m[1..] && n == [y] + n[1..];
    }
  }
}
