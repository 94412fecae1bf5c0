/** Route trees: what the flat rows, the permission filter and the menu are as functions of them. */
module RouteForest {
  import opened Basics
  import opened RoleClosure

  datatype Meta = Meta(nav: Option<string>, role: Option<string>, hidden: bool, labelText: Option<string>)

  datatype Component = NoComponent | LayoutComponent | Nest2 | Nest3 | Detail(page: string)

  datatype Info = Info(path: Option<string>, name: Option<string>, icon: Option<string>, component: Component, meta: Meta)

  /** A route object; `children` is absent or an array. */
  class Route {
    var info: Info
    var children: Option<seq<Route>>
    var floor: nat

    constructor (info: Info, children: Option<seq<Route>>)
      ensures this.info == info && this.children == children && floor == 0
    {
      this.info, this.children, floor := info, children, 0;
    }
  }

  /** A route with its subtree; `below` are objects among which the subtree lies. */
  datatype RouteTree =
    | Childless(route: Route, info: Info, below: set<Route>)
    | Parent(route: Route, info: Info, below: set<Route>, kids: seq<RouteTree>)

  function Kids(t: RouteTree): seq<RouteTree> {
    if t.Parent? then t.kids else []
  }

  function RoutesOf(ts: seq<RouteTree>): seq<Route> {
    seq(|ts|, i requires 0 <= i < |ts| => ts[i].route)
  }

  function BelowAll(ts: seq<RouteTree>): set<Route> {
    set i, r | 0 <= i < |ts| && r in ts[i].below :: r
  }

  /** No route object occurs twice. */
  ghost predicate Tidy(t: RouteTree)
    decreases t, 1
  {
    && t.route in t.below
    && (t.Parent? ==> TidyAll(t.kids) && t.route !in BelowAll(t.kids) && BelowAll(t.kids) <= t.below)
  }

  ghost predicate TidyAll(ts: seq<RouteTree>)
    decreases ts, 0
  {
    && (forall i :: 0 <= i < |ts| ==> Tidy(ts[i]))
    && forall i, j :: 0 <= i < j < |ts| ==> ts[i].below !! ts[j].below
  }

  /** The heap holds exactly these route trees. */
  ghost predicate Holds(t: RouteTree)
    requires Tidy(t)
    reads t.below`info, t.below`children
    decreases t, 1
  {
    && t.route.info == t.info
    && t.route.children == (if t.Parent? then Some(RoutesOf(t.kids)) else None)
    && (t.Parent? ==> HoldsAll(t.kids))
  }

  ghost predicate HoldsAll(ts: seq<RouteTree>)
    requires TidyAll(ts)
    reads BelowAll(ts)`info, BelowAll(ts)`children
    decreases ts, 0
  {
    forall i :: 0 <= i < |ts| ==> Holds(ts[i])
  }

  // ----- Flat rows

  function Size(ts: seq<RouteTree>): nat
    decreases ts, 0
  {
    if ts == [] then 0 else 1 + KidSize(ts[0]) + Size(ts[1..])
  }

  function KidSize(t: RouteTree): nat
    decreases t, 1
  {
    if t.Parent? then Size(t.kids) else 0
  }

  /** The rows that `preRouteArr` appends for `ts` below the row `pId`, when `last` ids are taken. */
  function Rows(ts: seq<RouteTree>, pId: nat, last: nat): seq<Row>
    decreases ts, 0
  {
    if ts == [] then []
    else
      var below := KidRows(ts[0], last + 1);
      [Row(last + 1, pId, ts[0].info.meta.role)] + below + Rows(ts[1..], pId, last + 1 + |below|)
  }

  function KidRows(t: RouteTree, id: nat): seq<Row>
    decreases t, 1
  {
    if t.Parent? then Rows(t.kids, id, id) else []
  }

  // ----- Permission filter

  /** `hasPermission` */
  predicate HasPermission(roles: seq<string>, info: Info) {
    Truthy(info.meta.role) ==> info.meta.role.value in roles
  }

  /** A kept route after its children were filtered in place. */
  function Pruned(t: RouteTree, roles: seq<string>): RouteTree
    decreases t, 1
  {
    if t.Parent? then t.(kids := Prune(t.kids, roles)) else t
  }

  /** The array that `filterAsyncRouter` returns. */
  function Prune(ts: seq<RouteTree>, roles: seq<string>): seq<RouteTree>
    decreases ts, 0
  {
    if ts == [] then []
    else (if HasPermission(roles, ts[0].info) then [Pruned(ts[0], roles)] else []) + Prune(ts[1..], roles)
  }

  /** What becomes of a route in the array passed to `filterAsyncRouter`: kept ones lose descendants. */
  function AfterFilter(t: RouteTree, roles: seq<string>): RouteTree {
    if HasPermission(roles, t.info) then Pruned(t, roles) else t
  }

  function PrunedInPlace(ts: seq<RouteTree>, roles: seq<string>): seq<RouteTree> {
    seq(|ts|, i requires 0 <= i < |ts| => AfterFilter(ts[i], roles))
  }

  // ----- Menu

  /** A menu item; `children` is absent or an array. */
  datatype MenuItem =
    | Plain(meta: Meta, icon: Option<string>, path: Option<string>, name: Option<string>)
    | Group(meta: Meta, icon: Option<string>, path: Option<string>, name: Option<string>, children: seq<MenuItem>)

  predicate Shown(info: Info, prop: string, navDefault: string, permissions: seq<string>) {
    && (info.meta.nav == Some(prop) || (!Truthy(info.meta.nav) && prop == navDefault))
    && !info.meta.hidden
    && (!Truthy(info.meta.role) || info.meta.role.value in permissions)
  }

  function Menu(ts: seq<RouteTree>, prop: string, navDefault: string, permissions: seq<string>): seq<MenuItem>
    decreases ts, 0
  {
    if ts == [] then []
    else MenuOf(ts[0], prop, navDefault, permissions) + Menu(ts[1..], prop, navDefault, permissions)
  }

  function MenuOf(t: RouteTree, prop: string, navDefault: string, permissions: seq<string>): seq<MenuItem>
    decreases t, 1
  {
    if !Shown(t.info, prop, navDefault, permissions) then []
    else
      var below := if t.Parent? then Some(Menu(t.kids, prop, navDefault, permissions)) else None;
      if t.info.meta.labelText.None? then if below.Some? then below.value else []
      else if below.Some? then [Group(t.info.meta, t.info.icon, t.info.path, t.info.name, below.value)]
      else [Plain(t.info.meta, t.info.icon, t.info.path, t.info.name)]
  }

  lemma MenuCons(t: RouteTree, us: seq<RouteTree>, prop: string, navDefault: string, permissions: seq<string>)
    ensures Menu([t] + us, prop, navDefault, permissions) ==
            MenuOf(t, prop, navDefault, permissions) + Menu(us, prop, navDefault, permissions)
  {
    assert ([t] + us)[1..] == us;
  }

  lemma InPlaceCons(ts: seq<RouteTree>, roles: seq<string>)
    requires ts != []
    ensures PrunedInPlace(ts, roles) == [AfterFilter(ts[0], roles)] + PrunedInPlace(ts[1..], roles)
  {
  }

  lemma {:induction false} MenuOfPruned(t: RouteTree, prop: string, navDefault: string, permissions: seq<string>)
    ensures MenuOf(Pruned(t, permissions), prop, navDefault, permissions) == MenuOf(t, prop, navDefault, permissions)
    decreases t, 1
  {
    if t.Parent? {
      PruningPreservesMenu(t.kids, prop, navDefault, permissions);
    }
  }

  /** Filtering by the permissions the menu is built for leaves the menu as it is, both for the array
      returned and for the array that was filtered in place. */
  lemma {:induction false} PruningPreservesMenu(ts: seq<RouteTree>, prop: string, navDefault: string, permissions: seq<string>)
    ensures Menu(Prune(ts, permissions), prop, navDefault, permissions) == Menu(ts, prop, navDefault, permissions)
    ensures Menu(PrunedInPlace(ts, permissions), prop, navDefault, permissions) == Menu(ts, prop, navDefault, permissions)
    decreases ts, 0
  {
    if ts != [] {
      PruningPreservesMenu(ts[1..], prop, navDefault, permissions);
      InPlaceCons(ts, permissions);
      if HasPermission(permissions, ts[0].info) {
        MenuOfPruned(ts[0], prop, navDefault, permissions);
        MenuCons(Pruned(ts[0], permissions), Prune(ts[1..], permissions), prop, navDefault, permissions);
        MenuCons(Pruned(ts[0], permissions), PrunedInPlace(ts[1..], permissions), prop, navDefault, permissions);
      } else {
        assert Prune(ts, permissions) == Prune(ts[1..], permissions);
        assert MenuOf(ts[0], prop, navDefault, permissions) == [];
        MenuCons(ts[0], PrunedInPlace(ts[1..], permissions), prop, navDefault, permissions);
      }
    }
  }

  // ----- Depth

  function Max(a: nat, b: nat): nat {
    if a < b then b else a
  }

  function Height(ts: seq<RouteTree>): nat
    decreases ts, 0
  {
    if ts == [] then 0 else Max(1 + KidHeight(ts[0]), Height(ts[1..]))
  }

  function KidHeight(t: RouteTree): nat
    decreases t, 1
  {
    if t.Parent? then Height(t.kids) else 0
  }

  /** Every node is marked with its depth, where the top nodes have the depth `floor`. */
  ghost predicate FloorsFrom(t: RouteTree, floor: nat)
    requires Tidy(t)
    reads t.below`floor
    decreases t, 1
  {
    t.route.floor == floor && (t.Parent? ==> AllFloorsFrom(t.kids, floor + 1))
  }

  ghost predicate AllFloorsFrom(ts: seq<RouteTree>, floor: nat)
    requires TidyAll(ts)
    reads BelowAll(ts)`floor
    decreases ts, 0
  {
    forall i :: 0 <= i < |ts| ==> FloorsFrom(ts[i], floor)
  }

  /** The same forest made of other objects. */
  ghost predicate SameTree(t: RouteTree, u: RouteTree)
    decreases t, 1
  {
    t.info == u.info && t.Parent? == u.Parent? && (t.Parent? ==> SameForest(t.kids, u.kids))
  }

  ghost predicate SameForest(ts: seq<RouteTree>, us: seq<RouteTree>)
    decreases ts, 0
  {
    |ts| == |us| && forall i :: 0 <= i < |ts| ==> SameTree(ts[i], us[i])
  }

  lemma {:induction false} SameHeight(ts: seq<RouteTree>, us: seq<RouteTree>)
    requires SameForest(ts, us)
    ensures Height(ts) == Height(us)
    decreases ts
  {
    if ts != [] {
      assert SameTree(ts[0], us[0]);
      if ts[0].Parent? {
        SameHeight(ts[0].kids, us[0].kids);
      }
      assert forall i :: 0 <= i < |ts| - 1 ==> ts[1..][i] == ts[i + 1] && us[1..][i] == us[i + 1];
      SameHeight(ts[1..], us[1..]);
    }
  }
}
