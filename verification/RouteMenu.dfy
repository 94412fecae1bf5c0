/** The class `RouteMenu`: flattening, granting, filtering in place, and building the menu. */
module RouteMenus {
  import opened Basics
  import opened MenuLaws
  import opened RoleClosure
  import opened RouteDepth
  import opened RouteForest
  import opened RouteRows

  lemma RoutesCons(t: RouteTree, us: seq<RouteTree>)
    ensures RoutesOf([t] + us) == [t.route] + RoutesOf(us)
  {
  }

  lemma PruneCons(ts: seq<RouteTree>, roles: seq<string>)
    requires ts != []
    ensures RoutesOf(Prune(ts, roles)) ==
            (if HasPermission(roles, ts[0].info) then [ts[0].route] else []) + RoutesOf(Prune(ts[1..], roles))
    ensures RoutesOf(ts) == [ts[0].route] + RoutesOf(ts[1..])
  {
    assert ts == [ts[0]] + ts[1..];
    RoutesCons(ts[0], ts[1..]);
    RoutesCons(Pruned(ts[0], roles), Prune(ts[1..], roles));
  }

  lemma TidyCons(t: RouteTree, us: seq<RouteTree>)
    ensures TidyAll([t] + us) <==> Tidy(t) && TidyAll(us) && t.below !! BelowAll(us)
    ensures BelowAll([t] + us) == t.below + BelowAll(us)
  {
    var ts := [t] + us;
    assert forall i :: 0 <= i < |us| ==> ts[i + 1] == us[i];
    assert ts[0] == t;
    if TidyAll(ts) {
      forall i | 0 <= i < |us| ensures Tidy(us[i]) && t.below !! us[i].below { assert ts[i + 1] == us[i]; }
      forall i, j | 0 <= i < j < |us| ensures us[i].below !! us[j].below {
        assert ts[i + 1] == us[i] && ts[j + 1] == us[j];
      }
    }
  }

  lemma {:induction false} PrunedTidy(t: RouteTree, roles: seq<string>)
    requires Tidy(t)
    ensures Tidy(Pruned(t, roles)) && Pruned(t, roles).below == t.below
    decreases t, 1
  {
    if t.Parent? {
      PruneTidy(t.kids, roles);
    }
  }

  lemma {:induction false} PruneTidy(ts: seq<RouteTree>, roles: seq<string>)
    requires TidyAll(ts)
    ensures TidyAll(Prune(ts, roles)) && BelowAll(Prune(ts, roles)) <= BelowAll(ts)
    decreases ts, 0
  {
    if ts != [] {
      assert ts == [ts[0]] + ts[1..];
      TidyCons(ts[0], ts[1..]);
      PruneTidy(ts[1..], roles);
      PrunedTidy(ts[0], roles);
      TidyCons(Pruned(ts[0], roles), Prune(ts[1..], roles));
    }
  }

  /** The rows of the trees from `i` on, behind the rows `done`. */
  lemma RowsFrom(ts: seq<RouteTree>, i: nat, pId: nat, last: nat, done: seq<Row>)
    requires i < |ts|
    ensures
      var first := [Row(last + 1, pId, ts[i].info.meta.role)] + KidRows(ts[i], last + 1);
      var rest := Rows(ts[i + 1..], pId, last + |first|);
      done + Rows(ts[i..], pId, last) == (done + first) + rest && |Rows(ts[i..], pId, last)| == |first| + |rest|
  {
    assert ts[i..][1..] == ts[i + 1..];
  }

  lemma KidRowsBehind(done: seq<Row>, row: Row, t: RouteTree, id: nat)
    ensures done + [row] + KidRows(t, id) == done + ([row] + KidRows(t, id))
    ensures t.Parent? ==> KidRows(t, id) == Rows(t.kids, id, id)
    ensures Kids(t) == [] ==> KidRows(t, id) == []
  {
  }

  lemma {:induction false} FillAllConcat(rows: seq<Row>, a: seq<string>, b: seq<string>, fuel: nat)
    ensures FillAll(rows, a + b, fuel).Some? <==> FillAll(rows, a, fuel).Some? && FillAll(rows, b, fuel).Some?
    ensures FillAll(rows, a + b, fuel).Some? ==>
              FillAll(rows, a + b, fuel).value == FillAll(rows, a, fuel).value + FillAll(rows, b, fuel).value
  {
    if a == [] {
      assert a + b == b;
    } else {
      assert (a + b)[1..] == a[1..] + b;
      FillAllConcat(rows, a[1..], b, fuel);
    }
  }

  lemma FirstAndRest(ts: seq<RouteTree>)
    requires ts != [] && TidyAll(ts)
    ensures Tidy(ts[0]) && TidyAll(ts[1..]) && ts[0].below !! BelowAll(ts[1..])
    ensures BelowAll(ts) == ts[0].below + BelowAll(ts[1..])
    ensures HoldsAll(ts) <==> Holds(ts[0]) && HoldsAll(ts[1..])
  {
    assert ts == [ts[0]] + ts[1..];
    TidyCons(ts[0], ts[1..]);
    if HoldsAll(ts) {
      forall i | 0 <= i < |ts| - 1 ensures Holds(ts[1..][i]) {
        assert ts[i + 1] == ts[1..][i];
      }
    }
  }

  lemma InPlaceFirstAndRest(ts: seq<RouteTree>, roles: seq<string>)
    requires ts != [] && TidyAll(ts) && TidyAll(ts[1..])
    requires Tidy(AfterFilter(ts[0], roles)) && Holds(AfterFilter(ts[0], roles))
    requires TidyAll(PrunedInPlace(ts[1..], roles)) && HoldsAll(PrunedInPlace(ts[1..], roles))
    ensures TidyAll(PrunedInPlace(ts, roles)) && HoldsAll(PrunedInPlace(ts, roles))
  {
    InPlaceTidy(ts, roles);
    InPlaceCons(ts, roles);
    assert PrunedInPlace(ts, roles)[1..] == PrunedInPlace(ts[1..], roles);
    FirstAndRest(PrunedInPlace(ts, roles));
  }

  lemma FillFirst(rows: seq<Row>, role: string, fuel: nat, done: seq<string>) returns (left: seq<string>)
    requires RoleClosure.Fill(rows, role, fuel).Some?
    ensures fuel > 0 && FillAll(rows, ParentRoles(rows[0..], rows, role), fuel - 1) == Some(left)
    ensures done + RoleClosure.Fill(rows, role, fuel).value == (done + [role]) + left
  {
    assert rows[0..] == rows;
    left := FillAll(rows, ParentRoles(rows, rows, role), fuel - 1).value;
  }

  /** What the row `i` adds to the fill of the rows from `i` on, behind the roles `done`. */
  lemma FillStep(rows: seq<Row>, i: nat, role: string, fuel: nat, done: seq<string>, left: seq<string>)
    returns (first: seq<string>, rest: seq<string>)
    requires i < |rows| && FillAll(rows, ParentRoles(rows[i..], rows, role), fuel) == Some(left)
    ensures FillAll(rows, ParentRoles(rows[i + 1..], rows, role), fuel) == Some(rest)
    ensures if rows[i].role == Some(role) then FillAll(rows, RolesOfId(rows, rows[i].pId), fuel) == Some(first) else first == []
    ensures done + left == (done + first) + rest
  {
    assert rows[i..][1..] == rows[i + 1..];
    var here := if rows[i].role == Some(role) then RolesOfId(rows, rows[i].pId) else [];
    FillAllConcat(rows, here, ParentRoles(rows[i + 1..], rows, role), fuel);
    first := FillAll(rows, here, fuel).value;
    rest := FillAll(rows, ParentRoles(rows[i + 1..], rows, role), fuel).value;
  }

  /** The same for the parent rows. */
  lemma FillParentStep(rows: seq<Row>, j: nat, pId: nat, fuel: nat, done: seq<string>, left: seq<string>)
    returns (first: seq<string>, rest: seq<string>)
    requires j < |rows| && FillAll(rows, RolesOfId(rows[j..], pId), fuel) == Some(left)
    ensures FillAll(rows, RolesOfId(rows[j + 1..], pId), fuel) == Some(rest)
    ensures if pId == rows[j].id && Truthy(rows[j].role) then
              && RoleClosure.Fill(rows, rows[j].role.value, fuel) == Some(first)
              && done + left == ((done + [rows[j].role.value]) + first) + rest
            else left == rest
  {
    var others := RolesOfId(rows[j + 1..], pId);
    assert rows[j..][1..] == rows[j + 1..];
    first, rest := [], left;
    if pId == rows[j].id && Truthy(rows[j].role) {
      var role := rows[j].role.value;
      assert ([role] + others)[1..] == others;
      assert FillAll(rows, [role] + others, fuel) == Some(left);
      first, rest := RoleClosure.Fill(rows, role, fuel).value, FillAll(rows, others, fuel).value;
      ParentJoin(done, role, first, rest);
    } else {
      assert [] + others == others;
    }
  }

  lemma ParentJoin(done: seq<string>, role: string, first: seq<string>, rest: seq<string>)
    ensures done + ([role] + first + rest) == ((done + [role]) + first) + rest
  {
    JoinAssociates(done, [role] + first, rest);
    JoinAssociates(done, [role], first);
  }

  /** The greatest floor below the level `floor`; 0 if there is no route. */
  function Deepest(ts: seq<RouteTree>, floor: nat): nat
    requires floor > 0
  {
    if ts == [] then 0 else floor - 1 + Height(ts)
  }

  lemma DeepestFrom(ts: seq<RouteTree>, i: nat, floor: nat, max: nat, left: nat)
    requires i < |ts| && floor > 0 && left == Deepest(ts[i + 1..], floor)
    ensures Max(max, Deepest(ts[i..], floor)) == Max(Max(max, floor + KidHeight(ts[i])), left)
  {
    assert ts[i..][1..] == ts[i + 1..];
  }

  class RouteMenu {
    var originRouteArr: seq<Route>
    var permissions: seq<string>
    var routeId: nat
    var routeArr: seq<Row>
    var addRouters: seq<Route>

    method PreRouteArr(routes: seq<Route>, pId: nat, ghost ts: seq<RouteTree>)
      requires TidyAll(ts) && HoldsAll(ts) && routes == RoutesOf(ts)
      modifies this`routeId, this`routeArr
      ensures routeArr == old(routeArr) + Rows(ts, pId, old(routeId))
      ensures routeId == old(routeId) + |Rows(ts, pId, old(routeId))|
      decreases ts, 0
    {
      ghost var all := old(routeArr) + Rows(ts, pId, old(routeId));
      assert ts[0..] == ts;
      for i := 0 to |routes|
        invariant routeArr + Rows(ts[i..], pId, routeId) == all
        invariant routeId + |Rows(ts[i..], pId, routeId)| == old(routeId) + |Rows(ts, pId, old(routeId))|
      {
        RowsFrom(ts, i, pId, routeId, routeArr);
        PreRoute(routes[i], pId, ts[i]);
      }
    }

    /** The loop body: one route and what lies below it. */
    method PreRoute(v: Route, pId: nat, ghost t: RouteTree)
      requires Tidy(t) && Holds(t) && v == t.route
      modifies this`routeId, this`routeArr
      ensures routeArr == old(routeArr) + ([Row(old(routeId) + 1, pId, t.info.meta.role)] + KidRows(t, old(routeId) + 1))
      ensures routeId == old(routeId) + 1 + |KidRows(t, old(routeId) + 1)|
      decreases t, 1
    {
      routeId := routeId + 1;
      routeArr := routeArr + [Row(routeId, pId, v.info.meta.role)];
      KidRowsBehind(old(routeArr), routeArr[|old(routeArr)|], t, routeId);
      if v.children.Some? && |v.children.value| > 0 {
        PreRouteArr(v.children.value, routeId, t.kids);
      }
    }

    /** The recursion, for roles from which it is known to end. */
    method Fill(role: string, ghost fuel: nat)
      requires RoleClosure.Fill(routeArr, role, fuel).Some?
      modifies this`permissions
      ensures permissions == old(permissions) + RoleClosure.Fill(routeArr, role, fuel).value
      decreases fuel, 0
    {
      ghost var left := FillFirst(routeArr, role, fuel, permissions);
      permissions := permissions + [role];
      ghost var all := permissions + left;
      for i := 0 to |routeArr|
        invariant FillAll(routeArr, ParentRoles(routeArr[i..], routeArr, role), fuel - 1) == Some(left)
        invariant permissions + left == all
      {
        left := FillRow(i, role, fuel - 1, left);
      }
      assert left == [] && permissions + left == permissions;
    }

    /** The loop body: one row, of which a matching one leads to its parents. */
    method FillRow(i: nat, role: string, ghost fuel: nat, ghost left: seq<string>) returns (ghost rest: seq<string>)
      requires i < |routeArr| && FillAll(routeArr, ParentRoles(routeArr[i..], routeArr, role), fuel) == Some(left)
      modifies this`permissions
      ensures FillAll(routeArr, ParentRoles(routeArr[i + 1..], routeArr, role), fuel) == Some(rest)
      ensures permissions + rest == old(permissions) + left
      decreases fuel, 2
    {
      var v := routeArr[i];
      ghost var first;
      first, rest := FillStep(routeArr, i, role, fuel, permissions, left);
      if v.role == Some(role) {
        FillParents(v.pId, fuel);
      } else {
        assert permissions + [] == permissions;
      }
    }

    /** The inner loop: the parent row of a matching row. */
    method FillParents(pId: nat, ghost fuel: nat)
      requires FillAll(routeArr, RolesOfId(routeArr, pId), fuel).Some?
      modifies this`permissions
      ensures permissions == old(permissions) + FillAll(routeArr, RolesOfId(routeArr, pId), fuel).value
      decreases fuel, 1
    {
      ghost var left := FillAll(routeArr, RolesOfId(routeArr, pId), fuel).value;
      ghost var all := permissions + left;
      assert routeArr[0..] == routeArr;
      for j := 0 to |routeArr|
        invariant FillAll(routeArr, RolesOfId(routeArr[j..], pId), fuel) == Some(left)
        invariant permissions + left == all
      {
        var v2 := routeArr[j];
        ghost var first, rest := FillParentStep(routeArr, j, pId, fuel, permissions, left);
        if pId == v2.id && Truthy(v2.role) {
          permissions := permissions + [v2.role.value];
          Fill(v2.role.value, fuel);
        }
        left := rest;
      }
      assert left == [] && permissions + left == permissions;
    }

    /** Grants a role and all that it reaches upwards. Nothing guards the recursion against cycles. */
    method FillPerms(role: string) returns (ghost added: seq<string>)
      requires AcyclicFrom(routeArr, role)
      modifies this`permissions
      ensures permissions == old(permissions) + added
      ensures forall x :: x in added <==> Reaches(routeArr, role, x)
    {
      FillTerminatesIffAcyclic(routeArr, role);
      Fill(role, |routeArr| + 1);
      FillIsReach(routeArr, role, |routeArr| + 1);
      added := RoleClosure.Fill(routeArr, role, |routeArr| + 1).value;
    }

    method GetPermission() returns (all: seq<string>)
      modifies this`permissions
      ensures all == permissions == Dedup(old(permissions))
      ensures InOrderOf(all, old(permissions))
    {
      DedupInOrder(permissions);
      permissions := Dedup(permissions);
      all := permissions;
    }

    /** Filters in place: the routes kept have their `children` reassigned, nothing else changes. */
    method FilterAsyncRouter(routes: seq<Route>, roles: seq<string>, ghost ts: seq<RouteTree>) returns (kept: seq<Route>)
      requires TidyAll(ts) && HoldsAll(ts) && routes == RoutesOf(ts)
      modifies BelowAll(ts)`children
      ensures kept == RoutesOf(Prune(ts, roles))
      ensures TidyAll(PrunedInPlace(ts, roles)) && BelowAll(PrunedInPlace(ts, roles)) == BelowAll(ts)
      ensures HoldsAll(PrunedInPlace(ts, roles))
      decreases ts, 0
    {
      InPlaceTidy(ts, roles);
      if routes == [] {
        return [];
      }
      FirstAndRest(ts);
      PruneCons(ts, roles);
      var keep := FilterRoute(routes[0], roles, ts[0]);
      var rest := FilterAsyncRouter(routes[1..], roles, ts[1..]);
      InPlaceFirstAndRest(ts, roles);
      kept := (if keep then [routes[0]] else []) + rest;
    }

    /** The callback of the filter. */
    method FilterRoute(route: Route, roles: seq<string>, ghost t: RouteTree) returns (keep: bool)
      requires Tidy(t) && Holds(t) && route == t.route
      modifies t.below`children
      ensures keep == HasPermission(roles, t.info)
      ensures Tidy(AfterFilter(t, roles)) && Holds(AfterFilter(t, roles))
      decreases t, 1
    {
      AfterFilterTidy(t, roles);
      keep := HasPermission(roles, route.info);
      if keep && route.children.Some? && |route.children.value| > 0 {
        var children := FilterAsyncRouter(route.children.value, roles, t.kids);
        PruneHolds(t.kids, roles);
        route.children := Some(children);
      } else if keep && t.Parent? {
        assert RoutesOf(t.kids) == [];
        assert Prune(t.kids, roles) == t.kids == [];
      }
    }

    method MenuTree(prop: string, navDefault: string, data: seq<Route>, ghost ts: seq<RouteTree>)
      returns (menu: seq<MenuItem>)
      requires TidyAll(ts) && HoldsAll(ts) && data == RoutesOf(ts)
      ensures menu == Menu(ts, prop, navDefault, permissions)
      ensures ItemPaths(menu) == Wanted(AllChains(ts), Entry(prop, navDefault, permissions))
      decreases ts, 0
    {
      menu := [];
      assert ts[0..] == ts;
      for i := 0 to |data|
        invariant menu + Menu(ts[i..], prop, navDefault, permissions) == Menu(ts, prop, navDefault, permissions)
      {
        assert ts[i..] == [ts[i]] + ts[i + 1..];
        MenuCons(ts[i], ts[i + 1..], prop, navDefault, permissions);
        var items := MenuItems(prop, navDefault, data[i], ts[i]);
        menu := menu + items;
      }
      MenuIsWanted(ts, Entry(prop, navDefault, permissions));
    }

    /** The loop body: what one route adds to the menu. */
    method MenuItems(prop: string, navDefault: string, item: Route, ghost t: RouteTree) returns (items: seq<MenuItem>)
      requires Tidy(t) && Holds(t) && item == t.route
      ensures items == MenuOf(t, prop, navDefault, permissions)
      decreases t, 1
    {
      var meta := item.info.meta;
      items := [];
      if meta.nav == Some(prop) || (!Truthy(meta.nav) && prop == navDefault) {
        if !meta.hidden && (!Truthy(meta.role) || (Truthy(meta.role) && meta.role.value in permissions)) {
          var below := None;
          if item.children.Some? {
            var kids := MenuTree(prop, navDefault, item.children.value, t.kids);
            below := Some(kids);
          }
          if meta.labelText == None {
            if below.Some? {
              items := below.value;
            }
          } else if below.Some? {
            items := [Group(meta, item.info.icon, item.info.path, item.info.name, below.value)];
          } else {
            items := [Plain(meta, item.info.icon, item.info.path, item.info.name)];
          }
        }
      }
    }

    method GetFloor(treeData: seq<Route>, reference: bool, ghost ts: seq<RouteTree>)
      returns (max: nat, marked: seq<Route>, ghost us: seq<RouteTree>)
      requires TidyAll(ts) && HoldsAll(ts) && treeData == RoutesOf(ts)
      modifies if reference then BelowAll(ts) else {}
      ensures TidyAll(ts) && HoldsAll(ts)
      ensures TidyAll(us) && HoldsAll(us) && marked == RoutesOf(us) && SameForest(ts, us)
      ensures if reference then us == ts else fresh(BelowAll(us))
      ensures max == Height(ts) && IsDepth(ts, max) && AllFloorsFrom(us, 1)
      ensures forall path: seq<RouteTree> :: Chain(us, path) ==> path[|path| - 1].route.floor == |path|
    {
      if reference {
        SameForestRefl(ts);
        marked, us := treeData, ts;
        max := MarkAll(marked, us);
      } else {
        max, marked, us := MarkCopy(treeData, ts);
      }
      SameHeight(ts, us);
      HeightIsDepth(ts);
    }

    /** The walk over a deep copy, which leaves the routes given as they are. */
    method MarkCopy(treeData: seq<Route>, ghost ts: seq<RouteTree>)
      returns (max: nat, marked: seq<Route>, ghost us: seq<RouteTree>)
      requires TidyAll(ts) && HoldsAll(ts) && treeData == RoutesOf(ts)
      ensures TidyAll(us) && HoldsAll(us) && marked == RoutesOf(us) && SameForest(ts, us) && fresh(BelowAll(us))
      ensures max == Height(us) && AllFloorsFrom(us, 1)
      ensures forall path: seq<RouteTree> :: Chain(us, path) ==> path[|path| - 1].route.floor == |path|
    {
      marked, us := CopyForest(treeData, ts);
      max := MarkAll(marked, us);
    }

    /** The walk over all routes: it marks each with its place on its chain. */
    method MarkAll(data: seq<Route>, ghost us: seq<RouteTree>) returns (max: nat)
      requires TidyAll(us) && HoldsAll(us) && data == RoutesOf(us)
      modifies BelowAll(us)`floor
      ensures HoldsAll(us) && max == Height(us) && AllFloorsFrom(us, 1)
      ensures forall path: seq<RouteTree> :: Chain(us, path) ==> path[|path| - 1].route.floor == |path|
    {
      max := Each(data, 1, 0, us);
      MarksArePlaces(us);
    }

    method Each(data: seq<Route>, floor: nat, maxSoFar: nat, ghost ts: seq<RouteTree>) returns (max: nat)
      requires TidyAll(ts) && HoldsAll(ts) && data == RoutesOf(ts) && floor > 0
      modifies BelowAll(ts)`floor
      ensures max == Max(maxSoFar, Deepest(ts, floor))
      ensures HoldsAll(ts) && AllFloorsFrom(ts, floor)
      decreases ts, 0
    {
      max := maxSoFar;
      assert ts[0..] == ts;
      ghost var goal := Max(maxSoFar, Deepest(ts, floor));
      for i := 0 to |data|
        invariant Max(max, Deepest(ts[i..], floor)) == goal
        invariant HoldsAll(ts)
        invariant forall j :: 0 <= j < i ==> FloorsFrom(ts[j], floor)
      {
        ghost var left := Deepest(ts[i + 1..], floor);
        DeepestFrom(ts, i, floor, max, left);
        max := Mark(data[i], floor, max, ts[i]);
      }
    }

    method Mark(e: Route, floor: nat, maxSoFar: nat, ghost t: RouteTree) returns (max: nat)
      requires Tidy(t) && Holds(t) && e == t.route && floor > 0
      modifies t.below`floor
      ensures max == Max(maxSoFar, floor + KidHeight(t))
      ensures Holds(t) && FloorsFrom(t, floor)
      decreases t, 1
    {
      e.floor := floor;
      max := maxSoFar;
      if floor > max {
        max := floor;
      }
      if e.children.Some? && |e.children.value| > 0 {
        max := Each(e.children.value, floor + 1, max, t.kids);
      }
    }

    /** `new RouteMenu(routes, permissions)` works on a deep copy of the routes. */
    constructor (routes: seq<Route>, permissions: Option<seq<string>>, ghost ts: seq<RouteTree>)
      requires TidyAll(ts) && HoldsAll(ts) && routes == RoutesOf(ts)
      ensures this.permissions == if permissions.Some? then permissions.value else []
      ensures routeId == 0 && routeArr == [] && addRouters == []
      ensures exists us :: OwnCopy(us, ts, originRouteArr)
    {
      originRouteArr, routeId, routeArr, addRouters := [], 0, [], [];
      this.permissions := if permissions.Some? then permissions.value else [];
      new;
      var copies, us := CopyForest(routes, ts);
      originRouteArr := copies;
      assert OwnCopy(us, ts, originRouteArr);
    }

    /** The permissions of a fresh instance: the roles reached from `commonUser`, and from `admin` for an
        administrator. */
    method GrantRoles(admin: bool, ghost ts: seq<RouteTree>)
      requires TidyAll(ts) && HoldsAll(ts) && originRouteArr == RoutesOf(ts)
      requires permissions == [] && routeId == 0 && routeArr == []
      requires AcyclicFrom(Rows(ts, 0, 0), "commonUser") && (admin ==> AcyclicFrom(Rows(ts, 0, 0), "admin"))
      modifies this`routeId, this`routeArr, this`permissions
      ensures Distinct(permissions)
      ensures forall x :: x in permissions <==>
                Reaches(Rows(ts, 0, 0), "commonUser", x) || (admin && Reaches(Rows(ts, 0, 0), "admin", x))
    {
      PreRouteArr(originRouteArr, 0, ts);
      assert routeArr == Rows(ts, 0, 0);
      ghost var granted := FillPerms("commonUser");
      ghost var more := [];
      if admin {
        more := FillPerms("admin");
      }
      ghost var filled := permissions;
      assert filled == granted + more;
      var roles := GetPermission();
      assert forall x :: x in roles <==> x in SetOf(filled);
    }

    /** `SET_PERMISSIONS`: the order in which the store calls a fresh instance. */
    method SetPermissions(admin: bool, ghost ts: seq<RouteTree>) returns (routeDeep: nat)
      requires TidyAll(ts) && HoldsAll(ts) && originRouteArr == RoutesOf(ts)
      requires permissions == [] && routeId == 0 && routeArr == []
      requires AcyclicFrom(Rows(ts, 0, 0), "commonUser") && (admin ==> AcyclicFrom(Rows(ts, 0, 0), "admin"))
      modifies this, BelowAll(ts)`children
      ensures forall x :: x in permissions <==>
                Reaches(Rows(ts, 0, 0), "commonUser", x) || (admin && Reaches(Rows(ts, 0, 0), "admin", x))
      ensures TidyAll(Prune(ts, permissions)) && HoldsAll(Prune(ts, permissions))
      ensures addRouters == RoutesOf(Prune(ts, permissions))
      ensures TidyAll(PrunedInPlace(ts, permissions)) && HoldsAll(PrunedInPlace(ts, permissions))
      ensures originRouteArr == old(originRouteArr) == RoutesOf(PrunedInPlace(ts, permissions))
      ensures var height := Height(Prune(ts, permissions)); routeDeep == if height == 1 then 2 else height
      ensures IsRouteDeep(Prune(ts, permissions), routeDeep)
    {
      GrantRoles(admin, ts);
      FilterOwn(ts);
      routeDeep := RouteDeep(Prune(ts, permissions), PrunedInPlace(ts, permissions));
    }

    /** The depth of the routes to add; a single level counts as two. */
    method RouteDeep(ghost ts: seq<RouteTree>, ghost own: seq<RouteTree>) returns (routeDeep: nat)
      requires TidyAll(ts) && HoldsAll(ts) && addRouters == RoutesOf(ts)
      requires TidyAll(own) && HoldsAll(own)
      ensures HoldsAll(ts) && HoldsAll(own)
      ensures routeDeep == if Height(ts) == 1 then 2 else Height(ts)
      ensures IsRouteDeep(ts, routeDeep)
    {
      HeightIsDepth(ts);
      var max, marked, us := GetFloor(addRouters, false, ts);
      routeDeep := if max == 1 then 2 else max;
    }

    method FilterOwn(ghost ts: seq<RouteTree>)
      requires TidyAll(ts) && HoldsAll(ts) && originRouteArr == RoutesOf(ts)
      modifies this`addRouters, BelowAll(ts)`children
      ensures TidyAll(Prune(ts, permissions)) && HoldsAll(Prune(ts, permissions))
      ensures addRouters == RoutesOf(Prune(ts, permissions))
      ensures TidyAll(PrunedInPlace(ts, permissions)) && HoldsAll(PrunedInPlace(ts, permissions))
      ensures originRouteArr == RoutesOf(PrunedInPlace(ts, permissions))
    {
      addRouters := FilterAsyncRouter(originRouteArr, permissions, ts);
      PruneHolds(ts, permissions);
      assert RoutesOf(PrunedInPlace(ts, permissions)) == RoutesOf(ts);
    }

    /** `SET_MENU`, for one entry of the navigation: it runs on the routes as the filter left them, and
        gives the menu of the routes as they were. */
    method SetMenu(prop: string, navDefault: string, ghost ts: seq<RouteTree>) returns (menu: seq<MenuItem>)
      requires originRouteArr == RoutesOf(PrunedInPlace(ts, permissions))
      requires TidyAll(PrunedInPlace(ts, permissions)) && HoldsAll(PrunedInPlace(ts, permissions))
      ensures menu == Menu(ts, prop, navDefault, permissions)
      ensures ItemPaths(menu) == Wanted(AllChains(ts), Entry(prop, navDefault, permissions))
    {
      menu := MenuTree(prop, navDefault, originRouteArr, PrunedInPlace(ts, permissions));
      PruningPreservesMenu(ts, prop, navDefault, permissions);
      MenuIsWanted(ts, Entry(prop, navDefault, permissions));
    }
  }

  /** `us` describes the routes of an instance: a copy of `ts` made of objects of its own. */
  ghost predicate OwnCopy(us: seq<RouteTree>, ts: seq<RouteTree>, routes: seq<Route>)
    reads BelowAll(us)`info, BelowAll(us)`children
  {
    TidyAll(us) && HoldsAll(us) && routes == RoutesOf(us) && SameForest(ts, us) && BelowAll(us) !! BelowAll(ts)
  }

  // ----- Detail pages

  datatype DetailParams = DetailParams(path: Option<string>, name: Option<string>, page: string, meta: Meta)

  /** A chain of layouts of the given length, above one detail page. */
  ghost predicate DetailChain(t: RouteTree, params: DetailParams, index: nat, routeDeep: nat)
    decreases t
  {
    t.Parent? &&
    if index == routeDeep then
      && t.kids == []
      && t.info.path == params.path && t.info.name == params.name && t.info.meta == params.meta
      && t.info.component == Detail(params.page)
    else
      && t.info.path == Some("")
      && (index == 1 ==> t.info.component == LayoutComponent)
      && (index == 2 ==> t.info.component == Nest2)
      && (index == 3 ==> t.info.component == Nest3)
      && |t.kids| == 1 && DetailChain(t.kids[0], params, index + 1, routeDeep)
      && (3 < index + 1 < routeDeep ==> t.kids[0].info.component == NoComponent)
  }

  const NO_META := Meta(None, None, false, None)

  /** `pageDetail`: ends only if the index does not start beyond the depth. */
  method PageDetail(params: DetailParams, obj: Route, index: nat, routeDeep: nat) returns (ghost t: RouteTree)
    requires index <= routeDeep
    modifies obj
    ensures t.route == obj && Tidy(t) && Holds(t) && fresh(t.below - {obj})
    ensures DetailChain(t, params, index, routeDeep)
    ensures 3 < index < routeDeep ==> t.info.component == old(obj.info.component)
    decreases routeDeep - index
  {
    obj.children := Some([]);
    if index == routeDeep {
      obj.info := obj.info.(path := params.path, name := params.name, component := Detail(params.page), meta := params.meta);
      t := Parent(obj, obj.info, {obj}, []);
      assert RoutesOf(t.kids) == [];
    } else {
      obj.info := obj.info.(path := Some(""));
      if index == 1 { obj.info := obj.info.(component := LayoutComponent); }
      if index == 2 { obj.info := obj.info.(component := Nest2); }
      if index == 3 { obj.info := obj.info.(component := Nest3); }
      var objSub := new Route(Info(None, None, None, NoComponent, NO_META), None);
      ghost var sub := PageDetail(params, objSub, index + 1, routeDeep);
      obj.children := Some(obj.children.value + [objSub]);
      t := Parent(obj, obj.info, sub.below + {obj}, [sub]);
      assert RoutesOf(t.kids) == [objSub] && [] + [objSub] == [objSub];
    }
  }

  /** How many routes the recursion makes, if it is no deeper than `fuel`. */
  function DetailRoutes(index: nat, routeDeep: nat, fuel: nat): Option<nat>
    decreases fuel
  {
    if fuel == 0 then None
    else if index == routeDeep then Some(1)
    else
      var below := DetailRoutes(index + 1, routeDeep, fuel - 1);
      if below.None? then None else Some(below.value + 1)
  }

  /** It ends if and only if the index does not start beyond the depth. */
  lemma PageDetailEndsExactly(index: nat, routeDeep: nat)
    ensures (exists fuel: nat :: DetailRoutes(index, routeDeep, fuel).Some?) <==> index <= routeDeep
  {
    if index <= routeDeep {
      DetailReaches(index, routeDeep);
    } else {
      forall fuel: nat ensures DetailRoutes(index, routeDeep, fuel).None? {
        DetailNeverReaches(index, routeDeep, fuel);
      }
    }
  }

  lemma {:induction false} DetailReaches(index: nat, routeDeep: nat)
    requires index <= routeDeep
    ensures DetailRoutes(index, routeDeep, routeDeep - index + 1) == Some(routeDeep - index + 1)
    decreases routeDeep - index
  {
    if index < routeDeep {
      DetailReaches(index + 1, routeDeep);
    }
  }

  lemma {:induction false} DetailNeverReaches(index: nat, routeDeep: nat, fuel: nat)
    requires index > routeDeep
    ensures DetailRoutes(index, routeDeep, fuel).None?
    decreases fuel
  {
    if fuel > 0 {
      DetailNeverReaches(index + 1, routeDeep, fuel - 1);
    }
  }

  /** Level by level: the routes on the way down are layouts without a path, the upper three of which have the
      component of their level; the route at the depth asked for is the page itself, with nothing below it. */
  lemma {:induction false} DetailLevels(t: RouteTree, params: DetailParams, index: nat, routeDeep: nat, path: seq<RouteTree>)
    requires index <= routeDeep && DetailChain(t, params, index, routeDeep) && Chain([t], path)
    ensures index + |path| - 1 <= routeDeep
    ensures var level, r := index + |path| - 1, path[|path| - 1];
            if level == routeDeep then
              && r.info.path == params.path && r.info.name == params.name && r.info.meta == params.meta
              && r.info.component == Detail(params.page) && r.Parent? && r.kids == []
            else
              && r.info.path == Some("") && r.Parent? && |r.kids| == 1
              && (level == 1 ==> r.info.component == LayoutComponent)
              && (level == 2 ==> r.info.component == Nest2)
              && (level == 3 ==> r.info.component == Nest3)
              && (level > 3 && |path| > 1 ==> r.info.component == NoComponent)
    decreases |path|
  {
    assert path[0] == t;
    if |path| > 1 {
      assert index < routeDeep && t.kids == [t.kids[0]];
      DetailLevels(t.kids[0], params, index + 1, routeDeep, path[1..]);
    }
  }

  /** The depth that `getFloor` finds for a detail page is the depth asked for. */
  lemma {:induction false} DetailHeight(t: RouteTree, params: DetailParams, index: nat, routeDeep: nat)
    requires index <= routeDeep && DetailChain(t, params, index, routeDeep)
    ensures Height([t]) == routeDeep - index + 1
    decreases t
  {
    if index < routeDeep {
      DetailHeight(t.kids[0], params, index + 1, routeDeep);
      assert t.kids == [t.kids[0]];
    }
  }

  lemma {:induction false} SameTreeRefl(t: RouteTree)
    ensures SameTree(t, t)
    decreases t, 1
  {
    if t.Parent? {
      SameForestRefl(t.kids);
    }
  }

  lemma {:induction false} SameForestRefl(ts: seq<RouteTree>)
    ensures SameForest(ts, ts)
    decreases ts, 0
  {
    forall i | 0 <= i < |ts| ensures SameTree(ts[i], ts[i]) {
      SameTreeRefl(ts[i]);
    }
  }

  lemma BelowSnoc(ts: seq<RouteTree>, t: RouteTree)
    ensures BelowAll(ts + [t]) == BelowAll(ts) + t.below
  {
    var all := ts + [t];
    assert all[|ts|] == t;
    assert forall i :: 0 <= i < |ts| ==> all[i] == ts[i];
  }

  lemma TidySnoc(us: seq<RouteTree>, u: RouteTree)
    requires TidyAll(us) && Tidy(u) && BelowAll(us) !! u.below
    ensures TidyAll(us + [u]) && RoutesOf(us + [u]) == RoutesOf(us) + [u.route]
    ensures HoldsAll(us) && Holds(u) ==> HoldsAll(us + [u])
  {
    forall i, j | 0 <= i < j < |us + [u]| ensures (us + [u])[i].below !! (us + [u])[j].below {
      assert us[i].below <= BelowAll(us);
    }
  }

  /** `util.deepCopy` of route trees. */
  method CopyForest(routes: seq<Route>, ghost ts: seq<RouteTree>) returns (copies: seq<Route>, ghost us: seq<RouteTree>)
    requires TidyAll(ts) && HoldsAll(ts) && routes == RoutesOf(ts)
    ensures TidyAll(us) && HoldsAll(us) && copies == RoutesOf(us) && SameForest(ts, us) && fresh(BelowAll(us))
    decreases ts, 0
  {
    copies, us := [], [];
    for i := 0 to |routes|
      invariant |us| == i && TidyAll(us) && HoldsAll(us) && copies == RoutesOf(us)
      invariant forall j :: 0 <= j < i ==> SameTree(ts[j], us[j])
      invariant fresh(BelowAll(us))
    {
      ghost var u;
      var copy;
      copy, u := CopyRoute(routes[i], ts[i]);
      BelowSnoc(us, u);
      TidySnoc(us, u);
      copies, us := copies + [copy], us + [u];
    }
  }

  method CopyRoute(route: Route, ghost t: RouteTree) returns (copy: Route, ghost u: RouteTree)
    requires Tidy(t) && Holds(t) && route == t.route
    ensures Tidy(u) && Holds(u) && copy == u.route && SameTree(t, u) && fresh(u.below)
    decreases t, 1
  {
    if route.children.Some? {
      var kids;
      ghost var us;
      kids, us := CopyForest(route.children.value, t.kids);
      copy := new Route(route.info, Some(kids));
      u := Parent(copy, t.info, BelowAll(us) + {copy}, us);
    } else {
      copy := new Route(route.info, None);
      u := Childless(copy, t.info, {copy});
    }
  }

  lemma AfterFilterTidy(t: RouteTree, roles: seq<string>)
    requires Tidy(t)
    ensures Tidy(AfterFilter(t, roles)) && AfterFilter(t, roles).below == t.below
  {
    PrunedTidy(t, roles);
  }

  lemma InPlaceTidy(ts: seq<RouteTree>, roles: seq<string>)
    requires TidyAll(ts)
    ensures TidyAll(PrunedInPlace(ts, roles)) && BelowAll(PrunedInPlace(ts, roles)) == BelowAll(ts)
    ensures forall i :: 0 <= i < |ts| ==> PrunedInPlace(ts, roles)[i].below == ts[i].below
  {
    forall i | 0 <= i < |ts| ensures Tidy(AfterFilter(ts[i], roles)) && AfterFilter(ts[i], roles).below == ts[i].below {
      AfterFilterTidy(ts[i], roles);
    }
    var after := PrunedInPlace(ts, roles);
    assert forall i :: 0 <= i < |ts| ==> after[i].below == ts[i].below;
    forall i, r | 0 <= i < |ts| && r in ts[i].below ensures r in BelowAll(after) { assert r in after[i].below; }
    forall i, r | 0 <= i < |ts| && r in after[i].below ensures r in BelowAll(ts) { assert r in ts[i].below; }
  }

  /** The routes returned are among those filtered in place. */
  lemma {:induction false} PruneHolds(ts: seq<RouteTree>, roles: seq<string>)
    requires TidyAll(ts) && TidyAll(PrunedInPlace(ts, roles)) && HoldsAll(PrunedInPlace(ts, roles))
    ensures TidyAll(Prune(ts, roles)) && HoldsAll(Prune(ts, roles))
    decreases |ts|
  {
    PruneTidy(ts, roles);
    if ts != [] {
      assert ts == [ts[0]] + ts[1..];
      TidyCons(ts[0], ts[1..]);
      InPlaceTidy(ts[1..], roles);
      InPlaceCons(ts, roles);
      forall i | 0 <= i < |ts| - 1 ensures Holds(PrunedInPlace(ts[1..], roles)[i]) {
        assert PrunedInPlace(ts, roles)[i + 1] == PrunedInPlace(ts[1..], roles)[i];
      }
      PruneHolds(ts[1..], roles);
      assert Holds(PrunedInPlace(ts, roles)[0]);
    }
  }
}
