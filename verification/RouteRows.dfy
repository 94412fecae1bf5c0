/** What the flat route rows say about the route forest, and which routes a granted role keeps. */
module RouteRows {
  import opened Basics
  import opened RoleClosure
  import opened RouteForest

  ghost predicate IdsFrom(rows: seq<Row>, pId: nat, last: nat) {
    && (forall i :: 0 <= i < |rows| ==> rows[i].id == last + 1 + i)
    && forall i :: 0 <= i < |rows| ==> rows[i].pId == pId || last < rows[i].pId < rows[i].id
  }

  lemma IdsJoin(all: seq<Row>, head: Row, below: seq<Row>, rest: seq<Row>, pId: nat, last: nat)
    requires all == [head] + below + rest
    requires head.id == last + 1 && head.pId == pId
    requires IdsFrom(below, last + 1, last + 1) && IdsFrom(rest, pId, last + 1 + |below|)
    ensures IdsFrom(all, pId, last) && |all| == 1 + |below| + |rest|
  {
  }

  /** Ids are consecutive in preorder, and every parent id is `pId` or a smaller id of this forest. */
  lemma {:induction false} RowIds(ts: seq<RouteTree>, pId: nat, last: nat)
    ensures IdsFrom(Rows(ts, pId, last), pId, last)
    ensures |Rows(ts, pId, last)| == Size(ts)
    decreases ts, 0
  {
    if ts != [] {
      var head, below := Row(last + 1, pId, ts[0].info.meta.role), KidRows(ts[0], last + 1);
      var rest := Rows(ts[1..], pId, last + 1 + |below|);
      KidRowIds(ts[0], last + 1);
      RowIds(ts[1..], pId, last + 1 + |below|);
      IdsJoin(Rows(ts, pId, last), head, below, rest, pId, last);
    }
  }

  lemma {:induction false} KidRowIds(t: RouteTree, id: nat)
    ensures IdsFrom(KidRows(t, id), id, id) && |KidRows(t, id)| == KidSize(t)
    decreases t, 1
  {
    if t.Parent? {
      RowIds(t.kids, id, id);
    }
  }

  datatype Shape = Shape(role: Option<string>, kids: seq<Shape>)

  function Shapes(ts: seq<RouteTree>): seq<Shape>
    decreases ts, 0
  {
    if ts == [] then []
    else [Shape(ts[0].info.meta.role, KidShapes(ts[0]))] + Shapes(ts[1..])
  }

  function KidShapes(t: RouteTree): seq<Shape>
    decreases t, 1
  {
    if t.Parent? then Shapes(t.kids) else []
  }

  /** Reads the forest below the row `pId` back from the rows, and returns the rows left over. */
  function Rebuild(rows: seq<Row>, pId: nat): (result: (seq<Shape>, seq<Row>))
    ensures |result.1| <= |rows|
    decreases |rows|
  {
    if rows == [] || rows[0].pId != pId then ([], rows)
    else
      var (kids, afterKids) := Rebuild(rows[1..], rows[0].id);
      var (siblings, rest) := Rebuild(afterKids, pId);
      ([Shape(rows[0].role, kids)] + siblings, rest)
  }

  lemma RebuildCons(row: Row, rows: seq<Row>)
    ensures Rebuild([row] + rows, row.pId) ==
            var (kids, afterKids) := Rebuild(rows, row.id);
            var (siblings, rest) := Rebuild(afterKids, row.pId);
            ([Shape(row.role, kids)] + siblings, rest)
  {
    assert ([row] + rows)[1..] == rows;
  }

  lemma RebuildFirst(head: Row, below: seq<Row>, rest: seq<Row>, tail: seq<Row>, kids: seq<Shape>, siblings: seq<Shape>)
    requires Rebuild(below + (rest + tail), head.id) == (kids, rest + tail)
    requires Rebuild(rest + tail, head.pId) == (siblings, tail)
    ensures Rebuild([head] + below + rest + tail, head.pId) == ([Shape(head.role, kids)] + siblings, tail)
  {
    RebuildCons(head, below + (rest + tail));
    JoinsAssociate([head], below, rest, tail);
  }

  /** The rows of a forest lead back to its shape and roles, and to whatever rows follow them. */
  lemma {:induction false} RebuildInverts(ts: seq<RouteTree>, pId: nat, last: nat, tail: seq<Row>)
    requires pId <= last
    requires tail == [] || tail[0].pId < pId
    ensures Rebuild(Rows(ts, pId, last) + tail, pId) == (Shapes(ts), tail)
    decreases ts, 0
  {
    if ts == [] {
      assert Rows(ts, pId, last) + tail == tail;
    } else {
      var head := Row(last + 1, pId, ts[0].info.meta.role);
      var below := KidRows(ts[0], last + 1);
      var rest := Rows(ts[1..], pId, last + 1 + |below|);
      RebuildInverts(ts[1..], pId, last + 1 + |below|, tail);
      FirstRow(ts[1..], pId, last + 1 + |below|);
      RebuildKids(ts[0], last + 1, rest + tail);
      RebuildFirst(head, below, rest, tail, KidShapes(ts[0]), Shapes(ts[1..]));
    }
  }

  lemma {:induction false} RebuildKids(t: RouteTree, id: nat, tail: seq<Row>)
    requires tail == [] || tail[0].pId < id
    ensures Rebuild(KidRows(t, id) + tail, id) == (KidShapes(t), tail)
    decreases t, 1
  {
    if t.Parent? {
      RebuildInverts(t.kids, id, id, tail);
    } else {
      assert KidRows(t, id) + tail == tail;
    }
  }

  lemma FirstRow(ts: seq<RouteTree>, pId: nat, last: nat)
    ensures ts != [] ==> Rows(ts, pId, last) != [] && Rows(ts, pId, last)[0].pId == pId
    ensures ts == [] ==> Rows(ts, pId, last) == []
  {
  }

  lemma {:induction false} SameShapeSameRows(ts: seq<RouteTree>, us: seq<RouteTree>, pId: nat, last: nat)
    requires Shapes(ts) == Shapes(us)
    ensures Rows(ts, pId, last) == Rows(us, pId, last)
    decreases ts
  {
    ShapesCons(ts);
    ShapesCons(us);
    if ts != [] {
      var t, u := ts[0], us[0];
      assert KidRows(t, last + 1) == KidRows(u, last + 1) by {
        if t.Parent? && u.Parent? {
          SameShapeSameRows(t.kids, u.kids, last + 1, last + 1);
        } else if t.Parent? {
          ShapesCons(t.kids);
        } else if u.Parent? {
          ShapesCons(u.kids);
        }
      }
      SameShapeSameRows(ts[1..], us[1..], pId, last + 1 + |KidRows(t, last + 1)|);
    }
  }

  lemma ShapesCons(ts: seq<RouteTree>)
    ensures ts == [] <==> Shapes(ts) == []
    ensures ts != [] ==>
              && Shapes(ts)[0] == Shape(ts[0].info.meta.role, KidShapes(ts[0]))
              && Shapes(ts)[1..] == Shapes(ts[1..])
  {
  }

  /** From a fresh instance the rows determine the shape of the forest and all roles, and nothing else. */
  lemma RowsDetermineForest(ts: seq<RouteTree>, us: seq<RouteTree>)
    ensures Rows(ts, 0, 0) == Rows(us, 0, 0) <==> Shapes(ts) == Shapes(us)
  {
    RebuildInverts(ts, 0, 0, []);
    RebuildInverts(us, 0, 0, []);
    assert Rows(ts, 0, 0) + [] == Rows(ts, 0, 0);
    assert Rows(us, 0, 0) + [] == Rows(us, 0, 0);
    if Shapes(ts) == Shapes(us) {
      SameShapeSameRows(ts, us, 0, 0);
    }
  }

  ghost predicate RoleAmong(ts: seq<RouteTree>, r: string) {
    exists t :: t in ts && t.info.meta.role == Some(r)
  }

  /** Some route with the role `r` is a child of a route with the non-empty role `p`. */
  ghost predicate ForestEdge(ts: seq<RouteTree>, r: string, p: string)
    decreases ts, 0
  {
    ts != [] && (EdgeAt(ts[0], r, p) || ForestEdge(ts[1..], r, p))
  }

  ghost predicate EdgeAt(t: RouteTree, r: string, p: string)
    decreases t, 1
  {
    t.Parent? && ((p != "" && t.info.meta.role == Some(p) && RoleAmong(t.kids, r)) || ForestEdge(t.kids, r, p))
  }

  ghost predicate TopRow(rows: seq<Row>, pId: nat, r: string) {
    exists row :: row in rows && row.pId == pId && row.role == Some(r)
  }

  lemma {:induction false} TopRows(ts: seq<RouteTree>, pId: nat, last: nat, r: string)
    requires pId <= last
    ensures RoleAmong(ts, r) <==> TopRow(Rows(ts, pId, last), pId, r)
    decreases ts
  {
    if ts != [] {
      var head, below := Row(last + 1, pId, ts[0].info.meta.role), KidRows(ts[0], last + 1);
      var rest := Rows(ts[1..], pId, last + 1 + |below|);
      TopRows(ts[1..], pId, last + 1 + |below|, r);
      KidRowIds(ts[0], last + 1);
      TopRowJoin(head, below, rest, pId, r);
      RoleAmongCons(ts, r);
    }
  }

  lemma RoleAmongCons(ts: seq<RouteTree>, r: string)
    requires ts != []
    ensures RoleAmong(ts, r) <==> ts[0].info.meta.role == Some(r) || RoleAmong(ts[1..], r)
  {
    assert ts == [ts[0]] + ts[1..];
  }

  lemma TopRowJoin(head: Row, below: seq<Row>, rest: seq<Row>, pId: nat, r: string)
    requires head.pId == pId && forall row :: row in below ==> row.pId != pId
    ensures TopRow([head] + below + rest, pId, r) <==> head.role == Some(r) || TopRow(rest, pId, r)
  {
    var all := [head] + below + rest;
    if head.role == Some(r) {
      assert head in all;
    }
    if row :| row in rest && row.pId == pId && row.role == Some(r) {
      assert row in all;
    }
  }

  /** `row` has the role `r`, and is a child of `parent`, which has the non-empty role `p`. */
  predicate RowEdge(row: Row, parent: Row, r: string, p: string) {
    row.role == Some(r) && row.pId == parent.id && parent.role == Some(p) && p != ""
  }

  lemma RowsJoin(ts: seq<RouteTree>, pId: nat, last: nat, row: Row)
    requires ts != []
    ensures var below := KidRows(ts[0], last + 1);
            row in Rows(ts, pId, last) <==>
              || row == Row(last + 1, pId, ts[0].info.meta.role)
              || row in below
              || row in Rows(ts[1..], pId, last + 1 + |below|)
  {
  }

  lemma KidRowRange(t: RouteTree, id: nat, row: Row)
    requires row in KidRows(t, id)
    ensures id < row.id <= id + |KidRows(t, id)| && (row.pId == id || id < row.pId < row.id)
  {
    KidRowIds(t, id);
  }

  lemma RowRange(ts: seq<RouteTree>, pId: nat, last: nat, row: Row)
    requires row in Rows(ts, pId, last)
    ensures last < row.id && (row.pId == pId || last < row.pId < row.id)
  {
    RowIds(ts, pId, last);
  }

  /** A row and its parent row both come from one subtree, or are a child row and the first row. */
  lemma RowAndParent(ts: seq<RouteTree>, pId: nat, last: nat, row: Row, parent: Row)
    requires pId <= last && row.pId == parent.id
    requires row in Rows(ts, pId, last) && parent in Rows(ts, pId, last)
    ensures var below := KidRows(ts[0], last + 1);
            var rest := Rows(ts[1..], pId, last + 1 + |below|);
            if row in below
            then parent in below || (row.pId == last + 1 && parent == Row(last + 1, pId, ts[0].info.meta.role))
            else row in rest && parent in rest
  {
    var below := KidRows(ts[0], last + 1);
    var rest := Rows(ts[1..], pId, last + 1 + |below|);
    RowsJoin(ts, pId, last, row);
    RowsJoin(ts, pId, last, parent);
    if row in below { KidRowRange(ts[0], last + 1, row); }
    if parent in below { KidRowRange(ts[0], last + 1, parent); }
    if row in rest { RowRange(ts[1..], pId, last + 1 + |below|, row); }
    if parent in rest { RowRange(ts[1..], pId, last + 1 + |below|, parent); }
  }

  lemma {:induction false} RowEdgeIsForestEdge(ts: seq<RouteTree>, pId: nat, last: nat, row: Row, parent: Row, r: string, p: string)
    requires pId <= last && RowEdge(row, parent, r, p)
    requires row in Rows(ts, pId, last) && parent in Rows(ts, pId, last)
    ensures ForestEdge(ts, r, p)
    decreases ts
  {
    var below := KidRows(ts[0], last + 1);
    RowAndParent(ts, pId, last, row, parent);
    if row in below {
      if parent in below {
        RowEdgeIsForestEdge(ts[0].kids, last + 1, last + 1, row, parent, r, p);
      } else {
        TopRows(ts[0].kids, last + 1, last + 1, r);
      }
    } else {
      RowEdgeIsForestEdge(ts[1..], pId, last + 1 + |below|, row, parent, r, p);
    }
  }

  lemma {:induction false} ForestEdgeIsRowEdge(ts: seq<RouteTree>, pId: nat, last: nat, r: string, p: string)
    returns (row: Row, parent: Row)
    requires pId <= last && ForestEdge(ts, r, p)
    ensures RowEdge(row, parent, r, p)
    ensures row in Rows(ts, pId, last) && parent in Rows(ts, pId, last)
    decreases ts, 0
  {
    if EdgeAt(ts[0], r, p) {
      row, parent := EdgeAtIsRowEdge(ts[0], pId, last, r, p);
      FirstRows(ts, pId, last, row);
      FirstRows(ts, pId, last, parent);
    } else {
      row, parent := ForestEdgeIsRowEdge(ts[1..], pId, last + 1 + |KidRows(ts[0], last + 1)|, r, p);
      LaterRows(ts, pId, last, row);
      LaterRows(ts, pId, last, parent);
    }
  }

  lemma FirstRows(ts: seq<RouteTree>, pId: nat, last: nat, row: Row)
    requires ts != [] && (row == Row(last + 1, pId, ts[0].info.meta.role) || row in KidRows(ts[0], last + 1))
    ensures row in Rows(ts, pId, last)
  {
    RowsJoin(ts, pId, last, row);
  }

  lemma LaterRows(ts: seq<RouteTree>, pId: nat, last: nat, row: Row)
    requires ts != [] && row in Rows(ts[1..], pId, last + 1 + |KidRows(ts[0], last + 1)|)
    ensures row in Rows(ts, pId, last)
  {
    RowsJoin(ts, pId, last, row);
  }

  lemma {:induction false} EdgeAtIsRowEdge(t: RouteTree, pId: nat, last: nat, r: string, p: string)
    returns (row: Row, parent: Row)
    requires pId <= last && EdgeAt(t, r, p)
    ensures RowEdge(row, parent, r, p) && row in KidRows(t, last + 1)
    ensures parent == Row(last + 1, pId, t.info.meta.role) || parent in KidRows(t, last + 1)
    decreases t, 1
  {
    if ForestEdge(t.kids, r, p) {
      row, parent := ForestEdgeIsRowEdge(t.kids, last + 1, last + 1, r, p);
    } else {
      TopRows(t.kids, last + 1, last + 1, r);
      row :| row in KidRows(t, last + 1) && row.pId == last + 1 && row.role == Some(r);
      parent := Row(last + 1, pId, t.info.meta.role);
    }
  }

  /** The relation that `fillPerms` climbs on the rows is the parent relation of the forest. */
  lemma RowEdgesAreForestEdges(ts: seq<RouteTree>, r: string, p: string)
    ensures Edge(Rows(ts, 0, 0), r, p) <==> ForestEdge(ts, r, p)
  {
    var rows := Rows(ts, 0, 0);
    if Edge(rows, r, p) {
      var row :| row in rows && row.role == Some(r) && HasRole(rows, row.pId, p);
      var parent :| parent in rows && parent.id == row.pId && parent.role == Some(p);
      RowEdgeIsForestEdge(ts, 0, 0, row, parent, r, p);
    }
    if ForestEdge(ts, r, p) {
      var row, parent := ForestEdgeIsRowEdge(ts, 0, 0, r, p);
      assert HasRole(rows, row.pId, p);
    }
  }

  // ----- Which routes survive the filter

  /** A route of the forest with its ancestors, from the top down. */
  ghost predicate Chain(ts: seq<RouteTree>, older path: seq<RouteTree>)
    decreases |path|
  {
    path != [] && path[0] in ts && (|path| > 1 ==> Chain(Kids(path[0]), path[1..]))
  }

  function PrunedAll(path: seq<RouteTree>, roles: seq<string>): seq<RouteTree> {
    if path == [] then [] else [Pruned(path[0], roles)] + PrunedAll(path[1..], roles)
  }

  lemma {:induction false} PruneMembers(ts: seq<RouteTree>, roles: seq<string>, t: RouteTree)
    ensures t in ts && HasPermission(roles, t.info) ==> Pruned(t, roles) in Prune(ts, roles)
    ensures t in Prune(ts, roles) ==> HasPermission(roles, t.info)
    decreases ts
  {
    if ts != [] {
      PruneMembers(ts[1..], roles, t);
      assert Pruned(ts[0], roles).info == ts[0].info;
    }
  }

  /** A route is still there after filtering, at the end of the path of its filtered ancestors, exactly
      when the role of every route on its path is granted or empty. */
  lemma {:induction false} SurvivesIffPermitted(ts: seq<RouteTree>, path: seq<RouteTree>, roles: seq<string>)
    requires Chain(ts, path)
    ensures Chain(Prune(ts, roles), PrunedAll(path, roles)) <==>
            forall t :: t in path ==> HasPermission(roles, t.info)
    ensures Chain(Prune(ts, roles), PrunedAll(path, roles)) <==>
            forall t :: t in path ==>
              t.info.meta.role == None || t.info.meta.role == Some("") || t.info.meta.role.value in roles
    decreases |path|
  {
    PruneMembers(ts, roles, path[0]);
    PruneMembers(ts, roles, Pruned(path[0], roles));
    var rest := path[1..];
    assert path == [path[0]] + rest;
    if rest != [] {
      assert PrunedAll(path, roles)[1..] == PrunedAll(rest, roles);
      SurvivesIffPermitted(Kids(path[0]), rest, roles);
    }
  }

  lemma {:induction false} EdgeBelow(ts: seq<RouteTree>, t: RouteTree, r: string, p: string)
    requires t in ts && EdgeAt(t, r, p)
    ensures ForestEdge(ts, r, p)
    decreases |ts|
  {
    if t != ts[0] {
      EdgeBelow(ts[1..], t, r, p);
    }
  }

  function RoleOf(t: RouteTree): Option<string> {
    t.info.meta.role
  }

  /** No route with a role has a child without one on this path. */
  ghost predicate RolesUnbroken(path: seq<RouteTree>) {
    |path| > 1 ==> (Truthy(RoleOf(path[0])) ==> Truthy(RoleOf(path[1]))) && RolesUnbroken(path[1..])
  }

  lemma {:induction false} AncestorsReached(ts: seq<RouteTree>, path: seq<RouteTree>, rows: seq<Row>, role: string)
    requires Chain(ts, path) && RolesUnbroken(path)
    requires role != "" && RoleOf(path[|path| - 1]) == Some(role)
    requires forall r, p :: ForestEdge(ts, r, p) ==> Edge(rows, r, p)
    ensures forall t :: t in path && Truthy(RoleOf(t)) ==> Reaches(rows, role, RoleOf(t).value)
    decreases |path|
  {
    ReachesSelf(rows, role);
    if |path| > 1 {
      var top, rest := path[0], path[1..];
      forall r, p | ForestEdge(top.kids, r, p) ensures Edge(rows, r, p) {
        EdgeBelow(ts, top, r, p);
      }
      AncestorsReached(top.kids, rest, rows, role);
      if Truthy(RoleOf(top)) {
        EdgeBelow(ts, top, RoleOf(path[1]).value, RoleOf(top).value);
        ReachesMore(rows, role, RoleOf(path[1]).value, RoleOf(top).value);
      }
      assert path == [top] + rest;
    }
  }

  /** A route with a granted role survives the filter with its whole ancestor path, if no ancestor with
      a role has a child without one on that path. */
  lemma GrantedRouteSurvives(ts: seq<RouteTree>, path: seq<RouteTree>, role: string, roles: seq<string>)
    requires Chain(ts, path) && RolesUnbroken(path)
    requires role != "" && RoleOf(path[|path| - 1]) == Some(role)
    requires forall x :: Reaches(Rows(ts, 0, 0), role, x) ==> x in roles
    ensures Chain(Prune(ts, roles), PrunedAll(path, roles))
  {
    var rows := Rows(ts, 0, 0);
    forall r, p | ForestEdge(ts, r, p) ensures Edge(rows, r, p) {
      RowEdgesAreForestEdges(ts, r, p);
    }
    AncestorsReached(ts, path, rows, role);
    SurvivesIffPermitted(ts, path, roles);
  }

  /** With the permissions that `fillPerms` gives for some roles, such a route survives exactly when its
      own role is among the permissions. */
  lemma PermittedRouteSurvives(ts: seq<RouteTree>, path: seq<RouteTree>, granted: seq<string>, permissions: seq<string>)
    requires Chain(ts, path) && RolesUnbroken(path) && Truthy(RoleOf(path[|path| - 1]))
    requires forall x :: x in permissions <==> exists g :: g in granted && Reaches(Rows(ts, 0, 0), g, x)
    ensures Chain(Prune(ts, permissions), PrunedAll(path, permissions)) <==>
            RoleOf(path[|path| - 1]).value in permissions
  {
    var role := RoleOf(path[|path| - 1]).value;
    if role in permissions {
      var g :| g in granted && Reaches(Rows(ts, 0, 0), g, role);
      forall x | Reaches(Rows(ts, 0, 0), role, x) ensures x in permissions {
        ReachesTransitive(Rows(ts, 0, 0), g, role, x);
      }
      GrantedRouteSurvives(ts, path, role, permissions);
    }
    SurvivesIffPermitted(ts, path, permissions);
    assert path[|path| - 1] in path;
  }

  /** Without that condition the route can be lost: in a chain of roles `admin`, none, `user`, granting
      `user` does not grant `admin`. */
  lemma BrokenPathIsLost(top: Route, middle: Route, bottom: Route, info: Info)
    requires info.meta.role == None
    ensures var leaf := Childless(bottom, info.(meta := info.meta.(role := Some("user"))), {bottom});
            var inner := Parent(middle, info, {middle, bottom}, [leaf]);
            var outer := Parent(top, info.(meta := info.meta.(role := Some("admin"))), {top, middle, bottom}, [inner]);
            && Chain([outer], [outer, inner, leaf])
            && Fill(Rows([outer], 0, 0), "user", 4) == Some(["user"])
            && Prune([outer], ["user"]) == []
  {
    var leaf := Childless(bottom, info.(meta := info.meta.(role := Some("user"))), {bottom});
    var inner := Parent(middle, info, {middle, bottom}, [leaf]);
    var outer := Parent(top, info.(meta := info.meta.(role := Some("admin"))), {top, middle, bottom}, [inner]);
    assert Chain([inner], [inner, leaf]) by { assert [inner, leaf][1..] == [leaf]; assert Chain([leaf], [leaf]); }
    assert [outer, inner, leaf][1..] == [inner, leaf];
    var rows := [Row(1, 0, Some("admin")), Row(2, 1, None), Row(3, 2, Some("user"))];
    assert Rows([leaf], 2, 2) == [rows[2]];
    assert Rows([inner], 1, 1) == [rows[1], rows[2]];
    assert Rows([outer], 0, 0) == rows;
    assert rows[1..] == [rows[1], rows[2]] && rows[1..][1..] == [rows[2]] && [rows[2]][1..] == [];
    assert RolesOfId(rows, 2) == [];
    assert ParentRoles(rows, rows, "user") == [];
    assert FillAll(rows, [], 3) == Some([]);
    assert Fill(rows, "user", 4) == Some(["user"] + []);
    assert ["user"] + [] == ["user"];
  }

  /** A route with a child of its own role is enough of a cycle: granting that role never ends. */
  lemma SameRoleBelowNeverEnds(top: Route, bottom: Route, info: Info, role: string, fuel: nat)
    requires role != "" && info.meta.role == Some(role)
    ensures Fill(Rows([Parent(top, info, {top, bottom}, [Childless(bottom, info, {bottom})])], 0, 0), role, fuel).None?
  {
    var leaf := Childless(bottom, info, {bottom});
    var outer := Parent(top, info, {top, bottom}, [leaf]);
    var rows := Rows([outer], 0, 0);
    assert RoleAmong(outer.kids, role) by { assert leaf in outer.kids; }
    assert EdgeAt(outer, role, role) && ForestEdge([outer], role, role);
    RowEdgesAreForestEdges([outer], role, role);
    assert RolePath(rows, [role]);
    PathCons(rows, role, [role]);
    FillCycle(rows, [role] + [role], fuel);
  }
}
