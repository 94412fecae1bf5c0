/** The upward closure of roles that `RouteMenu.fillPerms` computes over the flat route rows. */
module RoleClosure {
  import opened Basics

  datatype Row = Row(id: nat, pId: nat, role: Option<string>)

  predicate Truthy(s: Option<string>) {
    s.Some? && s.value != ""
  }

  /** The non-empty roles of the rows with the given id, in row order. */
  function RolesOfId(rows: seq<Row>, id: nat): seq<string> {
    if rows == [] then []
    else (if rows[0].id == id && Truthy(rows[0].role) then [rows[0].role.value] else []) + RolesOfId(rows[1..], id)
  }

  /** The roles that the two nested loops visit for `role`, where the outer one scans `scan`. */
  function ParentRoles(scan: seq<Row>, rows: seq<Row>, role: string): seq<string> {
    if scan == [] then []
    else (if scan[0].role == Some(role) then RolesOfId(rows, scan[0].pId) else []) + ParentRoles(scan[1..], rows, role)
  }

  ghost predicate HasRole(rows: seq<Row>, id: nat, p: string) {
    p != "" && exists row :: row in rows && row.id == id && row.role == Some(p)
  }

  /** Some row with the role `r` has a direct parent row with the non-empty role `p`. */
  ghost predicate Edge(rows: seq<Row>, r: string, p: string) {
    exists row :: row in rows && row.role == Some(r) && HasRole(rows, row.pId, p)
  }

  lemma {:induction false} RolesOfIdMember(rows: seq<Row>, id: nat, p: string)
    ensures p in RolesOfId(rows, id) <==> HasRole(rows, id, p)
  {
    if rows != [] {
      RolesOfIdMember(rows[1..], id, p);
      assert rows == [rows[0]] + rows[1..];
    }
  }

  lemma {:induction false} ParentRolesMember(scan: seq<Row>, rows: seq<Row>, r: string, p: string)
    ensures p in ParentRoles(scan, rows, r) <==>
            exists row :: row in scan && row.role == Some(r) && HasRole(rows, row.pId, p)
  {
    if scan != [] {
      ParentRolesMember(scan[1..], rows, r, p);
      RolesOfIdMember(rows, scan[0].pId, p);
      assert scan == [scan[0]] + scan[1..];
    }
  }

  ghost predicate RolePath(rows: seq<Row>, path: seq<string>) {
    path != [] && (|path| > 1 ==> Edge(rows, path[0], path[1]) && RolePath(rows, path[1..]))
  }

  ghost predicate Reaches(rows: seq<Row>, from: string, to: string) {
    exists path :: RolePath(rows, path) && path[0] == from && path[|path| - 1] == to
  }

  /** No path upwards from `role` meets a role twice. */
  ghost predicate AcyclicFrom(rows: seq<Row>, role: string) {
    forall path :: RolePath(rows, path) && path[0] == role ==> Distinct(path)
  }

  lemma PathCons(rows: seq<Row>, r: string, path: seq<string>)
    requires RolePath(rows, path) && Edge(rows, r, path[0])
    ensures RolePath(rows, [r] + path)
  {
    assert ([r] + path)[1..] == path;
  }

  lemma {:induction false} PathSlice(rows: seq<Row>, path: seq<string>, i: nat, j: nat)
    requires RolePath(rows, path) && i < j <= |path|
    ensures RolePath(rows, path[i..j])
    decreases |path|
  {
    if i > 0 {
      PathSlice(rows, path[1..], i - 1, j - 1);
      assert path[1..][i - 1..j - 1] == path[i..j];
    } else if j > 1 {
      PathSlice(rows, path[1..], 0, j - 1);
      assert path[1..][0..j - 1] == path[0..j][1..];
    }
  }

  /** What `fillPerms(role)` pushes, if its recursion is no deeper than `fuel`. */
  function Fill(rows: seq<Row>, role: string, fuel: nat): Option<seq<string>>
    decreases fuel, 0
  {
    if fuel == 0 then None
    else
      var above := FillAll(rows, ParentRoles(rows, rows, role), fuel - 1);
      if above.None? then None else Some([role] + above.value)
  }

  function FillAll(rows: seq<Row>, roles: seq<string>, fuel: nat): Option<seq<string>>
    decreases fuel, |roles| + 1
  {
    if roles == [] then Some([])
    else
      var first, rest := Fill(rows, roles[0], fuel), FillAll(rows, roles[1..], fuel);
      if first.None? || rest.None? then None else Some([roles[0]] + first.value + rest.value)
  }

  lemma {:induction false} FillAllHas(rows: seq<Row>, roles: seq<string>, fuel: nat, p: string)
    requires FillAll(rows, roles, fuel).Some? && p in roles
    ensures Fill(rows, p, fuel).Some? && p in FillAll(rows, roles, fuel).value
    ensures forall x :: x in Fill(rows, p, fuel).value ==> x in FillAll(rows, roles, fuel).value
    decreases |roles|
  {
    if p != roles[0] {
      FillAllHas(rows, roles[1..], fuel, p);
    }
  }

  lemma {:induction false} FillAllFrom(rows: seq<Row>, roles: seq<string>, fuel: nat, x: string) returns (p: string)
    requires FillAll(rows, roles, fuel).Some? && x in FillAll(rows, roles, fuel).value
    ensures p in roles && Fill(rows, p, fuel).Some? && (x == p || x in Fill(rows, p, fuel).value)
    decreases |roles|
  {
    p := roles[0];
    if x != p && x !in Fill(rows, p, fuel).value {
      p := FillAllFrom(rows, roles[1..], fuel, x);
    }
  }

  lemma {:induction false} FillAllSome(rows: seq<Row>, roles: seq<string>, fuel: nat)
    requires forall p :: p in roles ==> Fill(rows, p, fuel).Some?
    ensures FillAll(rows, roles, fuel).Some?
    decreases |roles|
  {
    if roles != [] {
      FillAllSome(rows, roles[1..], fuel);
    }
  }

  lemma FillNext(rows: seq<Row>, r: string, p: string, fuel: nat)
    requires Edge(rows, r, p) && Fill(rows, r, fuel).Some?
    ensures fuel > 0 && Fill(rows, p, fuel - 1).Some?
    ensures forall x :: x in Fill(rows, p, fuel - 1).value ==> x in Fill(rows, r, fuel).value
  {
    ParentRolesMember(rows, rows, r, p);
    FillAllHas(rows, ParentRoles(rows, rows, r), fuel - 1, p);
  }

  /** A terminating call outlasts every path from its role. */
  lemma {:induction false} FillAlong(rows: seq<Row>, path: seq<string>, fuel: nat)
    requires RolePath(rows, path) && Fill(rows, path[0], fuel).Some?
    ensures |path| <= fuel && Fill(rows, path[|path| - 1], fuel - |path| + 1).Some?
    decreases |path|
  {
    if |path| > 1 {
      FillNext(rows, path[0], path[1], fuel);
      FillAlong(rows, path[1..], fuel - 1);
      assert path[1..][|path| - 2] == path[|path| - 1];
    }
  }

  lemma {:induction false} FillCycle(rows: seq<Row>, path: seq<string>, fuel: nat)
    requires RolePath(rows, path) && |path| > 1 && path[0] == path[|path| - 1]
    ensures Fill(rows, path[0], fuel).None?
    decreases fuel
  {
    if Fill(rows, path[0], fuel).Some? {
      FillAlong(rows, path, fuel);
      FillCycle(rows, path, fuel - |path| + 1);
    }
  }

  lemma {:induction false} FillEnough(rows: seq<Row>, role: string, fuel: nat)
    requires forall path :: RolePath(rows, path) && path[0] == role ==> |path| <= fuel
    ensures Fill(rows, role, fuel).Some?
    decreases fuel
  {
    assert RolePath(rows, [role]);
    var parents := ParentRoles(rows, rows, role);
    forall p | p in parents ensures Fill(rows, p, fuel - 1).Some? {
      ParentRolesMember(rows, rows, role, p);
      forall path | RolePath(rows, path) && path[0] == p ensures |path| <= fuel - 1 {
        PathCons(rows, role, path);
      }
      FillEnough(rows, p, fuel - 1);
    }
    FillAllSome(rows, parents, fuel - 1);
  }

  function RoleOrEmpty(row: Row): string {
    if row.role.Some? then row.role.value else ""
  }

  lemma {:induction false} PathWithinRoles(rows: seq<Row>, path: seq<string>)
    requires RolePath(rows, path)
    ensures forall x :: x in path[1..] ==> exists row :: row in rows && RoleOrEmpty(row) == x
    decreases |path|
  {
    if |path| > 1 {
      PathWithinRoles(rows, path[1..]);
      assert path[1..] == [path[1]] + path[1..][1..];
    }
  }

  lemma DistinctPathIsShort(rows: seq<Row>, path: seq<string>)
    requires RolePath(rows, path) && Distinct(path)
    ensures |path| <= |rows| + 1
  {
    PathWithinRoles(rows, path);
    var roles := seq(|rows|, i requires 0 <= i < |rows| => RoleOrEmpty(rows[i]));
    forall x | x in path[1..] ensures x in roles {
      var row :| row in rows && RoleOrEmpty(row) == x;
      var i :| 0 <= i < |rows| && rows[i] == row;
      assert roles[i] == x;
    }
    SizeOfSet(path[1..]);
    SizeOfSet(roles);
    SubsetSize(SetOf(path[1..]), SetOf(roles));
  }

  lemma FillMeetsCycle(rows: seq<Row>, there: seq<string>, round: seq<string>, fuel: nat)
    requires RolePath(rows, there) && RolePath(rows, round) && |round| > 1
    requires there[|there| - 1] == round[0] == round[|round| - 1]
    ensures Fill(rows, there[0], fuel).None?
  {
    if Fill(rows, there[0], fuel).Some? {
      FillAlong(rows, there, fuel);
      FillCycle(rows, round, fuel - |there| + 1);
    }
  }

  lemma CutAtRepeat(rows: seq<Row>, path: seq<string>) returns (there: seq<string>, round: seq<string>)
    requires RolePath(rows, path) && !Distinct(path)
    ensures RolePath(rows, there) && RolePath(rows, round) && |round| > 1
    ensures there[0] == path[0] && there[|there| - 1] == round[0] == round[|round| - 1]
  {
    var i, j :| 0 <= i < j < |path| && path[i] == path[j];
    PathSlice(rows, path, 0, i + 1);
    PathSlice(rows, path, i, j + 1);
    there, round := path[0..i + 1], path[i..j + 1];
  }

  /** `fillPerms` carries no visited set: its recursion ends exactly when no path upwards from the
      role meets a role twice. */
  lemma FillTerminatesIffAcyclic(rows: seq<Row>, role: string)
    ensures (exists fuel: nat :: Fill(rows, role, fuel).Some?) <==> AcyclicFrom(rows, role)
    ensures AcyclicFrom(rows, role) ==> Fill(rows, role, |rows| + 1).Some?
  {
    if AcyclicFrom(rows, role) {
      forall path | RolePath(rows, path) && path[0] == role ensures |path| <= |rows| + 1 {
        DistinctPathIsShort(rows, path);
      }
      FillEnough(rows, role, |rows| + 1);
    } else {
      var path :| RolePath(rows, path) && path[0] == role && !Distinct(path);
      var there, round := CutAtRepeat(rows, path);
      forall fuel: nat ensures Fill(rows, role, fuel).None? {
        FillMeetsCycle(rows, there, round, fuel);
      }
    }
  }

  lemma ReachesSelf(rows: seq<Row>, role: string)
    ensures Reaches(rows, role, role)
  {
    assert RolePath(rows, [role]);
  }

  lemma ReachesStep(rows: seq<Row>, a: string, b: string, c: string)
    requires Edge(rows, a, b) && Reaches(rows, b, c)
    ensures Reaches(rows, a, c)
  {
    var path :| RolePath(rows, path) && path[0] == b && path[|path| - 1] == c;
    PathCons(rows, a, path);
    assert ([a] + path)[0] == a && ([a] + path)[|path|] == c;
  }

  lemma {:induction false} ReachesAlong(rows: seq<Row>, path: seq<string>, c: string)
    requires RolePath(rows, path) && Reaches(rows, path[|path| - 1], c)
    ensures Reaches(rows, path[0], c)
    decreases |path|
  {
    if |path| > 1 {
      assert path[1..][|path| - 2] == path[|path| - 1];
      ReachesAlong(rows, path[1..], c);
      ReachesStep(rows, path[0], path[1], c);
    }
  }

  lemma ReachesTransitive(rows: seq<Row>, a: string, b: string, c: string)
    requires Reaches(rows, a, b) && Reaches(rows, b, c)
    ensures Reaches(rows, a, c)
  {
    var path :| RolePath(rows, path) && path[0] == a && path[|path| - 1] == b;
    ReachesAlong(rows, path, c);
  }

  lemma {:induction false} PathSnoc(rows: seq<Row>, path: seq<string>, c: string)
    requires RolePath(rows, path) && Edge(rows, path[|path| - 1], c)
    ensures RolePath(rows, path + [c])
    decreases |path|
  {
    if |path| > 1 {
      PathSnoc(rows, path[1..], c);
      assert (path + [c])[1..] == path[1..] + [c];
    } else {
      assert (path + [c])[1..] == [c] && RolePath(rows, [c]);
    }
  }

  lemma ReachesMore(rows: seq<Row>, a: string, b: string, c: string)
    requires Reaches(rows, a, b) && Edge(rows, b, c)
    ensures Reaches(rows, a, c)
  {
    var path :| RolePath(rows, path) && path[0] == a && path[|path| - 1] == b;
    PathSnoc(rows, path, c);
    assert (path + [c])[0] == a && (path + [c])[|path|] == c;
  }

  lemma ReachesFirst(rows: seq<Row>, a: string, c: string) returns (b: string)
    requires Reaches(rows, a, c) && a != c
    ensures Edge(rows, a, b) && Reaches(rows, b, c)
  {
    var path :| RolePath(rows, path) && path[0] == a && path[|path| - 1] == c;
    b := path[1];
    assert path[1..][0] == b && path[1..][|path| - 2] == c;
  }

  lemma {:induction false} FillOnlyReached(rows: seq<Row>, role: string, fuel: nat, x: string)
    requires Fill(rows, role, fuel).Some? && x in Fill(rows, role, fuel).value
    ensures Reaches(rows, role, x)
    decreases fuel
  {
    var parents := ParentRoles(rows, rows, role);
    if x == role {
      ReachesSelf(rows, role);
    } else {
      var p := FillAllFrom(rows, parents, fuel - 1, x);
      ParentRolesMember(rows, rows, role, p);
      if x == p {
        ReachesSelf(rows, p);
      } else {
        FillOnlyReached(rows, p, fuel - 1, x);
      }
      ReachesStep(rows, role, p, x);
    }
  }

  lemma {:induction false} FillAllReached(rows: seq<Row>, role: string, fuel: nat, x: string)
    requires Fill(rows, role, fuel).Some? && Reaches(rows, role, x)
    ensures x in Fill(rows, role, fuel).value
    decreases fuel
  {
    if x != role {
      var p := ReachesFirst(rows, role, x);
      FillNext(rows, role, p, fuel);
      FillAllReached(rows, p, fuel - 1, x);
    }
  }

  /** The roles pushed are exactly the role itself and those that it reaches upwards. */
  lemma FillIsReach(rows: seq<Row>, role: string, fuel: nat)
    requires Fill(rows, role, fuel).Some?
    ensures forall x :: x in Fill(rows, role, fuel).value <==> Reaches(rows, role, x)
  {
    forall x ensures x in Fill(rows, role, fuel).value <==> Reaches(rows, role, x) {
      if x in Fill(rows, role, fuel).value {
        FillOnlyReached(rows, role, fuel, x);
      }
      if Reaches(rows, role, x) {
        FillAllReached(rows, role, fuel, x);
      }
    }
  }
}
