/** The depth of a route forest and of its routes, in terms of the chains from the top down. */
module RouteDepth {
  import opened RouteForest
  import opened RouteRows

  /** `d` is the length of the longest chain. */
  ghost predicate IsDepth(ts: seq<RouteTree>, d: nat) {
    && (forall path :: Chain(ts, path) ==> |path| <= d)
    && (if ts == [] then d == 0 else exists path :: Chain(ts, path) && |path| == d)
  }

  /** The depth as the store keeps it: a single level counts as two. */
  ghost predicate IsRouteDeep(ts: seq<RouteTree>, routeDeep: nat) {
    exists depth: nat :: IsDepth(ts, depth) && routeDeep == if depth == 1 then 2 else depth
  }

  lemma {:induction false} HeightOfMember(ts: seq<RouteTree>, t: RouteTree)
    requires t in ts
    ensures 1 + KidHeight(t) <= Height(ts)
    decreases ts
  {
    if t != ts[0] {
      HeightOfMember(ts[1..], t);
    }
  }

  lemma {:induction false} ChainIsBounded(ts: seq<RouteTree>, path: seq<RouteTree>)
    requires Chain(ts, path)
    ensures |path| <= Height(ts)
    decreases |path|
  {
    HeightOfMember(ts, path[0]);
    if |path| > 1 {
      ChainIsBounded(Kids(path[0]), path[1..]);
    }
  }

  lemma {:induction false} LongestChain(ts: seq<RouteTree>) returns (path: seq<RouteTree>)
    requires ts != []
    ensures Chain(ts, path) && |path| == Height(ts)
    decreases ts, 0
  {
    assert Height(ts) == if 1 + KidHeight(ts[0]) < Height(ts[1..]) then Height(ts[1..]) else 1 + KidHeight(ts[0]);
    assert KidHeight(ts[0]) == Height(Kids(ts[0])) && Height([]) == 0;
    if Height(ts[1..]) > 1 + KidHeight(ts[0]) {
      path := LongestChain(ts[1..]);
      assert path[0] in ts;
    } else {
      path := [ts[0]];
      if Kids(ts[0]) != [] {
        var below := LongestChain(ts[0].kids);
        path := [ts[0]] + below;
        assert path[1..] == below && path[0] in ts;
      }
    }
  }

  /** The height is the length of the longest chain, and 0 without routes. */
  lemma HeightIsDepth(ts: seq<RouteTree>)
    ensures IsDepth(ts, Height(ts))
  {
    forall path | Chain(ts, path) ensures |path| <= Height(ts) {
      ChainIsBounded(ts, path);
    }
    if ts != [] {
      var path := LongestChain(ts);
    }
  }

  /** The mark of a route is its place on its chain. */
  lemma {:induction false} MarkIsPlace(ts: seq<RouteTree>, path: seq<RouteTree>, floor: nat)
    requires TidyAll(ts) && AllFloorsFrom(ts, floor) && Chain(ts, path)
    ensures path[|path| - 1].route.floor == floor + |path| - 1
    decreases |path|
  {
    var i :| 0 <= i < |ts| && ts[i] == path[0];
    assert FloorsFrom(ts[i], floor);
    if |path| > 1 {
      MarkIsPlace(path[0].kids, path[1..], floor + 1);
    }
  }

  lemma MarksArePlaces(ts: seq<RouteTree>)
    requires TidyAll(ts) && AllFloorsFrom(ts, 1)
    ensures forall path: seq<RouteTree> :: Chain(ts, path) ==> path[|path| - 1].route.floor == |path|
  {
    forall path: seq<RouteTree> | Chain(ts, path) ensures path[|path| - 1].route.floor == |path| {
      MarkIsPlace(ts, path, 1);
    }
  }
}
