/** Laws of the deep merge, and how a deep `extend` into an empty container compares with `deepCopy`. */
module CopyLaws {
  import opened Basics
  import opened JsHeap
  import opened DeepCopy
  import opened Extend

  /** The tree without the fields that hold undefined. */
  function Strip(t: Tree): (r: Tree)
    ensures t.Node? <==> r.Node?
  {
    match t
    case Leaf(_) => t
    case Node(isArray, kids) => Node(isArray, map k | k in kids && kids[k] != UNDEFINED :: Strip(kids[k]))
  }

  predicate NoUndefined(t: Tree) {
    t.Node? ==> forall k :: k in t.kids ==> t.kids[k] != UNDEFINED && NoUndefined(t.kids[k])
  }

  lemma {:induction false} StripIdentity(t: Tree)
    ensures Strip(t) == t <==> NoUndefined(t)
  {
    if t.Node? {
      var stripped := Strip(t).kids;
      if NoUndefined(t) {
        forall k | k in t.kids ensures k in stripped && stripped[k] == t.kids[k] {
          StripIdentity(t.kids[k]);
        }
        assert stripped == t.kids;
      } else {
        var k :| k in t.kids && (t.kids[k] == UNDEFINED || !NoUndefined(t.kids[k]));
        StripIdentity(t.kids[k]);
        assert k in stripped ==> stripped[k] == Strip(t.kids[k]);
      }
    }
  }

  function Empty(isArray: bool): Tree {
    Node(isArray, map[])
  }

  /** Extending an empty container copies everything except undefined fields. */
  lemma {:induction false} MergeIntoEmpty(s: Tree)
    requires s.Node?
    ensures Merge(Empty(s.isArray), s) == Strip(s)
  {
    var e := Empty(s.isArray);
    var merged := MergedFields(e, s);
    forall k | k in s.kids ensures merged[k] == Strip(s.kids[k]) {
      var c := s.kids[k];
      assert merged[k] == MergeField(Lookup(e, k), c);
      MergeFieldOf(None, c);
      if c.Node? {
        MergeIntoEmpty(c);
      }
    }
    assert map[] + Defined(s.kids, merged, s.kids.Keys) == Strip(s).kids;
  }

  lemma SameLookups(t: Tree, s: Tree)
    requires t.Node? && s.Node? && t.isArray == s.isArray
    requires forall k :: Lookup(t, k) == Lookup(s, k)
    ensures t == s
  {
    forall k ensures k in t.kids <==> k in s.kids { assert Lookup(t, k) == Lookup(s, k); }
    forall k | k in t.kids ensures t.kids[k] == s.kids[k] { assert Lookup(t, k) == Lookup(s, k); }
    assert t.kids == s.kids;
  }

  /** Merging the same source again changes nothing. */
  lemma {:induction false} MergeIdempotent(t: Tree, s: Tree)
    requires t.Node? && s.Node?
    ensures Merge(Merge(t, s), s) == Merge(t, s)
    decreases s
  {
    var once, twice := Merge(t, s), Merge(Merge(t, s), s);
    forall k ensures Lookup(twice, k) == Lookup(once, k) {
      MergeLookup(t, s, k);
      MergeLookup(once, s, k);
      if k in s.kids && s.kids[k] != UNDEFINED {
        var c := s.kids[k];
        MergeFieldOf(Lookup(t, k), c);
        MergeFieldOf(Lookup(once, k), c);
        if c.Node? {
          MergeIdempotent(MergeBase(Lookup(t, k), c.isArray), c);
        }
      }
    }
    SameLookups(twice, once);
  }

  function ImageValue(phi: map<Obj, Obj>, v: Value): Value {
    if v.Ref? && v.o in phi then Ref(phi[v.o]) else v
  }

  function ImageFields(phi: map<Obj, Obj>, fields: map<string, Value>): map<string, Value> {
    map k | k in fields :: ImageValue(phi, fields[k])
  }

  ghost function ImageCells(phi: map<Obj, Obj>, below: Cells): Cells
    requires below.Keys <= phi.Keys && Injective(phi)
  {
    map o | o in below :: phi[o] := ImageFields(phi, below[o])
  }

  /** `w` with every object replaced by its copy. */
  ghost function ImageLayout(phi: map<Obj, Obj>, w: Layout): (i: Layout)
    requires Consistent(w) && Objs(w) <= phi.Keys && Injective(phi)
    decreases w
  {
    match w
    case LeafAt(v) => LeafAt(ImageValue(phi, v))
    case ObjAt(o, kids, below, unfolded) =>
      ObjAt(phi[o], map k | k in kids :: assert Contains(below, CellsOf(kids[k])); ImageLayout(phi, kids[k]),
            ImageCells(phi, below), unfolded)
  }

  lemma ImageAtRoot(phi: map<Obj, Obj>, w: Layout)
    requires Consistent(w) && Objs(w) <= phi.Keys && Injective(phi)
    ensures Root(ImageLayout(phi, w)) == ImageValue(phi, Root(w))
    ensures Whole(TreeOf(w)) ==> TreeOf(ImageLayout(phi, w)) == TreeOf(w)
    ensures CellsOf(ImageLayout(phi, w)) == ImageCells(phi, CellsOf(w))
  {
  }

  lemma ImageContains(phi: map<Obj, Obj>, big: Cells, small: Cells)
    requires big.Keys <= phi.Keys && Injective(phi) && Contains(big, small)
    ensures Contains(ImageCells(phi, big), ImageCells(phi, small))
  {
  }

  lemma {:induction false} ImageConsistent(phi: map<Obj, Obj>, w: Layout)
    requires Consistent(w) && Objs(w) <= phi.Keys && Injective(phi)
    requires Whole(TreeOf(w)) && forall o :: o in phi ==> phi[o].isArray == o.isArray
    ensures Consistent(ImageLayout(phi, w))
    decreases w
  {
    if w.ObjAt? {
      forall k | k in w.kids ensures KidImaged(ImageLayout(phi, w), phi, w, k) && Consistent(ImageLayout(phi, w).kids[k]) {
        KidIsWhole(w, k);
        ImageConsistent(phi, w.kids[k]);
        ImageKid(phi, w, k);
      }
      ImageNode(ImageLayout(phi, w), phi, w);
    }
  }

  /** The kid `k` of `i` is the image of that of `w`. */
  ghost predicate KidImaged(i: Layout, phi: map<Obj, Obj>, w: Layout, k: string)
    requires w.ObjAt? && i.ObjAt? && k in w.kids
  {
    && k in i.kids && Contains(i.below, CellsOf(i.kids[k]))
    && Root(i.kids[k]) == ImageValue(phi, Root(w.kids[k])) && TreeOf(i.kids[k]) == TreeOf(w.kids[k])
  }

  lemma ImageNode(i: Layout, phi: map<Obj, Obj>, w: Layout)
    requires w.ObjAt? && i.ObjAt? && NodeConsistent(w) && w.below.Keys <= phi.Keys && Injective(phi)
    requires i.o == phi[w.o] && i.o.isArray == w.o.isArray && i.kids.Keys == w.kids.Keys
    requires i.below == ImageCells(phi, w.below) && i.unfolded == w.unfolded
    requires forall k :: k in w.kids ==> KidImaged(i, phi, w, k)
    ensures NodeConsistent(i)
  {
    assert Trees(i.kids) == Trees(w.kids);
    assert Roots(i.kids) == ImageFields(phi, w.below[w.o]);
    forall k | k in i.kids ensures Contains(i.below, CellsOf(i.kids[k])) {
      assert KidImaged(i, phi, w, k);
    }
  }

  lemma KidIsWhole(w: Layout, k: string)
    requires w.ObjAt? && Consistent(w) && Whole(TreeOf(w)) && k in w.kids
    ensures Consistent(w.kids[k]) && Whole(TreeOf(w.kids[k])) && Contains(w.below, CellsOf(w.kids[k]))
  {
    assert TreeOf(w).kids[k] == TreeOf(w.kids[k]);
  }

  lemma ImageKid(phi: map<Obj, Obj>, w: Layout, k: string)
    requires Consistent(w) && Objs(w) <= phi.Keys && Injective(phi) && w.ObjAt? && k in w.kids
    requires Consistent(w.kids[k]) && Whole(TreeOf(w.kids[k])) && Contains(w.below, CellsOf(w.kids[k]))
    ensures KidImaged(ImageLayout(phi, w), phi, w, k) && ImageLayout(phi, w).kids[k] == ImageLayout(phi, w.kids[k])
  {
    ImageAtRoot(phi, w.kids[k]);
    ImageContains(phi, w.below, CellsOf(w.kids[k]));
  }

  /** The copy of an acyclic value unfolds to the same tree, undefined fields included; a deep
      `extend` into an empty container gives that tree exactly when no field is undefined. */
  lemma ExtendAgreesWithDeepCopy(phi: map<Obj, Obj>, v: Value, r: Value, w: Layout) returns (wr: Layout)
    requires Isomorphic(phi, v, r)
    requires w.ObjAt? && Holds(w) && Root(w) == v && Objs(w) <= phi.Keys && Whole(TreeOf(w))
    ensures Holds(wr) && Root(wr) == r && TreeOf(wr) == TreeOf(w) && TreeOf(w).Node?
    ensures Merge(Empty(TreeOf(w).isArray), TreeOf(w)) == TreeOf(wr) <==> NoUndefined(TreeOf(w))
  {
    wr := ImageLayout(phi, w);
    ImageConsistent(phi, w);
    ImageAtRoot(phi, w);
    forall c | c in wr.below ensures c.fields == wr.below[c] {
      var o :| o in w.below && phi[o] == c;
      assert w.below[o] == o.fields;
      forall k | k in o.fields ensures c.fields[k] == ImageValue(phi, o.fields[k]) {
        assert MapsTo(phi, o.fields[k], phi[o].fields[k]);
      }
      assert c.fields == ImageFields(phi, o.fields);
    }
    MergeIntoEmpty(TreeOf(w));
    StripIdentity(TreeOf(w));
  }

  /** Fields always lead to objects of smaller rank: the values within `S` are acyclic. */
  ghost predicate Acyclic(S: set<Obj>, rank: map<Obj, nat>)
    reads S
  {
    && rank.Keys == S
    && forall o, k :: o in S && k in o.fields && o.fields[k].Ref? ==>
         o.fields[k].o in S && rank[o.fields[k].o] < rank[o]
  }

  lemma ReachableKid(o: Obj, k: string, S: set<Obj>)
    requires Closed(S) && o in S && k in o.fields
    ensures Reachable(o.fields[k], S) <= Reachable(Ref(o), S)
  {
    forall x | x in Reachable(o.fields[k], S) ensures x in Reachable(Ref(o), S) {
      var path :| Follow(o.fields[k], path, S) == Some(Ref(x));
      FollowCons(o, k, path, S);
    }
  }

  lemma FollowCons(o: Obj, k: string, path: seq<string>, S: set<Obj>)
    requires Closed(S) && o in S && k in o.fields
    ensures Follow(Ref(o), [k] + path, S) == Follow(o.fields[k], path, S)
  {
    assert ([k] + path)[1..] == path;
  }

  /** Acyclic values have a complete layout, of exactly the objects that can be reached. */
  ghost function Unroll(v: Value, S: set<Obj>, rank: map<Obj, nat>): (w: Layout)
    requires Acyclic(S, rank) && InGraph(v, S)
    reads S
    ensures Root(w) == v && Objs(w) == Reachable(v, S) && CellsHold(CellsOf(w)) && (v.Ref? ==> w.ObjAt?)
    decreases if v.Ref? then rank[v.o] + 1 else 0
  {
    match v
    case Prim(_) =>
      assert Reachable(v, S) == {} by {
        assert forall path :: Follow(v, path, S) != None ==> Follow(v, path, S) == Some(v);
      }
      LeafAt(v)
    case Ref(o) =>
      var kids := map k | k in o.fields :: Unroll(o.fields[k], S, rank);
      ObjAt(o, kids, map x | x in Reachable(v, S) :: x.fields, Node(o.isArray, Trees(kids)))
  }

  lemma {:induction false} AcyclicHasLayout(v: Value, S: set<Obj>, rank: map<Obj, nat>)
    requires Acyclic(S, rank) && InGraph(v, S)
    ensures Holds(Unroll(v, S, rank)) && Whole(TreeOf(Unroll(v, S, rank)))
    decreases if v.Ref? then rank[v.o] + 1 else 0
  {
    if v.Ref? {
      var w := Unroll(v, S, rank);
      forall k | k in w.kids
        ensures Consistent(w.kids[k]) && Contains(w.below, CellsOf(w.kids[k])) && Whole(TreeOf(w.kids[k]))
      {
        AcyclicHasLayout(v.o.fields[k], S, rank);
        ReachableKid(v.o, k, S);
      }
      assert Roots(w.kids) == v.o.fields;
      assert Follow(v, [], S) == Some(v);
    }
  }

  /** Different paths lead to different objects: the value is a tree. */
  ghost predicate OnePathEach(v: Value, S: set<Obj>)
    requires Closed(S) && InGraph(v, S)
    reads S
  {
    forall p, q :: Follow(v, p, S).Some? && Follow(v, p, S).value.Ref? && Follow(v, p, S) == Follow(v, q, S) ==> p == q
  }

  lemma OnePathBelow(o: Obj, k: string, S: set<Obj>)
    requires Closed(S) && o in S && k in o.fields && OnePathEach(Ref(o), S)
    ensures OnePathEach(o.fields[k], S) && o !in Reachable(o.fields[k], S)
  {
    var v := o.fields[k];
    forall p, q | Follow(v, p, S).Some? && Follow(v, p, S).value.Ref? && Follow(v, p, S) == Follow(v, q, S)
      ensures p == q
    {
      FollowCons(o, k, p, S);
      FollowCons(o, k, q, S);
      assert ([k] + p)[1..] == p && ([k] + q)[1..] == q;
    }
    assert Follow(Ref(o), [], S) == Some(Ref(o));
    forall p ensures Follow(v, p, S) != Some(Ref(o)) {
      FollowCons(o, k, p, S);
      assert |[k] + p| > 0;
    }
  }

  lemma KidsApart(o: Obj, j: string, k: string, S: set<Obj>)
    requires Closed(S) && o in S && j in o.fields && k in o.fields && j != k && OnePathEach(Ref(o), S)
    ensures Reachable(o.fields[j], S) !! Reachable(o.fields[k], S)
  {
    forall x | x in Reachable(o.fields[j], S) ensures x !in Reachable(o.fields[k], S) {
      var p :| Follow(o.fields[j], p, S) == Some(Ref(x));
      FollowCons(o, j, p, S);
      forall q ensures Follow(o.fields[k], q, S) != Some(Ref(x)) {
        FollowCons(o, k, q, S);
        assert ([j] + p)[0] != ([k] + q)[0];
      }
    }
  }

  /** The layout of a value that is a tree unfolds no object twice: such a value is a target, or a part of
      one, that any source can be merged into. */
  lemma {:induction false} TreeHasUnsharedLayout(v: Value, S: set<Obj>, rank: map<Obj, nat>)
    requires Acyclic(S, rank) && InGraph(v, S) && OnePathEach(v, S)
    ensures Unshared(Unroll(v, S, rank))
    decreases if v.Ref? then rank[v.o] + 1 else 0
  {
    if v.Ref? {
      var w := Unroll(v, S, rank);
      forall k | k in w.kids ensures Unshared(w.kids[k]) && w.o !in Objs(w.kids[k]) {
        OnePathBelow(v.o, k, S);
        TreeHasUnsharedLayout(v.o.fields[k], S, rank);
      }
      forall j, k | j in w.kids && k in w.kids && j != k ensures Objs(w.kids[j]) !! Objs(w.kids[k]) {
        KidsApart(v.o, j, k, S);
      }
    }
  }

  /** A complete tree covers every source. */
  lemma {:induction false} WholeIsCovered(src: Option<Tree>, c: Tree)
    requires src.Some? ==> Whole(src.value)
    ensures FieldCovered(src, c)
    decreases c
  {
    if c.Node? && src.Some? && src.value.Node? {
      forall k | k in c.kids ensures FieldCovered(if k in src.value.kids then Some(src.value.kids[k]) else None, c.kids[k]) {
        WholeIsCovered(if k in src.value.kids then Some(src.value.kids[k]) else None, c.kids[k]);
      }
    }
  }
}
