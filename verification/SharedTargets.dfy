/** What a deep `extend` does to a target that shares a container between two fields. */
module SharedTargets {
  import opened Basics
  import opened JsHeap
  import opened Extend

  /** The fields `a` and `b` refer to one container, which is unfolded below `a`, and a source with a
      container of that kind at `a` does not define `b`. */
  ghost predicate SharedAt(wt: Layout, s: Tree, a: string, b: string) {
    && wt.ObjAt? && Consistent(wt) && s.Node?
    && a in wt.kids && wt.kids[a].ObjAt? && b in wt.kids && wt.kids[b] == LeafAt(Ref(wt.kids[a].o))
    && a in s.kids && s.kids[a].Node? && s.kids[a].isArray == wt.kids[a].o.isArray && b !in s.kids
  }

  /** Both fields still refer to it after a merge, which has merged the source into it: with `a` the field
      `b` changes as well. */
  lemma SharedFieldFollows(wt: Layout, w: Layout, s: Tree, a: string, b: string)
    requires SharedAt(wt, s, a, b) && w.ObjAt? && Holds(w)
    requires Kept(wt, w, s, {}) && TreeOf(wt).Node? && TreeOf(w) == Merge(TreeOf(wt), s)
    ensures a in w.kids && w.kids[a].ObjAt? && w.kids[a].o == wt.kids[a].o && Holds(w.kids[a])
    ensures a in w.o.fields && b in w.o.fields && w.o.fields[a] == w.o.fields[b] == Ref(wt.kids[a].o)
    ensures TreeOf(wt.kids[a]).Node? && TreeOf(w.kids[a]) == Merge(TreeOf(wt.kids[a]), s.kids[a])
  {
    SharedKids(wt, w, s, a, b);
    SourceKnown(w);
    SharedTree(wt, w, s, a);
  }

  lemma SharedKids(wt: Layout, w: Layout, s: Tree, a: string, b: string)
    requires SharedAt(wt, s, a, b) && w.ObjAt? && Kept(wt, w, s, {})
    ensures a in w.kids && w.kids[a].ObjAt? && w.kids[a].o == wt.kids[a].o && b in w.kids && w.kids[b] == wt.kids[b]
    ensures Consistent(wt.kids[a]) && TreeOf(wt.kids[a]).Node?
    ensures TreeOf(wt.kids[a]).isArray == s.kids[a].isArray
  {
    assert FieldKept(wt.kids[a], w.kids[a], Lookup(s, a));
    assert FieldKept(wt.kids[b], w.kids[b], None);
    assert Consistent(wt.kids[a]);
  }

  lemma SharedTree(wt: Layout, w: Layout, s: Tree, a: string)
    requires wt.ObjAt? && w.ObjAt? && NodeConsistent(wt) && NodeConsistent(w) && s.Node?
    requires a in wt.kids && a in w.kids && a in s.kids && s.kids[a].Node?
    requires TreeOf(wt.kids[a]).Node? && TreeOf(wt.kids[a]).isArray == s.kids[a].isArray
    requires TreeOf(wt).Node? && TreeOf(w) == Merge(TreeOf(wt), s)
    ensures TreeOf(w.kids[a]) == Merge(TreeOf(wt.kids[a]), s.kids[a])
  {
    assert TreeOf(wt).kids[a] == TreeOf(wt.kids[a]) && TreeOf(w).kids[a] == TreeOf(w.kids[a]);
    MergeLookup(TreeOf(wt), s, a);
    MergeFieldOf(Lookup(TreeOf(wt), a), s.kids[a]);
  }

  /** The trees alone would leave `b` as it was: for a shared container their merge is right exactly if it
      changes nothing below `a`. */
  lemma TreesMissSharing(t: Tree, s: Tree, a: string, b: string)
    requires t.Node? && s.Node? && a in t.kids && b in t.kids && t.kids[a] == t.kids[b] && t.kids[a].Node?
    requires a in s.kids && s.kids[a].Node? && s.kids[a].isArray == t.kids[a].isArray && b !in s.kids
    ensures Lookup(Merge(t, s), a) == Some(Merge(t.kids[a], s.kids[a])) && Lookup(Merge(t, s), b) == Some(t.kids[b])
    ensures Lookup(Merge(t, s), a) == Lookup(Merge(t, s), b) <==> Merge(t.kids[a], s.kids[a]) == t.kids[a]
  {
    MergeLookup(t, s, a);
    MergeLookup(t, s, b);
    MergeFieldOf(Lookup(t, a), s.kids[a]);
  }

  function Bare(o: Obj): Layout {
    ObjAt(o, map[], map[o := map[]], Node(o.isArray, map[]))
  }

  /** Describes an object with one field, which `x` describes. */
  lemma SingleLayout(o: Obj, name: string, x: Layout) returns (w: Layout)
    requires o !in Objs(x) && Holds(x) && Unshared(x) && o.fields == map[name := Root(x)]
    ensures w.ObjAt? && w.o == o && w.kids == map[name := x] && w.below == CellsOf(x)[o := map[name := Root(x)]]
    ensures Holds(w) && Unshared(w) && TreeOf(w) == Node(o.isArray, map[name := TreeOf(x)])
  {
    w := ObjAt(o, map[name := x], CellsOf(x)[o := map[name := Root(x)]], Node(o.isArray, map[name := TreeOf(x)]));
  }

  /** Describes an object whose fields `a` and `b` refer to the empty object `x`, unfolded below `a` only. */
  lemma SharedLayout(target: Obj, x: Obj, a: string, b: string) returns (wt: Layout)
    requires a != b && target != x && target.fields == map[a := Ref(x), b := Ref(x)] && x.fields == map[]
    ensures wt.ObjAt? && wt.o == target && wt.kids == map[a := Bare(x), b := LeafAt(Ref(x))]
    ensures Objs(wt) == {target, x} && Holds(wt) && Unshared(wt)
    ensures TreeOf(wt).Node? && TreeOf(wt).kids == map[a := Node(x.isArray, map[]), b := Leaf(Ref(x))]
  {
    var kids := map[a := Bare(x), b := LeafAt(Ref(x))];
    wt := ObjAt(target, kids, map[x := map[], target := target.fields],
                Node(target.isArray, map[a := Node(x.isArray, map[]), b := Leaf(Ref(x))]));
    SharedConsistent(wt, x, a, b);
    assert Roots(kids) == target.fields;
  }

  lemma SharedConsistent(wt: Layout, x: Obj, a: string, b: string)
    requires wt.ObjAt? && a != b && wt.kids == map[a := Bare(x), b := LeafAt(Ref(x))] && wt.o != x
    requires wt.below.Keys == {wt.o, x} && wt.below[x] == map[] && wt.below[wt.o] == map[a := Ref(x), b := Ref(x)]
    requires wt.unfolded == Node(wt.o.isArray, map[a := Node(x.isArray, map[]), b := Leaf(Ref(x))])
    ensures Consistent(wt) && Unshared(wt)
  {
    assert Roots(wt.kids) == map[a := Ref(x), b := Ref(x)];
    assert Trees(wt.kids) == map[a := Node(x.isArray, map[]), b := Leaf(Ref(x))];
    assert Consistent(Bare(x)) && Unshared(Bare(x));
  }

  lemma OneLeaf(w: Layout, name: string, v: Value)
    requires w.ObjAt? && Holds(w) && TreeOf(w).Node? && TreeOf(w).kids == map[name := Leaf(v)]
    ensures w.o.fields == map[name := v]
  {
    SourceKnown(w);
    assert w.kids.Keys == Trees(w.kids).Keys == {name};
    assert TreeOf(w.kids[name]) == Trees(w.kids)[name] == Leaf(v);
    assert Consistent(w.kids[name]);
    assert Roots(w.kids) == map[name := v];
  }

  lemma MergeOneLeaf(p: string, v: Prim)
    requires v != Undefined
    ensures Merge(Node(false, map[]), Node(false, map[p := Leaf(Prim(v))])) == Node(false, map[p := Leaf(Prim(v))])
  {
    var t, s := Node(false, map[]), Node(false, map[p := Leaf(Prim(v))]);
    MergeLookup(t, s, p);
    forall k ensures Lookup(Merge(t, s), k) == Lookup(s, k) { MergeLookup(t, s, k); }
    assert Merge(t, s).kids.Keys == {p};
  }

  lemma SharedEnd(wt: Layout, w: Layout, s: Tree, a: string, b: string, p: string, v: Prim)
    requires SharedAt(wt, s, a, b) && wt.kids.Keys == {a, b} && w.ObjAt? && Holds(w) && v != Undefined
    requires Kept(wt, w, s, {}) && TreeOf(wt).Node? && TreeOf(w) == Merge(TreeOf(wt), s)
    requires TreeOf(wt.kids[a]) == Node(false, map[]) && s.kids == map[a := Node(false, map[p := Leaf(Prim(v))])]
    ensures w.o.fields == map[a := Ref(wt.kids[a].o), b := Ref(wt.kids[a].o)]
    ensures wt.kids[a].o.fields == map[p := Prim(v)]
  {
    SharedFieldFollows(wt, w, s, a, b);
    MergeOneLeaf(p, v);
    OneLeaf(w.kids[a], p, Prim(v));
    SameKeysAfter(wt, w, s, a);
    TwoFields(w.o.fields, a, b, Ref(wt.kids[a].o));
  }

  lemma TwoFields(fields: map<string, Value>, a: string, b: string, v: Value)
    requires fields.Keys == {a, b} && fields[a] == fields[b] == v
    ensures fields == map[a := v, b := v]
  {
  }

  lemma SameKeysAfter(wt: Layout, w: Layout, s: Tree, a: string)
    requires wt.ObjAt? && NodeConsistent(wt) && w.ObjAt? && Holds(w) && s.Node? && s.kids.Keys == {a} && a in wt.kids
    requires TreeOf(w) == Merge(TreeOf(wt), s)
    ensures w.o.fields.Keys == wt.kids.Keys
  {
    SourceKeys(w);
    forall k ensures k in TreeOf(w).kids <==> k in wt.kids {
      MergeLookup(TreeOf(wt), s, k);
    }
  }

  method MergeShared(target: Obj, source: Obj, ghost wt: Layout, ghost ws: Layout, a: string, b: string, p: string, v: Prim)
    requires wt.ObjAt? && wt.o == target && Holds(wt) && Unshared(wt)
    requires ws.ObjAt? && ws.o == source && Holds(ws) && Objs(wt) !! Objs(ws)
    requires Whole(TreeOf(ws)) && TreeOf(wt).Node? && TreeOf(ws).Node? && Covered(TreeOf(wt), TreeOf(ws))
    requires SharedAt(wt, TreeOf(ws), a, b) && wt.kids.Keys == {a, b} && v != Undefined
    requires TreeOf(wt.kids[a]) == Node(false, map[]) && TreeOf(ws).kids == map[a := Node(false, map[p := Leaf(Prim(v))])]
    modifies Objs(wt)
    ensures target.fields == map[a := Ref(wt.kids[a].o), b := Ref(wt.kids[a].o)]
    ensures wt.kids[a].o.fields == map[p := Prim(v)]
  {
    ghost var w := MergeInto(target, source, wt, ws);
    SharedEnd(wt, w, TreeOf(ws), a, b, p, v);
  }

  lemma SharedSource(source: Obj, inner: Obj, a: string, p: string, v: Prim) returns (ws: Layout)
    requires source != inner && !inner.isArray && source.fields == map[a := Ref(inner)] && inner.fields == map[p := Prim(v)]
    ensures ws.ObjAt? && ws.o == source && Holds(ws) && Objs(ws) == {source, inner}
    ensures TreeOf(ws) == Node(source.isArray, map[a := Node(false, map[p := Leaf(Prim(v))])]) && Whole(TreeOf(ws))
  {
    var wi := SingleLayout(inner, p, LeafAt(Prim(v)));
    ws := SingleLayout(source, a, wi);
  }

  lemma SharedCovered(t: Tree, s: Tree, a: string, p: string, v: Prim)
    requires s.Node? && s.kids == map[a := Node(false, map[p := Leaf(Prim(v))])]
    requires t.Node? && a in t.kids && t.kids[a] == Node(false, map[])
    ensures Covered(t, s)
  {
    assert FieldCovered(Lookup(t, a), s.kids[a]);
  }

  /** A target for every pair of field names: extended with a source that defines only the one, it changes
      in the other. */
  method SharedFieldChangesToo(a: string, b: string, p: string, v: Prim) returns (target: Obj, x: Obj)
    requires a != b && v != Undefined
    ensures target.fields == map[a := Ref(x), b := Ref(x)] && x.fields == map[p := Prim(v)]
  {
    ghost var wt;
    target, x, wt := NewTarget(a, b);
    var source;
    ghost var ws;
    source, ws := NewSource(a, p, v);
    SharedCovered(TreeOf(wt), TreeOf(ws), a, p, v);
    MergeShared(target, source, wt, ws, a, b, p, v);
  }

  method NewTarget(a: string, b: string) returns (target: Obj, x: Obj, ghost wt: Layout)
    requires a != b
    ensures wt.ObjAt? && wt.o == target && fresh(Objs(wt)) && Holds(wt) && Unshared(wt) && !x.isArray
    ensures wt.kids == map[a := Bare(x), b := LeafAt(Ref(x))]
    ensures TreeOf(wt).Node? && TreeOf(wt).kids == map[a := Node(x.isArray, map[]), b := Leaf(Ref(x))]
  {
    target := new Obj(false);
    x := new Obj(false);
    target.fields := map[a := Ref(x), b := Ref(x)];
    wt := SharedLayout(target, x, a, b);
  }

  method NewSource(a: string, p: string, v: Prim) returns (source: Obj, ghost ws: Layout)
    ensures ws.ObjAt? && ws.o == source && fresh(Objs(ws)) && Holds(ws)
    ensures TreeOf(ws) == Node(false, map[a := Node(false, map[p := Leaf(Prim(v))])]) && Whole(TreeOf(ws))
  {
    source := new Obj(false);
    var inner := new Obj(false);
    inner.fields := map[p := Prim(v)];
    source.fields := map[a := Ref(inner)];
    ws := SharedSource(source, inner, a, p, v);
  }
}
