/** `util.extend`: merges sources into a target in place, deeply or shallowly. */
module Extend {
  import opened Basics
  import opened JsHeap

  function Lookup(t: Tree, name: string): Option<Tree>
    requires t.Node?
  {
    if name in t.kids then Some(t.kids[name]) else None
  }

  /** The pure counterpart of one deep merge, for the keys in `D` only: undefined fields are
      skipped, containers of the same kind are merged, everything else is overwritten. */
  function MergeOn(t: Tree, s: Tree, D: set<string>): (m: Tree)
    requires t.Node? && s.Node?
    ensures m.Node? && m.isArray == t.isArray
    decreases s, 1
  {
    Node(t.isArray, t.kids + Defined(s.kids, MergedFields(t, s), D))
  }

  function MergedFields(t: Tree, s: Tree): (m: map<string, Tree>)
    requires t.Node? && s.Node?
    ensures m.Keys == s.kids.Keys
    decreases s, 0
  {
    map k | k in s.kids :: MergeField(Lookup(t, k), s.kids[k])
  }

  /** The entries of `merged` for the keys in `D` whose source field is not undefined. */
  function Defined(source: map<string, Tree>, merged: map<string, Tree>, D: set<string>): map<string, Tree>
    requires merged.Keys == source.Keys
  {
    map k | k in merged && k in D && source[k] != UNDEFINED :: merged[k]
  }

  function MergeField(src: Option<Tree>, c: Tree): Tree
    decreases c, 2
  {
    match c
    case Leaf(_) => c
    case Node(isArray, kids) => MergeOn(MergeBase(src, isArray), c, kids.Keys)
  }

  /** The container that a container of a source is merged into. */
  function MergeBase(src: Option<Tree>, isArray: bool): (base: Tree)
    ensures base.Node? && base.isArray == isArray
  {
    if src.Some? && src.value.Node? && src.value.isArray == isArray then src.value else Node(isArray, map[])
  }

  function Merge(t: Tree, s: Tree): (m: Tree)
    requires t.Node? && s.Node?
    ensures m.Node?
  {
    MergeOn(t, s, s.kids.Keys)
  }

  lemma MergeFieldOf(src: Option<Tree>, c: Tree)
    ensures c.Leaf? ==> MergeField(src, c) == c
    ensures c.Node? ==> MergeField(src, c) == Merge(MergeBase(src, c.isArray), c)
  {
  }

  /** A value that is no container replaces what is there; a container is merged into one of its kind that
      is there, and otherwise into an empty one. */
  lemma MergeFieldExactly(src: Option<Tree>, c: Tree)
    ensures c.Leaf? ==> MergeField(src, c) == c
    ensures c.Node? && src.Some? && src.value.Node? && src.value.isArray == c.isArray ==> MergeField(src, c) == Merge(src.value, c)
    ensures c.Node? && !(src.Some? && src.value.Node? && src.value.isArray == c.isArray) ==>
              MergeField(src, c) == Merge(Node(c.isArray, map[]), c)
  {
    MergeFieldOf(src, c);
  }

  lemma MergeLookup(t: Tree, s: Tree, k: string)
    requires t.Node? && s.Node?
    ensures Lookup(Merge(t, s), k) ==
            if k in s.kids && s.kids[k] != Leaf(Prim(Undefined)) then Some(MergeField(Lookup(t, k), s.kids[k]))
            else Lookup(t, k)
  {
    var merged := MergedFields(t, s);
    assert k in s.kids ==> merged[k] == MergeField(Lookup(t, k), s.kids[k]);
  }

  /** The effect of one turn of the loop over the keys of a source. */
  function WithField(t: Tree, name: string, c: Tree): (m: Tree)
    requires t.Node?
    ensures m.Node?
  {
    if c == UNDEFINED then t
    else Node(t.isArray, t.kids[name := MergeField(Lookup(t, name), c)])
  }

  lemma MergeOnStep(t: Tree, s: Tree, D: set<string>, name: string)
    requires t.Node? && s.Node? && name in s.kids && name !in D
    ensures WithField(MergeOn(t, s, D), name, s.kids[name]) == MergeOn(t, s, D + {name})
  {
    var before, merged := MergeOn(t, s, D), MergedFields(t, s);
    assert Lookup(before, name) == Lookup(t, name);
    assert merged[name] == MergeField(Lookup(t, name), s.kids[name]);
    DefinedStep(t.kids, s.kids, merged, D, name);
  }

  lemma DefinedStep(base: map<string, Tree>, source: map<string, Tree>, merged: map<string, Tree>,
                    D: set<string>, name: string)
    requires merged.Keys == source.Keys && name in source
    ensures base + Defined(source, merged, D + {name}) ==
            if source[name] == UNDEFINED then base + Defined(source, merged, D)
            else (base + Defined(source, merged, D))[name := merged[name]]
  {
  }

  lemma MergeStart(t: Tree, s: Tree)
    requires t.Node? && s.Node?
    ensures MergeOn(t, s, s.kids.Keys - s.kids.Keys) == t
  {
    assert s.kids.Keys - s.kids.Keys == {};
    assert t.kids + Defined(s.kids, MergedFields(t, s), {}) == t.kids;
  }

  lemma DoneGrows(all: set<string>, todo: set<string>, name: string)
    requires name in todo && todo <= all
    ensures all - todo + {name} == all - (todo - {name})
  {
  }

  lemma MergeStep(t: Tree, s: Tree, todo: set<string>, name: string)
    requires t.Node? && s.Node? && name in todo && todo <= s.kids.Keys
    ensures WithField(MergeOn(t, s, s.kids.Keys - todo), name, s.kids[name]) ==
            MergeOn(t, s, s.kids.Keys - (todo - {name}))
  {
    DoneGrows(s.kids.Keys, todo, name);
    MergeOnStep(t, s, s.kids.Keys - todo, name);
  }

  function SetKid(w: Layout, name: string, x: Layout): Layout
    requires w.ObjAt?
  {
    var kids := w.kids[name := x];
    ObjAt(w.o, kids, w.below + CellsOf(x) + map[w.o := Roots(kids)], Node(w.o.isArray, Trees(kids)))
  }

  lemma SetKidNode(w: Layout, name: string, x: Layout)
    requires w.ObjAt? && NodeConsistent(w) && NodeUnshared(w)
    requires w.o !in Objs(x) && forall k :: k in w.kids && k != name ==> Objs(w.kids[k]) !! Objs(x)
    ensures NodeConsistent(SetKid(w, name, x))
  {
    var w' := SetKid(w, name, x);
    forall k | k in w'.kids ensures Contains(w'.below, CellsOf(w'.kids[k])) {
      if k != name {
        assert w'.kids[k] == w.kids[k] && Contains(w.below, CellsOf(w.kids[k]));
      }
    }
  }

  lemma SetKidTree(w: Layout, name: string, x: Layout)
    requires w.ObjAt? && TreeOf(w) == Node(w.o.isArray, Trees(w.kids))
    ensures TreeOf(SetKid(w, name, x)) == Node(w.o.isArray, TreeOf(w).kids[name := TreeOf(x)])
  {
    assert Trees(w.kids[name := x]) == Trees(w.kids)[name := TreeOf(x)];
  }

  lemma SetKidSeparate(w: Layout, name: string, x: Layout)
    requires w.ObjAt? && NodeUnshared(w)
    requires w.o !in Objs(x) && forall k :: k in w.kids && k != name ==> Objs(w.kids[k]) !! Objs(x)
    ensures NodeUnshared(SetKid(w, name, x))
  {
    var kids := w.kids[name := x];
    forall j, k | j in kids && k in kids && j != k ensures Objs(kids[j]) !! Objs(kids[k]) {
      assert j != name ==> kids[j] == w.kids[j];
      assert k != name ==> kids[k] == w.kids[k];
    }
  }

  lemma SetKidConsistent(w: Layout, name: string, x: Layout)
    requires w.ObjAt? && Consistent(w) && Unshared(w) && Consistent(x) && Unshared(x)
    requires w.o !in Objs(x) && forall k :: k in w.kids && k != name ==> Objs(w.kids[k]) !! Objs(x)
    ensures Consistent(SetKid(w, name, x)) && Unshared(SetKid(w, name, x))
  {
    SetKidNode(w, name, x);
    SetKidSeparate(w, name, x);
    var kids := SetKid(w, name, x).kids;
    forall k | k in kids ensures Consistent(kids[k]) && Unshared(kids[k]) {
      assert k != name ==> kids[k] == w.kids[k];
    }
  }

  /** The heap after `name` was set to `Root(x)` in the root of `w`, and only `x` changed besides. */
  lemma FieldSet(w: Layout, name: string, x: Layout)
    requires w.ObjAt? && Consistent(w) && Unshared(w) && Holds(x) && Unshared(x)
    requires w.o !in Objs(x) && forall k :: k in w.kids && k != name ==> Objs(w.kids[k]) !! Objs(x)
    requires w.o.fields == w.below[w.o][name := Root(x)]
    requires forall o :: o in w.below && o != w.o && o !in Objs(x) ==> o.fields == w.below[o]
    ensures Holds(SetKid(w, name, x)) && Unshared(SetKid(w, name, x))
    ensures Objs(SetKid(w, name, x)) == Objs(w) + Objs(x)
    ensures TreeOf(SetKid(w, name, x)) == Node(w.o.isArray, TreeOf(w).kids[name := TreeOf(x)])
  {
    FieldSetCells(w, name, x);
    SetKidTree(w, name, x);
    SetKidConsistent(w, name, x);
  }

  lemma FieldSetCells(w: Layout, name: string, x: Layout)
    requires w.ObjAt? && w.o in w.below && w.below[w.o] == Roots(w.kids) && w.o !in Objs(x) && CellsHold(CellsOf(x))
    requires w.o.fields == w.below[w.o][name := Root(x)]
    requires forall o :: o in w.below && o != w.o && o !in Objs(x) ==> o.fields == w.below[o]
    ensures CellsHold(CellsOf(SetKid(w, name, x))) && Objs(SetKid(w, name, x)) == Objs(w) + Objs(x)
  {
    assert Roots(w.kids[name := x]) == Roots(w.kids)[name := Root(x)];
  }

  /** What is known of one field of an unshared container. */
  lemma KidKnown(w: Layout, name: string)
    requires w.ObjAt? && Holds(w) && Unshared(w)
    ensures w.o in Objs(w) && w.o.fields == w.below[w.o] && w.below[w.o] == Roots(w.kids)
    ensures TreeOf(w) == Node(w.o.isArray, Trees(w.kids))
    ensures name in w.kids ==>
              && Holds(w.kids[name]) && Unshared(w.kids[name]) && w.o !in Objs(w.kids[name])
              && Objs(w.kids[name]) <= Objs(w) && KindKept(w.kids[name])
    ensures forall k :: k in w.kids && k != name ==>
              Objs(w.kids[k]) <= Objs(w) && (name in w.kids ==> Objs(w.kids[k]) !! Objs(w.kids[name]))
  {
    forall k | k in w.kids ensures Contains(w.below, CellsOf(w.kids[k])) && Objs(w.kids[k]) <= Objs(w) {}
  }

  ghost predicate KindKept(w: Layout) {
    if w.LeafAt? then TreeOf(w) == Leaf(Root(w)) else TreeOf(w).Node? && TreeOf(w).isArray == w.o.isArray
  }

  lemma SourceKnown(w: Layout)
    requires w.ObjAt? && Holds(w)
    ensures w.o in Objs(w) && w.o.fields == Roots(w.kids) && TreeOf(w) == Node(w.o.isArray, Trees(w.kids))
    ensures forall k :: k in w.kids ==> Holds(w.kids[k]) && Objs(w.kids[k]) <= Objs(w)
  {
    assert w.o.fields == w.below[w.o];
    forall k | k in w.kids ensures Holds(w.kids[k]) && Objs(w.kids[k]) <= Objs(w) {
      assert Contains(w.below, CellsOf(w.kids[k]));
    }
  }

  /** What a merge leaves of one field of the target: one that the source does not define is untouched, and
      a container that meets a container of its kind is kept and merged in place. */
  ghost predicate FieldKept(before: Layout, after: Layout, c: Option<Tree>)
    decreases before
  {
    if c.None? || c.value == UNDEFINED then after == before
    else c.value.Node? && before.ObjAt? && before.o.isArray == c.value.isArray ==>
      after.ObjAt? && after.o == before.o && forall k :: k in before.kids ==>
        k in after.kids && FieldKept(before.kids[k], after.kids[k], Lookup(c.value, k))
  }

  /** The same for all fields of the target, where the fields `todo` of the source are still to come. */
  ghost predicate Kept(before: Layout, after: Layout, s: Tree, todo: set<string>)
    requires before.ObjAt? && after.ObjAt? && s.Node?
  {
    && after.o == before.o
    && forall k :: k in before.kids ==>
         k in after.kids && FieldKept(before.kids[k], after.kids[k], if k in todo then None else Lookup(s, k))
  }

  /** Only the field `name` has changed, as a merge with `c` changes it. */
  ghost predicate OnlyField(before: Layout, after: Layout, name: string, c: Tree)
    requires before.ObjAt? && after.ObjAt?
  {
    if c == UNDEFINED then after == before
    else
      && after.o == before.o && name in after.kids
      && (forall k :: k in before.kids && k != name ==> k in after.kids && after.kids[k] == before.kids[k])
      && (name in before.kids ==> FieldKept(before.kids[name], after.kids[name], Some(c)))
  }

  lemma KeptStep(wt: Layout, w: Layout, w': Layout, s: Tree, todo: set<string>, name: string)
    requires wt.ObjAt? && w.ObjAt? && w'.ObjAt? && s.Node? && name in todo && name in s.kids
    requires Kept(wt, w, s, todo) && OnlyField(w, w', name, s.kids[name])
    ensures Kept(wt, w', s, todo - {name})
  {
    forall k | k in wt.kids
      ensures k in w'.kids && FieldKept(wt.kids[k], w'.kids[k], if k in todo - {name} then None else Lookup(s, k))
    {
      assert FieldKept(wt.kids[k], w.kids[k], if k in todo then None else Lookup(s, k));
    }
  }

  lemma KeptField(before: Layout, after: Layout, c: Tree)
    requires before.ObjAt? && after.ObjAt? && c.Node? && Kept(before, after, c, {})
    ensures FieldKept(before, after, Some(c))
  {
    forall k | k in before.kids ensures k in after.kids && FieldKept(before.kids[k], after.kids[k], Lookup(c, k)) {
      assert FieldKept(before.kids[k], after.kids[k], if k in {} then None else Lookup(c, k));
    }
  }

  lemma OnlyFieldSet(w: Layout, name: string, before: Layout, after: Layout, c: Tree)
    requires w.ObjAt? && before.ObjAt? && after.ObjAt? && c.Node? && Kept(before, after, c, {})
    requires name in w.kids && w.kids[name].ObjAt? && w.kids[name].o.isArray == c.isArray ==> before == w.kids[name]
    ensures OnlyField(w, SetKid(w, name, after), name, c)
  {
    KeptField(before, after, c);
  }

  lemma OnlyFieldLeaf(w: Layout, name: string, leaf: Layout)
    requires w.ObjAt? && leaf.LeafAt? && leaf.v != Prim(Undefined)
    ensures OnlyField(w, SetKid(w, name, leaf), name, TreeOf(leaf))
    ensures WithField(Node(w.o.isArray, Trees(w.kids)), name, TreeOf(leaf)) ==
            Node(w.o.isArray, Trees(w.kids)[name := TreeOf(leaf)])
  {
  }

  /** The tree `src` unfolds every container that a merge with `c` enters. */
  predicate FieldCovered(src: Option<Tree>, c: Tree)
    decreases c
  {
    c.Node? && src.Some? ==>
      match src.value
      case Leaf(v) => v.Ref? ==> v.o.isArray != c.isArray
      case Node(isArray, kids) =>
        isArray == c.isArray ==>
          forall k :: k in c.kids ==> FieldCovered(if k in kids then Some(kids[k]) else None, c.kids[k])
  }

  predicate Covered(t: Tree, s: Tree)
    requires t.Node? && s.Node?
  {
    forall k :: k in s.kids ==> FieldCovered(Lookup(t, k), s.kids[k])
  }

  lemma CoveredBase(src: Option<Tree>, c: Tree)
    requires c.Node? && FieldCovered(src, c)
    ensures Covered(MergeBase(src, c.isArray), c)
  {
  }

  /** A merge with one source leaves unfolded what a merge with another one enters. */
  lemma {:induction false} CoveredAfter(t: Tree, s: Tree, later: Tree)
    requires t.Node? && s.Node? && later.Node? && Whole(s)
    requires Covered(t, s) && Covered(t, later)
    ensures Covered(Merge(t, s), later)
    decreases s
  {
    forall k | k in later.kids ensures FieldCovered(Lookup(Merge(t, s), k), later.kids[k]) {
      MergeLookup(t, s, k);
      if k in s.kids && s.kids[k].Node? && later.kids[k].Node? {
        var c, d := s.kids[k], later.kids[k];
        MergeFieldOf(Lookup(t, k), c);
        if c.isArray == d.isArray {
          CoveredBase(Lookup(t, k), c);
          CoveredBase(Lookup(t, k), d);
          CoveredAfter(MergeBase(Lookup(t, k), c.isArray), c, d);
        }
      }
    }
  }

  lemma LookupOutside(t: Tree, s: Tree, D: set<string>, name: string)
    requires t.Node? && s.Node? && name !in D
    ensures Lookup(MergeOn(t, s, D), name) == Lookup(t, name)
  {
  }

  /** The container that is already at `target[name]` if it is of the wanted kind, or a new one. */
  method CloneFor(target: Obj, name: string, isArray: bool, ghost w: Layout) returns (clone: Obj, ghost wk: Layout)
    requires w.ObjAt? && w.o == target && Holds(w) && Unshared(w)
    requires name in w.kids && w.kids[name].LeafAt? && w.kids[name].v.Ref? ==> w.kids[name].v.o.isArray != isArray
    ensures wk.ObjAt? && wk.o == clone && Holds(wk) && Unshared(wk)
    ensures target !in Objs(wk) && fresh(Objs(wk) - Objs(w))
    ensures forall k :: k in w.kids && k != name ==> Objs(w.kids[k]) !! Objs(wk)
    ensures TreeOf(wk) == MergeBase(Lookup(TreeOf(w), name), isArray)
    ensures if name in w.kids && w.kids[name].ObjAt? && w.kids[name].o.isArray == isArray
            then wk == w.kids[name] else fresh(clone)
  {
    KidKnown(w, name);
    var src := if name in target.fields then Some(target.fields[name]) else None;
    if src.Some? && src.value.Ref? && src.value.o.isArray == isArray {
      clone, wk := src.value.o, w.kids[name];
    } else {
      clone := new Obj(isArray);
      wk := ObjAt(clone, map[], map[clone := map[]], Node(clone.isArray, map[]));
    }
  }

  /** Merges a container of a source into the one at hand or a new one; the target itself does not change. */
  method MergeClone(target: Obj, name: string, copy: Obj, ghost w: Layout, ghost wc: Layout)
    returns (clone: Obj, ghost wk: Layout, ghost x: Layout)
    requires w.ObjAt? && w.o == target && Holds(w) && Unshared(w)
    requires wc.ObjAt? && wc.o == copy && Holds(wc) && Objs(w) !! Objs(wc)
    requires Whole(TreeOf(wc)) && TreeOf(w).Node? && FieldCovered(Lookup(TreeOf(w), name), TreeOf(wc))
    modifies Objs(w) - {target}
    ensures x.ObjAt? && x.o == clone && Holds(x) && Unshared(x)
    ensures target !in Objs(x) && fresh(Objs(x) - Objs(w))
    ensures forall k :: k in w.kids && k != name ==> Objs(w.kids[k]) !! Objs(x)
    ensures forall o :: o in w.below && o !in Objs(x) ==> o.fields == w.below[o]
    ensures wk.ObjAt? && Kept(wk, x, TreeOf(wc), {})
    ensures name in w.kids && w.kids[name].ObjAt? && w.kids[name].o.isArray == copy.isArray ==> wk == w.kids[name]
    ensures TreeOf(wk) == MergeBase(Lookup(TreeOf(w), name), copy.isArray) && TreeOf(x) == Merge(TreeOf(wk), TreeOf(wc))
    ensures TreeOf(wc).isArray == copy.isArray
    decreases wc, 2
  {
    KidKnown(w, name);
    clone, wk := CloneFor(target, name, copy.isArray, w);
    CoveredBase(Lookup(TreeOf(w), name), TreeOf(wc));
    x := MergeInto(clone, copy, wk, wc);
  }

  /** Loop body, when the field of the source is a container. */
  method MergeContainerInto(target: Obj, name: string, copy: Obj, ghost w: Layout, ghost wc: Layout)
    returns (ghost w': Layout)
    requires w.ObjAt? && w.o == target && Holds(w) && Unshared(w)
    requires wc.ObjAt? && wc.o == copy && Holds(wc) && Objs(w) !! Objs(wc)
    requires Whole(TreeOf(wc)) && TreeOf(w).Node? && FieldCovered(Lookup(TreeOf(w), name), TreeOf(wc))
    modifies Objs(w)
    ensures w'.ObjAt? && w'.o == target && Holds(w') && Unshared(w')
    ensures Objs(w) <= Objs(w') && fresh(Objs(w') - Objs(w))
    ensures TreeOf(w') == WithField(TreeOf(w), name, TreeOf(wc))
    ensures OnlyField(w, w', name, TreeOf(wc))
    decreases wc, 3
  {
    var clone, wk, x := MergeClone(target, name, copy, w, wc);
    target.fields := target.fields[name := Ref(clone)];
    ContainerSet(w, name, wk, x, TreeOf(wc));
    w' := SetKid(w, name, x);
  }

  /** The heap after the container at `name`, described by `x`, was merged into and stored. */
  lemma ContainerSet(w: Layout, name: string, before: Layout, x: Layout, c: Tree)
    requires w.ObjAt? && Consistent(w) && Unshared(w) && Holds(x) && Unshared(x)
    requires w.o !in Objs(x) && forall k :: k in w.kids && k != name ==> Objs(w.kids[k]) !! Objs(x)
    requires w.o.fields == w.below[w.o][name := Root(x)]
    requires forall o :: o in w.below && o != w.o && o !in Objs(x) ==> o.fields == w.below[o]
    requires before.ObjAt? && x.ObjAt? && c.Node? && Kept(before, x, c, {})
    requires name in w.kids && w.kids[name].ObjAt? && w.kids[name].o.isArray == c.isArray ==> before == w.kids[name]
    requires TreeOf(before) == MergeBase(Lookup(TreeOf(w), name), c.isArray) && TreeOf(x) == Merge(TreeOf(before), c)
    ensures Holds(SetKid(w, name, x)) && Unshared(SetKid(w, name, x))
    ensures Objs(SetKid(w, name, x)) == Objs(w) + Objs(x)
    ensures TreeOf(SetKid(w, name, x)) == WithField(TreeOf(w), name, c)
    ensures OnlyField(w, SetKid(w, name, x), name, c)
  {
    FieldSet(w, name, x);
    WithFieldNode(TreeOf(w), name, c);
    OnlyFieldSet(w, name, before, x, c);
  }

  lemma WithFieldNode(t: Tree, name: string, c: Tree)
    requires t.Node? && c.Node?
    ensures WithField(t, name, c) ==
            Node(t.isArray, t.kids[name := Merge(MergeBase(Lookup(t, name), c.isArray), c)])
  {
  }

  /** One more key of the source has been merged. */
  lemma FieldMerged(wt: Layout, before: Layout, w: Layout, s: Tree, todo: set<string>, name: string)
    requires wt.ObjAt? && before.ObjAt? && w.ObjAt? && TreeOf(wt).Node? && s.Node?
    requires name in todo && todo <= s.kids.Keys
    requires TreeOf(before) == MergeOn(TreeOf(wt), s, s.kids.Keys - todo) && Kept(wt, before, s, todo)
    requires TreeOf(w) == WithField(TreeOf(before), name, s.kids[name]) && OnlyField(before, w, name, s.kids[name])
    ensures TreeOf(w) == MergeOn(TreeOf(wt), s, s.kids.Keys - (todo - {name})) && Kept(wt, w, s, todo - {name})
  {
    KeptStep(wt, before, w, s, todo, name);
    MergeStep(TreeOf(wt), s, todo, name);
  }

  /** The heap after the leaf `leaf` was stored at `name`. */
  lemma LeafSet(w: Layout, name: string, leaf: Layout)
    requires w.ObjAt? && Consistent(w) && Unshared(w) && leaf.LeafAt? && leaf.v != Prim(Undefined)
    requires w.o.fields == w.below[w.o][name := leaf.v]
    requires forall o :: o in w.below && o != w.o ==> o.fields == w.below[o]
    ensures Holds(SetKid(w, name, leaf)) && Unshared(SetKid(w, name, leaf))
    ensures Objs(SetKid(w, name, leaf)) == Objs(w)
    ensures TreeOf(SetKid(w, name, leaf)) == WithField(TreeOf(w), name, Leaf(leaf.v))
    ensures OnlyField(w, SetKid(w, name, leaf), name, Leaf(leaf.v))
  {
    FieldSet(w, name, leaf);
    OnlyFieldLeaf(w, name, leaf);
  }

  /** Merges the value `copy` of a source into `target[name]`. */
  method MergeValueInto(target: Obj, name: string, copy: Value, ghost w: Layout, ghost wc: Layout)
    returns (ghost w': Layout)
    requires w.ObjAt? && w.o == target && Holds(w) && Unshared(w)
    requires Root(wc) == copy && Holds(wc) && Objs(w) !! Objs(wc)
    requires Whole(TreeOf(wc)) && TreeOf(w).Node? && FieldCovered(Lookup(TreeOf(w), name), TreeOf(wc))
    modifies Objs(w)
    ensures w'.ObjAt? && w'.o == target && Holds(w') && Unshared(w')
    ensures Objs(w) <= Objs(w') && fresh(Objs(w') - Objs(w))
    ensures TreeOf(w') == WithField(TreeOf(w), name, TreeOf(wc))
    ensures OnlyField(w, w', name, TreeOf(wc))
    decreases wc, 4
  {
    w' := w;
    if copy.Ref? {
      w' := MergeContainerInto(target, name, copy.o, w, wc);
    } else if copy != Prim(Undefined) {
      KidKnown(w, name);
      target.fields := target.fields[name := copy];
      LeafSet(w, name, wc);
      w' := SetKid(w, name, wc);
    }
  }

  /** Loop body: merges one field of a source, unless it is the target itself. */
  method MergeFieldInto(target: Obj, options: Obj, name: string, ghost w: Layout, ghost ws: Layout)
    returns (ghost w': Layout)
    requires w.ObjAt? && w.o == target && Holds(w) && Unshared(w)
    requires ws.ObjAt? && ws.o == options && Holds(ws) && Objs(w) !! Objs(ws) && name in options.fields
    requires Whole(TreeOf(ws)) && name in ws.kids
    requires TreeOf(w).Node? && FieldCovered(Lookup(TreeOf(w), name), TreeOf(ws.kids[name]))
    modifies Objs(w)
    ensures w'.ObjAt? && w'.o == target && Holds(w') && Unshared(w')
    ensures Objs(w) <= Objs(w') && fresh(Objs(w') - Objs(w))
    ensures Holds(ws) && Objs(w') !! Objs(ws)
    ensures TreeOf(w') == WithField(TreeOf(w), name, TreeOf(ws.kids[name]))
    ensures OnlyField(w, w', name, TreeOf(ws.kids[name]))
    decreases ws, 0
  {
    SourceKnown(ws);
    var copy := options.fields[name];
    if copy == Ref(target) {
      assert false;
    } else {
      w' := MergeValueInto(target, name, copy, w, ws.kids[name]);
    }
  }

  method MergeInto(target: Obj, options: Obj, ghost wt: Layout, ghost ws: Layout) returns (ghost w: Layout)
    requires wt.ObjAt? && wt.o == target && Holds(wt) && Unshared(wt)
    requires ws.ObjAt? && ws.o == options && Holds(ws) && Objs(wt) !! Objs(ws)
    requires Whole(TreeOf(ws)) && TreeOf(wt).Node? && TreeOf(ws).Node? && Covered(TreeOf(wt), TreeOf(ws))
    modifies Objs(wt)
    ensures w.ObjAt? && w.o == target && Holds(w) && Unshared(w)
    ensures Objs(wt) <= Objs(w) && fresh(Objs(w) - Objs(wt))
    ensures TreeOf(w) == Merge(TreeOf(wt), TreeOf(ws))
    ensures Kept(wt, w, TreeOf(ws), {})
    decreases ws, 1
  {
    ghost var t, s := TreeOf(wt), TreeOf(ws);
    w := wt;
    var todo := options.fields.Keys;
    SourceKeys(ws);
    MergeStart(t, s);
    while todo != {}
      invariant todo <= s.kids.Keys == options.fields.Keys
      invariant w.ObjAt? && w.o == target && Holds(w) && Unshared(w)
      invariant Objs(wt) <= Objs(w) && fresh(Objs(w) - Objs(wt))
      invariant Objs(w) !! Objs(ws) && Holds(ws)
      invariant TreeOf(w) == MergeOn(t, s, s.kids.Keys - todo)
      invariant Kept(wt, w, s, todo)
      decreases todo
    {
      var name :| name in todo;
      ghost var before := w;
      LookupOutside(t, s, s.kids.Keys - todo, name);
      w := MergeFieldInto(target, options, name, before, ws);
      FieldMerged(wt, before, w, s, todo, name);
      todo := todo - {name};
    }
    assert s.kids.Keys - todo == s.kids.Keys;
  }

  lemma SourceKeys(ws: Layout)
    requires ws.ObjAt? && Holds(ws)
    ensures TreeOf(ws).kids.Keys == ws.kids.Keys == ws.o.fields.Keys
    ensures forall k :: k in ws.kids ==> TreeOf(ws).kids[k] == TreeOf(ws.kids[k])
  {
    SourceKnown(ws);
  }

  predicate TreesGiven(trees: seq<Option<Tree>>) {
    forall s :: s in trees && s.Some? ==> s.value.Node?
  }

  /** Several sources, of which null and undefined ones (here `None`) are passed over. */
  function MergeAll(t: Tree, sources: seq<Option<Tree>>): (m: Tree)
    requires t.Node? && TreesGiven(sources)
    ensures m.Node?
  {
    if sources == [] then t
    else
      var rest, last := sources[..|sources| - 1], sources[|sources| - 1];
      if last.None? then MergeAll(t, rest) else Merge(MergeAll(t, rest), last.value)
  }

  predicate GivesTree(source: Option<Tree>, k: string) {
    source.Some? && source.value.Node? && k in source.value.kids && source.value.kids[k] != Leaf(Prim(Undefined))
  }

  /** Of several sources the last one that gives a field a value that is no container decides it. */
  lemma {:induction false} LastLeafWins(t: Tree, sources: seq<Option<Tree>>, i: nat, k: string)
    requires t.Node? && TreesGiven(sources) && i < |sources|
    requires GivesTree(sources[i], k) && sources[i].value.kids[k].Leaf?
    requires forall j :: i < j < |sources| ==> !GivesTree(sources[j], k)
    ensures Lookup(MergeAll(t, sources), k) == Some(sources[i].value.kids[k])
    decreases |sources|
  {
    var n := |sources| - 1;
    if sources[n].Some? {
      MergeLookup(MergeAll(t, sources[..n]), sources[n].value, k);
    }
    if i < n {
      assert !GivesTree(sources[n], k);
      LastLeafWins(t, sources[..n], i, k);
    } else {
      MergeFieldOf(Lookup(MergeAll(t, sources[..n]), k), sources[n].value.kids[k]);
    }
  }

  /** A field that no source gives stays as it is. */
  lemma {:induction false} UngivenStays(t: Tree, sources: seq<Option<Tree>>, k: string)
    requires t.Node? && TreesGiven(sources) && forall j :: 0 <= j < |sources| ==> !GivesTree(sources[j], k)
    ensures Lookup(MergeAll(t, sources), k) == Lookup(t, k)
    decreases |sources|
  {
    if sources != [] {
      var n := |sources| - 1;
      assert !GivesTree(sources[n], k);
      UngivenStays(t, sources[..n], k);
      if sources[n].Some? {
        MergeLookup(MergeAll(t, sources[..n]), sources[n].value, k);
      }
    }
  }

  ghost predicate Describes(ws: Layout, source: Option<Obj>, target: Layout)
    reads Objs(ws)
  {
    source.Some? ==>
      ws.ObjAt? && ws.o == source.value && Holds(ws) && TreeOf(ws).Node? && Whole(TreeOf(ws)) && Objs(target) !! Objs(ws)
  }

  function SourceTrees(sources: seq<Option<Obj>>, layouts: seq<Layout>): (ts: seq<Option<Tree>>)
    requires |sources| == |layouts|
    ensures |ts| == |sources|
    ensures forall i :: 0 <= i < |ts| ==> ts[i] == if sources[i].Some? then Some(TreeOf(layouts[i])) else None
  {
    seq(|sources|, i requires 0 <= i < |sources| => if sources[i].Some? then Some(TreeOf(layouts[i])) else None)
  }

  predicate Defines(source: Option<Tree>, k: string)
    requires source.Some? ==> source.value.Node?
  {
    source.Some? && k in source.value.kids && source.value.kids[k] != UNDEFINED
  }

  /** Fields that none of the sources defines are untouched, down to their objects. */
  ghost predicate OthersKept(before: Layout, after: Layout, sources: seq<Option<Tree>>)
    requires before.ObjAt? && after.ObjAt? && TreesGiven(sources)
  {
    forall k :: k in before.kids && (forall i :: 0 <= i < |sources| ==> !Defines(sources[i], k)) ==>
      k in after.kids && after.kids[k] == before.kids[k]
  }

  lemma OthersKeptStep(wt: Layout, w: Layout, w': Layout, sources: seq<Option<Tree>>, i: nat)
    requires wt.ObjAt? && w.ObjAt? && w'.ObjAt? && i < |sources| && TreesGiven(sources)
    requires forall s :: s in sources[..i] ==> s in sources
    requires OthersKept(wt, w, sources[..i])
    requires if sources[i].None? then w' == w else Kept(w, w', sources[i].value, {})
    ensures OthersKept(wt, w', sources[..i + 1])
  {
    var now := sources[..i + 1];
    forall k | k in wt.kids && forall j :: 0 <= j < |now| ==> !Defines(now[j], k)
      ensures k in w'.kids && w'.kids[k] == wt.kids[k]
    {
      assert !Defines(now[i], k);
      forall j | 0 <= j < i ensures !Defines(sources[..i][j], k) { assert !Defines(now[j], k); }
      if sources[i].Some? {
        assert FieldKept(w.kids[k], w'.kids[k], if k in {} then None else Lookup(sources[i].value, k));
      }
    }
  }

  /** The sources are unfolded completely, and the tree of the target wherever they are merged into it. */
  predicate Mergeable(t: Tree, trees: seq<Option<Tree>>) {
    t.Node? && forall i :: 0 <= i < |trees| && trees[i].Some? ==>
      trees[i].value.Node? && Whole(trees[i].value) && Covered(t, trees[i].value)
  }

  lemma MergeableStep(t: Tree, trees: seq<Option<Tree>>, i: nat)
    requires i < |trees| && trees[i].Some? && Mergeable(t, trees)
    ensures Mergeable(Merge(t, trees[i].value), trees)
  {
    forall j | 0 <= j < |trees| && trees[j].Some? ensures Covered(Merge(t, trees[i].value), trees[j].value) {
      CoveredAfter(t, trees[i].value, trees[j].value);
    }
  }

  lemma MergeAllStep(t: Tree, trees: seq<Option<Tree>>, i: nat)
    requires i < |trees| && t.Node? && TreesGiven(trees)
    ensures TreesGiven(trees[..i]) && TreesGiven(trees[..i + 1])
    ensures MergeAll(t, trees[..i + 1]) ==
            if trees[i].None? then MergeAll(t, trees[..i]) else Merge(MergeAll(t, trees[..i]), trees[i].value)
  {
    assert trees[..i + 1][..i] == trees[..i];
  }

  /** `w` is what the first `i` sources have made of `wt`. */
  ghost predicate MergedUpTo(wt: Layout, w: Layout, trees: seq<Option<Tree>>, i: nat)
    requires wt.ObjAt? && w.ObjAt? && TreeOf(wt).Node? && TreesGiven(trees) && i <= |trees|
  {
    && Mergeable(TreeOf(w), trees)
    && TreesGiven(trees[..i])
    && TreeOf(w) == MergeAll(TreeOf(wt), trees[..i])
    && OthersKept(wt, w, trees[..i])
  }

  lemma MergedStep(wt: Layout, before: Layout, w: Layout, trees: seq<Option<Tree>>, i: nat)
    requires wt.ObjAt? && before.ObjAt? && w.ObjAt? && TreeOf(wt).Node? && TreesGiven(trees) && i < |trees|
    requires MergedUpTo(wt, before, trees, i)
    requires if trees[i].None? then w == before
             else TreeOf(w) == Merge(TreeOf(before), trees[i].value) && Kept(before, w, trees[i].value, {})
    ensures MergedUpTo(wt, w, trees, i + 1)
  {
    MergeAllStep(TreeOf(wt), trees, i);
    if trees[i].Some? {
      MergeableStep(TreeOf(before), trees, i);
    }
    OthersKeptStep(wt, before, w, trees, i);
  }

  ghost predicate AllDescribed(layouts: seq<Layout>, sources: seq<Option<Obj>>, w: Layout)
    reads set i, o | 0 <= i < |layouts| && o in Objs(layouts[i]) :: o
  {
    |layouts| == |sources| && forall i :: 0 <= i < |sources| ==> Describes(layouts[i], sources[i], w)
  }

  /** A deep call: the sources are merged from left to right, they stay as they are, and no object of theirs
      becomes part of the target. Of the target only what the sources are merged into has to be a tree;
      all else may be shared or cyclic, and stays as it is. */
  method ExtendDeep(target: Obj, sources: seq<Option<Obj>>, ghost wt: Layout, ghost layouts: seq<Layout>)
    returns (ghost w: Layout)
    requires wt.ObjAt? && wt.o == target && Holds(wt) && Unshared(wt)
    requires AllDescribed(layouts, sources, wt)
    requires Mergeable(TreeOf(wt), SourceTrees(sources, layouts))
    modifies Objs(wt)
    ensures w.ObjAt? && w.o == target && Holds(w) && Unshared(w)
    ensures fresh(Objs(w) - Objs(wt))
    ensures AllDescribed(layouts, sources, w)
    ensures TreesGiven(SourceTrees(sources, layouts))
    ensures TreeOf(w) == MergeAll(TreeOf(wt), SourceTrees(sources, layouts))
    ensures OthersKept(wt, w, SourceTrees(sources, layouts))
  {
    w := wt;
    ghost var trees := SourceTrees(sources, layouts);
    for i := 0 to |sources|
      invariant w.ObjAt? && w.o == target && Holds(w) && Unshared(w)
      invariant fresh(Objs(w) - Objs(wt))
      invariant AllDescribed(layouts, sources, w)
      invariant MergedUpTo(wt, w, trees, i)
    {
      ghost var before := w;
      if sources[i].Some? {
        assert trees[i] == Some(TreeOf(layouts[i]));
        w := MergeSource(target, sources, i, before, layouts);
      }
      MergedStep(wt, before, w, trees, i);
    }
    assert trees[..|sources|] == trees;
  }

  /** The body of the loop over the arguments. */
  method MergeSource(target: Obj, sources: seq<Option<Obj>>, i: nat, ghost wt: Layout, ghost layouts: seq<Layout>)
    returns (ghost w: Layout)
    requires i < |sources| && sources[i].Some?
    requires wt.ObjAt? && wt.o == target && Holds(wt) && Unshared(wt)
    requires AllDescribed(layouts, sources, wt)
    requires TreeOf(wt).Node? && TreeOf(layouts[i]).Node? && Covered(TreeOf(wt), TreeOf(layouts[i]))
    modifies Objs(wt)
    ensures w.ObjAt? && w.o == target && Holds(w) && Unshared(w)
    ensures fresh(Objs(w) - Objs(wt))
    ensures AllDescribed(layouts, sources, w)
    ensures TreeOf(w) == Merge(TreeOf(wt), TreeOf(layouts[i]))
    ensures Kept(wt, w, TreeOf(layouts[i]), {})
  {
    assert Describes(layouts[i], sources[i], wt);
    w := MergeInto(target, sources[i].value, wt, layouts[i]);
    forall j | 0 <= j < |sources| ensures Describes(layouts[j], sources[j], w) {
      assert old(Describes(layouts[j], sources[j], wt));
    }
  }

  /** What one source contributes to a shallow call: its defined fields, except references to the target. */
  function Assigned(options: map<string, Value>, target: Obj): map<string, Value> {
    map k | k in options && options[k] != Prim(Undefined) && options[k] != Ref(target) :: options[k]
  }

  ghost function AssignAll(fields: map<string, Value>, target: Obj, sources: seq<Option<Obj>>): map<string, Value>
    reads set s | s in sources && s.Some? && s.value != target :: s.value
  {
    if sources == [] then fields
    else
      var rest, last := sources[..|sources| - 1], sources[|sources| - 1];
      AssignAll(fields, target, rest) +
      if last.None? || last.value == target then map[] else Assigned(last.value.fields, target)
  }

  /** A shallow call. Sources may share anything with the target, and may be the target. */
  method ExtendShallow(target: Obj, sources: seq<Option<Obj>>)
    modifies target`fields
    ensures target.fields == old(AssignAll(target.fields, target, sources))
  {
    for i := 0 to |sources|
      invariant target.fields == old(AssignAll(target.fields, target, sources[..i]))
    {
      assert sources[..i + 1][..i] == sources[..i];
      if sources[i].Some? {
        AssignInto(target, sources[i].value);
      }
    }
    assert sources[..|sources|] == sources;
  }

  method AssignInto(target: Obj, options: Obj)
    modifies target`fields
    ensures target.fields ==
            old(target.fields) + if options == target then map[] else old(Assigned(options.fields, target))
  {
    var todo := options.fields.Keys;
    ghost var given := options.fields;
    while todo != {}
      invariant todo <= given.Keys
      invariant options.fields == given
      invariant target.fields ==
                old(target.fields) + map k | k in given && k !in todo && k in Assigned(given, target) :: given[k]
      decreases todo
    {
      var name :| name in todo;
      var copy := options.fields[name];
      if copy != Ref(target) && copy != Prim(Undefined) {
        target.fields := target.fields[name := copy];
      }
      todo := todo - {name};
    }
    assert target.fields == old(target.fields) + Assigned(given, target);
  }

  /** The source gives the field a value other than undefined and the target itself. */
  predicate Gives(source: Option<Obj>, target: Obj, k: string)
    reads set s | s in {source} && s.Some? :: s.value
  {
    && source.Some? && source.value != target && k in source.value.fields
    && source.value.fields[k] != Prim(Undefined) && source.value.fields[k] != Ref(target)
  }

  /** The last source that gives a field a value decides it. */
  lemma {:induction false} LastSourceWins(fields: map<string, Value>, target: Obj, sources: seq<Option<Obj>>, i: nat, k: string)
    requires i < |sources| && Gives(sources[i], target, k)
    requires forall j :: i < j < |sources| ==> !Gives(sources[j], target, k)
    ensures k in AssignAll(fields, target, sources)
    ensures AssignAll(fields, target, sources)[k] == sources[i].value.fields[k]
    decreases |sources|
  {
    if i < |sources| - 1 {
      LastSourceWins(fields, target, sources[..|sources| - 1], i, k);
      assert !Gives(sources[|sources| - 1], target, k);
    }
  }

  /** A field that no source gives a value stays as it is, absent or with its value. */
  lemma {:induction false} NoSourceKeeps(fields: map<string, Value>, target: Obj, sources: seq<Option<Obj>>, k: string)
    requires forall j :: 0 <= j < |sources| ==> !Gives(sources[j], target, k)
    ensures k in AssignAll(fields, target, sources) <==> k in fields
    ensures k in fields ==> AssignAll(fields, target, sources)[k] == fields[k]
    decreases |sources|
  {
    if sources != [] {
      NoSourceKeeps(fields, target, sources[..|sources| - 1], k);
      assert !Gives(sources[|sources| - 1], target, k);
    }
  }
}
