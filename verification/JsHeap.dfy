/** JavaScript values as the utilities see them: immutable leaves, and plain objects and arrays
    that live on the heap and may share structure or form cycles. */
module JsHeap {
  import opened Basics

  /** Values that are never copied: `null`, the primitives, functions and regular expressions. */
  datatype Prim =
    | Undefined
    | Null
    | Bool(b: bool)
    | Num(n: int)
    | NaN
    | Str(s: string)
    | Function(id: nat)
    | RegExp(id: nat)

  datatype Value = Prim(p: Prim) | Ref(o: Obj)

  /** A plain object or an array; an array's fields are its index keys. */
  class Obj {
    const isArray: bool
    var fields: map<string, Value>

    constructor (isArray: bool)
      ensures this.isArray == isArray && fields == map[]
    {
      this.isArray := isArray;
      fields := map[];
    }
  }

  ghost predicate InGraph(v: Value, S: set<Obj>) {
    v.Ref? ==> v.o in S
  }

  /** `S` holds every object that its members refer to. */
  ghost predicate Closed(S: set<Obj>)
    reads S
  {
    forall o, k :: o in S && k in o.fields ==> InGraph(o.fields[k], S)
  }

  /** The value reached from `v` by following `path`, if there is one. */
  ghost function Follow(v: Value, path: seq<string>, S: set<Obj>): Option<Value>
    requires Closed(S) && InGraph(v, S)
    reads S
    decreases |path|
  {
    if path == [] then Some(v)
    else if v.Ref? && path[0] in v.o.fields then Follow(v.o.fields[path[0]], path[1..], S)
    else None
  }

  /** What a value looks like when the identity of the containers that are unfolded is forgotten. A
      reference that is not followed is a leaf, too. */
  datatype Tree = Leaf(v: Value) | Node(isArray: bool, kids: map<string, Tree>)

  const UNDEFINED := Leaf(Prim(Undefined))

  /** Every container is unfolded. */
  predicate Whole(t: Tree) {
    match t
    case Leaf(v) => v.Prim?
    case Node(_, kids) => forall k :: k in kids ==> Whole(kids[k])
  }

  type Cells = map<Obj, map<string, Value>>

  /** A finite unfolding that remembers which object each node is. It may stop at any reference; only
      acyclic values have one that does not. Each node records the fields of the objects below it and the
      tree that it unfolds to. */
  datatype Layout = LeafAt(v: Value) | ObjAt(o: Obj, kids: map<string, Layout>, below: Cells, unfolded: Tree)

  function Root(w: Layout): Value {
    match w
    case LeafAt(v) => v
    case ObjAt(o, _, _, _) => Ref(o)
  }

  function CellsOf(w: Layout): Cells {
    match w
    case LeafAt(_) => map[]
    case ObjAt(_, _, below, _) => below
  }

  function Objs(w: Layout): set<Obj> {
    CellsOf(w).Keys
  }

  function TreeOf(w: Layout): Tree {
    match w
    case LeafAt(v) => Leaf(v)
    case ObjAt(_, _, _, unfolded) => unfolded
  }

  function Roots(kids: map<string, Layout>): map<string, Value> {
    map k | k in kids :: Root(kids[k])
  }

  function Trees(kids: map<string, Layout>): map<string, Tree> {
    map k | k in kids :: TreeOf(kids[k])
  }

  ghost predicate Contains(big: Cells, small: Cells) {
    forall o :: o in small ==> o in big && big[o] == small[o]
  }

  /** What the node `w` records is right. */
  ghost predicate NodeConsistent(w: Layout)
    requires w.ObjAt?
  {
    && w.o in w.below && w.below[w.o] == Roots(w.kids)
    && w.unfolded == Node(w.o.isArray, Trees(w.kids))
    && forall k :: k in w.kids ==> Contains(w.below, CellsOf(w.kids[k]))
  }

  ghost predicate Consistent(w: Layout) {
    w.ObjAt? ==> NodeConsistent(w) && forall k :: k in w.kids ==> Consistent(w.kids[k])
  }

  /** The fields of `w` lead to separate parts of the heap, none of which holds `w` itself. */
  ghost predicate NodeUnshared(w: Layout)
    requires w.ObjAt?
  {
    && (forall k :: k in w.kids ==> w.o !in Objs(w.kids[k]))
    && forall j, k :: j in w.kids && k in w.kids && j != k ==> Objs(w.kids[j]) !! Objs(w.kids[k])
  }

  /** No object is unfolded twice in `w`. */
  ghost predicate Unshared(w: Layout) {
    w.ObjAt? ==> NodeUnshared(w) && forall k :: k in w.kids ==> Unshared(w.kids[k])
  }

  ghost predicate CellsHold(cells: Cells)
    reads cells.Keys
  {
    forall o :: o in cells ==> o.fields == cells[o]
  }

  /** The heap holds exactly the value that `w` describes. */
  ghost predicate Holds(w: Layout)
    reads Objs(w)
  {
    Consistent(w) && CellsHold(CellsOf(w))
  }
}
