/** `isObjectValueEqual`: structural comparison by way of key lists. */
module ValueEquality {
  import opened Basics
  import opened JsHeap
  import opened DeepCopy
  import opened CopyLaws

  /** An acyclic value together with the order in which `Object.keys` lists its keys. */
  datatype Listed = PrimVal(p: Prim) | ObjVal(isArray: bool, keys: seq<string>, vals: map<string, Listed>)

  ghost predicate WellListed(v: Listed) {
    v.ObjVal? ==>
      && (forall i, j :: 0 <= i < j < |v.keys| ==> v.keys[i] != v.keys[j])
      && (forall k :: k in v.keys <==> k in v.vals)
      && forall k :: k in v.vals ==> WellListed(v.vals[k])
  }

  datatype TypeTag = UndefinedType | ObjectType | BooleanType | NumberType | StringType | FunctionType

  function TypeOf(v: Listed): TypeTag {
    match v
    case ObjVal(_, _, _) => ObjectType
    case PrimVal(p) =>
      match p
      case Undefined => UndefinedType
      case Null => ObjectType
      case Bool(_) => BooleanType
      case Num(_) => NumberType
      case NaN => NumberType
      case Str(_) => StringType
      case Function(_) => FunctionType
      case RegExp(_) => ObjectType
  }

  function KeysOf(v: Listed): seq<string> {
    if v.ObjVal? then v.keys else []
  }

  predicate StrictEquals(p: Prim, q: Prim) {
    p == q && p != NaN
  }

  datatype Outcome = Throws | Returns(equal: bool)

  function IsObjectValueEqual(a: Listed, b: Listed): Outcome
    requires WellListed(a) && WellListed(b)
    decreases a, 1, 0
  {
    if TypeOf(a) != TypeOf(b) then Returns(false)
    else if TypeOf(a) == ObjectType then
      if a == PrimVal(Null) || b == PrimVal(Null) then Throws
      else if |KeysOf(a)| != |KeysOf(b)| then Returns(false)
      else if exists key :: key in KeysOf(a) && key !in KeysOf(b) then Returns(false)
      else EveryEqual(a, b, KeysOf(a))
    else Returns(StrictEquals(a.p, b.p))
  }

  function EveryEqual(a: Listed, b: Listed, keys: seq<string>): Outcome
    requires WellListed(a) && WellListed(b)
    requires forall k :: k in keys ==> k in KeysOf(a) && k in KeysOf(b)
    decreases a, 0, |keys|
  {
    if keys == [] then Returns(true)
    else
      var k := keys[0];
      assert k in keys && k in KeysOf(a) && k in KeysOf(b);
      var first := IsObjectValueEqual(a.vals[k], b.vals[k]);
      if first == Returns(true) then EveryEqual(a, b, keys[1..]) else first
  }

  /** The value as a map from keys to values, without key order and without the kind of container;
      a regular expression has no keys. */
  datatype Shape = Plain(p: Prim) | Fields(at: map<string, Shape>)

  function ShapeOf(v: Listed): Shape {
    match v
    case PrimVal(RegExp(_)) => Fields(map[])
    case PrimVal(p) => Plain(p)
    case ObjVal(_, _, vals) => Fields(map k | k in vals :: ShapeOf(vals[k]))
  }

  /** `p` occurs nowhere in `v`. */
  predicate Free(v: Listed, p: Prim) {
    match v
    case PrimVal(q) => q != p
    case ObjVal(_, _, vals) => forall k :: k in vals ==> Free(vals[k], p)
  }

  ghost predicate Comparable(v: Listed) {
    WellListed(v) && Free(v, Null)
  }

  lemma ShapeKeys(v: Listed)
    requires Comparable(v) && TypeOf(v) == ObjectType
    ensures Distinct(KeysOf(v))
    ensures ShapeOf(v).Fields? && ShapeOf(v).at.Keys == SetOf(KeysOf(v))
  {
  }

  /** Without null and NaN the comparison decides whether the two values are the same map from keys to
      values; a NaN makes it false; it throws only on null. */
  lemma {:induction false} EqualityIsSameShape(a: Listed, b: Listed)
    requires Comparable(a) && Comparable(b)
    ensures IsObjectValueEqual(a, b) == Returns(ShapeOf(a) == ShapeOf(b) && Free(a, NaN))
    decreases a, 1, 0
  {
    if TypeOf(a) == ObjectType && TypeOf(b) == ObjectType {
      var ka, kb := KeysOf(a), KeysOf(b);
      ShapeKeys(a);
      ShapeKeys(b);
      Pigeonhole(ka, kb);
      if forall key :: key in ka ==> key in kb {
        assert SetOf(ka) <= SetOf(kb);
      } else {
        var key :| key in ka && key !in kb;
        assert key in SetOf(ka) && key !in SetOf(kb);
      }
      if SetOf(ka) == SetOf(kb) {
        assert forall key :: key in SetOf(ka) ==> key in ka && key in kb;
        EveryIsSameShape(a, b, ka);
        SameEverywhere(a, b);
      }
    }
  }

  ghost predicate SameAt(a: Listed, b: Listed, keys: seq<string>)
    requires forall k :: k in keys ==> a.ObjVal? && k in a.vals && b.ObjVal? && k in b.vals
  {
    forall k :: k in keys ==> ShapeOf(a.vals[k]) == ShapeOf(b.vals[k]) && Free(a.vals[k], NaN)
  }

  lemma SameEverywhere(a: Listed, b: Listed)
    requires Comparable(a) && Comparable(b) && TypeOf(a) == ObjectType == TypeOf(b)
    requires SetOf(KeysOf(a)) == SetOf(KeysOf(b))
    requires forall k :: k in KeysOf(a) ==> k in KeysOf(b)
    ensures SameAt(a, b, KeysOf(a)) <==> ShapeOf(a) == ShapeOf(b) && Free(a, NaN)
  {
    ShapeKeys(a);
    ShapeKeys(b);
    if SameAt(a, b, KeysOf(a)) {
      forall k | k in ShapeOf(a).at ensures ShapeOf(a).at[k] == ShapeOf(b).at[k] { assert k in KeysOf(a); }
      assert ShapeOf(a).at == ShapeOf(b).at;
    }
    if ShapeOf(a) == ShapeOf(b) && Free(a, NaN) {
      forall k | k in KeysOf(a) ensures ShapeOf(a.vals[k]) == ShapeOf(b.vals[k]) && Free(a.vals[k], NaN) {
        assert ShapeOf(a).at[k] == ShapeOf(b).at[k];
      }
    }
  }

  lemma {:induction false} EveryIsSameShape(a: Listed, b: Listed, keys: seq<string>)
    requires Comparable(a) && Comparable(b)
    requires forall k :: k in keys ==> k in KeysOf(a) && k in KeysOf(b)
    ensures EveryEqual(a, b, keys) == Returns(SameAt(a, b, keys))
    decreases a, 0, |keys|
  {
    if keys != [] {
      var k := keys[0];
      assert k in keys;
      EqualityIsSameShape(a.vals[k], b.vals[k]);
      EveryIsSameShape(a, b, keys[1..]);
      SameAtCons(a, b, keys);
    }
  }

  lemma SameAtCons(a: Listed, b: Listed, keys: seq<string>)
    requires keys != [] && a.ObjVal? && b.ObjVal? && keys[0] in a.vals && keys[0] in b.vals
    requires forall k :: k in keys ==> k in a.vals && k in b.vals
    ensures SameAt(a, b, keys) <==>
            ShapeOf(a.vals[keys[0]]) == ShapeOf(b.vals[keys[0]]) && Free(a.vals[keys[0]], NaN) && SameAt(a, b, keys[1..])
  {
    assert keys == [keys[0]] + keys[1..];
    assert forall k :: k in keys <==> k == keys[0] || k in keys[1..];
  }

  lemma {:induction false} NaNShows(a: Listed, b: Listed)
    requires Comparable(a) && Comparable(b) && ShapeOf(a) == ShapeOf(b)
    ensures Free(a, NaN) <==> Free(b, NaN)
    decreases a
  {
    if a.ObjVal? && b.ObjVal? {
      assert a.vals.Keys == ShapeOf(a).at.Keys == ShapeOf(b).at.Keys == b.vals.Keys;
      forall k | k in a.vals ensures Free(a.vals[k], NaN) <==> Free(b.vals[k], NaN) {
        assert ShapeOf(a).at[k] == ShapeOf(b).at[k];
        NaNShows(a.vals[k], b.vals[k]);
      }
    } else if a.ObjVal? {
      assert a.vals.Keys == ShapeOf(a).at.Keys == {};
    } else if b.ObjVal? {
      assert b.vals.Keys == ShapeOf(b).at.Keys == {};
    }
  }

  lemma {:induction false} EveryTrue(a: Listed, b: Listed, keys: seq<string>, i: nat)
    requires WellListed(a) && WellListed(b) && i < |keys|
    requires forall k :: k in keys ==> k in KeysOf(a) && k in KeysOf(b)
    requires EveryEqual(a, b, keys) == Returns(true)
    ensures keys[i] in keys && IsObjectValueEqual(a.vals[keys[i]], b.vals[keys[i]]) == Returns(true)
    decreases |keys|
  {
    assert keys[0] in keys;
    if i > 0 {
      EveryTrue(a, b, keys[1..], i - 1);
    }
  }

  lemma {:induction false} EqualHaveNoNull(a: Listed, b: Listed)
    requires WellListed(a) && WellListed(b) && IsObjectValueEqual(a, b) == Returns(true)
    ensures Free(a, Null) && Free(b, Null)
    decreases a
  {
    if TypeOf(a) == ObjectType {
      var ka, kb := KeysOf(a), KeysOf(b);
      forall i | 0 <= i < |ka|
        ensures ka[i] in ka && ka[i] in kb && Free(a.vals[ka[i]], Null) && Free(b.vals[ka[i]], Null)
      {
        assert ka[i] in ka;
        EveryTrue(a, b, ka, i);
        EqualHaveNoNull(a.vals[ka[i]], b.vals[ka[i]]);
      }
      SameKeys(ka, kb);
    }
  }

  lemma SameKeys(ka: seq<string>, kb: seq<string>)
    requires Distinct(ka) && Distinct(kb) && |ka| == |kb| && forall i :: 0 <= i < |ka| ==> ka[i] in kb
    ensures forall k :: k in ka <==> k in kb
  {
    forall k | k in SetOf(ka) ensures k in SetOf(kb) {
      var i :| 0 <= i < |ka| && ka[i] == k;
    }
    Pigeonhole(ka, kb);
    forall k ensures k in ka <==> k in kb {
      assert k in SetOf(ka) <==> k in SetOf(kb);
    }
  }

  /** For all acyclic values: the comparison says yes exactly if both are the same map from keys to values
      and hold neither null nor NaN; and it throws only if one of them holds a null. */
  lemma EqualExactly(a: Listed, b: Listed)
    requires WellListed(a) && WellListed(b)
    ensures IsObjectValueEqual(a, b) == Returns(true) <==>
            ShapeOf(a) == ShapeOf(b) && Free(a, NaN) && Free(a, Null) && Free(b, Null)
    ensures IsObjectValueEqual(a, b) == Throws ==> !Free(a, Null) || !Free(b, Null)
  {
    if Free(a, Null) && Free(b, Null) {
      EqualityIsSameShape(a, b);
    } else if IsObjectValueEqual(a, b) == Returns(true) {
      EqualHaveNoNull(a, b);
    }
  }

  /** The values for which the comparison says yes. */
  ghost predicate Alike(a: Listed, b: Listed) {
    ShapeOf(a) == ShapeOf(b) && Free(a, NaN) && Free(a, Null) && Free(b, Null)
  }

  /** The walk through both values comes upon a null opposite an object or another null: right away, or, if
      the keys agree, below a key before which everything is alike. */
  ghost predicate MeetsNull(a: Listed, b: Listed)
    requires WellListed(a) && WellListed(b)
    decreases a
  {
    && TypeOf(a) == ObjectType == TypeOf(b)
    && (a == PrimVal(Null) || b == PrimVal(Null) ||
        (SetOf(KeysOf(a)) == SetOf(KeysOf(b)) && exists i :: 0 <= i < |KeysOf(a)| && MeetsNullAt(a, b, i)))
  }

  ghost predicate MeetsNullAt(a: Listed, b: Listed, i: nat)
    requires WellListed(a) && WellListed(b) && i < |KeysOf(a)|
    decreases a, 0
  {
    && (forall j :: 0 <= j < i ==> KeysOf(a)[j] in KeysOf(b) && Alike(a.vals[KeysOf(a)[j]], b.vals[KeysOf(a)[j]]))
    && KeysOf(a)[i] in KeysOf(a) && KeysOf(a)[i] in KeysOf(b)
    && MeetsNull(a.vals[KeysOf(a)[i]], b.vals[KeysOf(a)[i]])
  }

  function OutcomeAt(a: Listed, b: Listed, k: string): Outcome
    requires WellListed(a) && WellListed(b) && k in KeysOf(a) && k in KeysOf(b)
  {
    IsObjectValueEqual(a.vals[k], b.vals[k])
  }

  predicate Common(a: Listed, b: Listed, k: string) {
    k in KeysOf(a) && k in KeysOf(b)
  }

  ghost predicate ThrowsAt(a: Listed, b: Listed, keys: seq<string>, i: nat)
    requires WellListed(a) && WellListed(b) && i < |keys|
  {
    && (forall j :: 0 <= j < i ==> Common(a, b, keys[j]) && OutcomeAt(a, b, keys[j]) == Returns(true))
    && Common(a, b, keys[i]) && OutcomeAt(a, b, keys[i]) == Throws
  }

  /** The first key at which the values are not alike decides, if it throws. */
  lemma {:induction false} EveryThrows(a: Listed, b: Listed, keys: seq<string>)
    requires WellListed(a) && WellListed(b) && forall k :: k in keys ==> k in KeysOf(a) && k in KeysOf(b)
    ensures EveryEqual(a, b, keys) == Throws <==> exists i :: 0 <= i < |keys| && ThrowsAt(a, b, keys, i)
    decreases |keys|
  {
    if keys != [] {
      var rest := keys[1..];
      assert keys[0] in keys && Common(a, b, keys[0]);
      EveryThrows(a, b, rest);
      if OutcomeAt(a, b, keys[0]) == Returns(true) {
        forall i | 0 <= i < |rest| ensures ThrowsAt(a, b, rest, i) <==> ThrowsAt(a, b, keys, i + 1) {
          ThrowsLater(a, b, keys, i);
        }
        if i :| 0 <= i < |keys| && ThrowsAt(a, b, keys, i) {
          assert ThrowsAt(a, b, rest, i - 1);
        }
      } else {
        assert EveryEqual(a, b, keys) == Throws <==> ThrowsAt(a, b, keys, 0);
      }
    }
  }

  lemma ThrowsLater(a: Listed, b: Listed, keys: seq<string>, i: nat)
    requires WellListed(a) && WellListed(b) && i + 1 < |keys|
    requires Common(a, b, keys[0]) && OutcomeAt(a, b, keys[0]) == Returns(true)
    ensures ThrowsAt(a, b, keys[1..], i) <==> ThrowsAt(a, b, keys, i + 1)
  {
    var rest := keys[1..];
    assert forall j :: 0 <= j < |rest| ==> rest[j] == keys[j + 1];
    if ThrowsAt(a, b, keys, i + 1) {
      forall j | 0 <= j < i ensures Common(a, b, rest[j]) && OutcomeAt(a, b, rest[j]) == Returns(true) {
        assert Common(a, b, keys[j + 1]);
      }
    }
    if ThrowsAt(a, b, rest, i) {
      forall j | 0 <= j < i + 1 ensures Common(a, b, keys[j]) && OutcomeAt(a, b, keys[j]) == Returns(true) {
        assert j > 0 ==> Common(a, b, rest[j - 1]);
      }
    }
  }

  /** For all acyclic values: the comparison throws exactly when it meets a null on its way. */
  lemma {:induction false} ThrowsExactly(a: Listed, b: Listed)
    requires WellListed(a) && WellListed(b)
    ensures IsObjectValueEqual(a, b) == Throws <==> MeetsNull(a, b)
    decreases a
  {
    if TypeOf(a) == ObjectType == TypeOf(b) && a != PrimVal(Null) && b != PrimVal(Null) {
      var ka, kb := KeysOf(a), KeysOf(b);
      KeysAgree(a, b);
      if SetOf(ka) == SetOf(kb) {
        assert forall k :: k in ka ==> k in SetOf(ka);
        EveryThrows(a, b, ka);
        forall i | 0 <= i < |ka| ensures ThrowsAt(a, b, ka, i) <==> MeetsNullAt(a, b, i) {
          ThrowsAtExactly(a, b, i);
        }
      }
    }
  }

  lemma {:induction false} ThrowsAtExactly(a: Listed, b: Listed, i: nat)
    requires WellListed(a) && WellListed(b) && i < |KeysOf(a)| && forall k :: k in KeysOf(a) ==> k in KeysOf(b)
    ensures ThrowsAt(a, b, KeysOf(a), i) <==> MeetsNullAt(a, b, i)
    decreases a, 0
  {
    var ka := KeysOf(a);
    forall j | 0 <= j <= i
      ensures Common(a, b, ka[j]) && (OutcomeAt(a, b, ka[j]) == Returns(true) <==> Alike(a.vals[ka[j]], b.vals[ka[j]]))
    {
      assert ka[j] in ka;
      EqualExactly(a.vals[ka[j]], b.vals[ka[j]]);
    }
    ThrowsExactly(a.vals[ka[i]], b.vals[ka[i]]);
  }

  lemma KeysAgree(a: Listed, b: Listed)
    requires WellListed(a) && WellListed(b)
    ensures SetOf(KeysOf(a)) == SetOf(KeysOf(b)) <==>
            |KeysOf(a)| == |KeysOf(b)| && !exists key :: key in KeysOf(a) && key !in KeysOf(b)
  {
    Pigeonhole(KeysOf(a), KeysOf(b));
    assert forall key :: key in KeysOf(a) <==> key in SetOf(KeysOf(a));
    assert forall key :: key in KeysOf(b) <==> key in SetOf(KeysOf(b));
  }

  lemma {:induction false} SameShapeNotRefused(a: Listed, b: Listed)
    requires WellListed(a) && WellListed(b) && ShapeOf(a) == ShapeOf(b) && Free(a, NaN)
    ensures IsObjectValueEqual(a, b) != Returns(false)
    decreases a, 1, 0
  {
    if TypeOf(a) == ObjectType == TypeOf(b) && a != PrimVal(Null) && b != PrimVal(Null) {
      assert SetOf(KeysOf(a)) == ShapeOf(a).at.Keys == ShapeOf(b).at.Keys == SetOf(KeysOf(b));
      KeysAgree(a, b);
      assert forall k :: k in KeysOf(a) ==> k in SetOf(KeysOf(a));
      EveryNotRefused(a, b, KeysOf(a));
    }
  }

  lemma {:induction false} EveryNotRefused(a: Listed, b: Listed, keys: seq<string>)
    requires WellListed(a) && WellListed(b) && ShapeOf(a) == ShapeOf(b) && Free(a, NaN)
    requires forall k :: k in keys ==> k in KeysOf(a) && k in KeysOf(b)
    ensures EveryEqual(a, b, keys) != Returns(false)
    decreases a, 0, |keys|
  {
    if keys != [] {
      var k := keys[0];
      assert k in keys && ShapeOf(a).at[k] == ShapeOf(b).at[k];
      SameShapeNotRefused(a.vals[k], b.vals[k]);
      EveryNotRefused(a, b, keys[1..]);
    }
  }

  /** Of two values that are the same map from keys to values, without NaN, the comparison says yes if they
      hold no null, and throws if they do. */
  lemma SameShapeThrowsOnNull(a: Listed, b: Listed)
    requires WellListed(a) && WellListed(b) && ShapeOf(a) == ShapeOf(b) && Free(a, NaN)
    ensures IsObjectValueEqual(a, b) == if Free(a, Null) then Returns(true) else Throws
  {
    SameShapeNotRefused(a, b);
    EqualExactly(a, b);
    NullShows(a, b);
  }

  lemma {:induction false} NullShows(a: Listed, b: Listed)
    requires WellListed(a) && WellListed(b) && ShapeOf(a) == ShapeOf(b)
    ensures Free(a, Null) <==> Free(b, Null)
    decreases a
  {
    if a.ObjVal? && b.ObjVal? {
      assert a.vals.Keys == ShapeOf(a).at.Keys == ShapeOf(b).at.Keys == b.vals.Keys;
      forall k | k in a.vals ensures Free(a.vals[k], Null) <==> Free(b.vals[k], Null) {
        assert ShapeOf(a).at[k] == ShapeOf(b).at[k];
        NullShows(a.vals[k], b.vals[k]);
      }
    } else if a.ObjVal? {
      assert a.vals.Keys == ShapeOf(a).at.Keys == {};
    } else if b.ObjVal? {
      assert b.vals.Keys == ShapeOf(b).at.Keys == {};
    }
  }

  /** An object with a field that is null, under whatever key, cannot even be compared with itself. */
  lemma NullThrows(k: string)
    ensures var v := ObjVal(false, [k], map[k := PrimVal(Null)]); WellListed(v) && IsObjectValueEqual(v, v) == Throws
  {
    var v := ObjVal(false, [k], map[k := PrimVal(Null)]);
    assert !Free(v, Null) by { assert v.vals[k] == PrimVal(Null); }
    SameShapeThrowsOnNull(v, v);
  }

  /** On null-free values the comparison is symmetric and transitive, and it is reflexive exactly on
      the values without NaN. */
  lemma EqualityIsEquivalence(a: Listed, b: Listed, c: Listed)
    requires Comparable(a) && Comparable(b) && Comparable(c)
    ensures IsObjectValueEqual(a, a) == Returns(Free(a, NaN))
    ensures IsObjectValueEqual(a, b) == IsObjectValueEqual(b, a)
    ensures IsObjectValueEqual(a, b) == Returns(true) && IsObjectValueEqual(b, c) == Returns(true) ==>
              IsObjectValueEqual(a, c) == Returns(true)
  {
    EqualityIsSameShape(a, a);
    EqualityIsSameShape(a, b);
    EqualityIsSameShape(b, a);
    EqualityIsSameShape(b, c);
    EqualityIsSameShape(a, c);
    if ShapeOf(a) == ShapeOf(b) {
      NaNShows(a, b);
    }
  }

  /** `v` is the tree `t` with its keys in some order. */
  ghost predicate Lists(v: Listed, t: Tree) {
    match v
    case PrimVal(p) => t == Leaf(Prim(p))
    case ObjVal(isArray, _, vals) =>
      t.Node? && t.isArray == isArray && t.kids.Keys == vals.Keys && forall k :: k in vals ==> Lists(vals[k], t.kids[k])
  }

  lemma {:induction false} ListingsAgree(a: Listed, b: Listed, t: Tree)
    requires Lists(a, t) && Lists(b, t)
    ensures ShapeOf(a) == ShapeOf(b)
    decreases t
  {
    if t.Node? {
      forall k | k in t.kids ensures ShapeOf(a.vals[k]) == ShapeOf(b.vals[k]) {
        ListingsAgree(a.vals[k], b.vals[k], t.kids[k]);
      }
      assert ShapeOf(a).at == ShapeOf(b).at;
    }
  }

  lemma {:induction false} LayoutTreeUnique(w: Layout, w': Layout)
    requires Holds(w) && Holds(w') && Root(w) == Root(w') && Whole(TreeOf(w)) && Whole(TreeOf(w'))
    ensures TreeOf(w) == TreeOf(w')
    decreases w
  {
    if w.ObjAt? {
      assert w.o.fields == Roots(w.kids) == Roots(w'.kids) by { assert w.below[w.o] == w'.below[w.o]; }
      forall k | k in w.kids ensures k in w'.kids && TreeOf(w.kids[k]) == TreeOf(w'.kids[k]) {
        assert k in Roots(w.kids) && k in Roots(w'.kids);
        assert Contains(w.below, CellsOf(w.kids[k])) && Contains(w'.below, CellsOf(w'.kids[k]));
        LayoutTreeUnique(w.kids[k], w'.kids[k]);
      }
      assert w.kids.Keys == w.o.fields.Keys == w'.kids.Keys;
      assert Trees(w.kids) == Trees(w'.kids);
    }
  }

  lemma {:induction false} ListedIsWhole(v: Listed, t: Tree)
    requires Lists(v, t)
    ensures Whole(t)
    decreases t
  {
    if t.Node? {
      forall k | k in t.kids ensures Whole(t.kids[k]) {
        ListedIsWhole(v.vals[k], t.kids[k]);
      }
    }
  }

  /** A deep copy of an acyclic value without null compares equal to it, in whatever order the keys of
      either are listed, unless there is a NaN in it. With a null and no NaN the comparison throws. */
  lemma DeepCopyIsEqual(phi: map<Obj, Obj>, v: Value, r: Value, w: Layout, wr: Layout, a: Listed, b: Listed)
    requires Isomorphic(phi, v, r)
    requires w.ObjAt? && Holds(w) && Root(w) == v && Objs(w) <= phi.Keys
    requires Holds(wr) && Root(wr) == r
    requires Lists(a, TreeOf(w)) && Lists(b, TreeOf(wr))
    requires WellListed(a) && WellListed(b)
    ensures Free(a, Null) ==> IsObjectValueEqual(a, b) == Returns(Free(a, NaN))
    ensures Free(a, NaN) ==> IsObjectValueEqual(a, b) == if Free(a, Null) then Returns(true) else Throws
  {
    ListedIsWhole(a, TreeOf(w));
    ListedIsWhole(b, TreeOf(wr));
    var wr' := ExtendAgreesWithDeepCopy(phi, v, r, w);
    LayoutTreeUnique(wr, wr');
    ListingsAgree(a, b, TreeOf(w));
    NullShows(a, b);
    if Free(a, Null) {
      EqualityIsSameShape(a, b);
    }
    if Free(a, NaN) {
      SameShapeThrowsOnNull(a, b);
    }
  }
}
