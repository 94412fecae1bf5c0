/** `util.deepCopy`: copies an arbitrary object graph through a cache of originals. */
module DeepCopy {
  import opened Basics
  import opened JsHeap

  datatype Entry = Entry(original: Obj, copy: Obj)

  /** The array that every recursive call shares and pushes to. */
  class Cache {
    var entries: seq<Entry>

    constructor ()
      ensures entries == []
    {
      entries := [];
    }
  }

  function Find(entries: seq<Entry>, obj: Obj): (hit: Option<Obj>)
    ensures hit.Some? ==> Entry(obj, hit.value) in entries
    ensures hit.None? ==> forall e :: e in entries ==> e.original != obj
  {
    if entries == [] then None
    else if entries[0].original == obj then Some(entries[0].copy)
    else Find(entries[1..], obj)
  }

  ghost function Pairs(entries: seq<Entry>): set<Entry> {
    set e | e in entries
  }

  ghost function Originals(pairs: set<Entry>): set<Obj> {
    set e | e in pairs :: e.original
  }

  /** The cache pairs distinct objects of the graph with distinct objects outside it. */
  ghost predicate OneToOne(pairs: set<Entry>, S: set<Obj>) {
    && (forall e :: e in pairs ==> e.original in S && e.copy !in S)
    && forall e, f :: e in pairs && f in pairs && (e.original == f.original || e.copy == f.copy) ==> e == f
  }

  ghost predicate ImageOf(v: Value, r: Value, pairs: set<Entry>) {
    match v
    case Prim(_) => r == v
    case Ref(o) => r.Ref? && Entry(o, r.o) in pairs
  }

  /** The copy has the original's kind and keys, and every field holds the image of its field. */
  ghost predicate Copied(e: Entry, pairs: set<Entry>)
    reads e.original, e.copy
  {
    && e.copy.isArray == e.original.isArray
    && e.copy.fields.Keys == e.original.fields.Keys
    && forall k :: k in e.original.fields ==> ImageOf(e.original.fields[k], e.copy.fields[k], pairs)
  }

  /** Every pair that `pairs` adds to `before` is a finished copy. */
  ghost predicate AllCopied(before: set<Entry>, pairs: set<Entry>)
    reads set e | e in pairs - before :: e.original
    reads set e | e in pairs - before :: e.copy
  {
    forall e :: e in pairs - before ==> Copied(e, pairs)
  }

  lemma AllCopiedTransitive(P: set<Entry>, Q: set<Entry>, R: set<Entry>)
    requires P <= Q <= R && AllCopied(P, Q) && AllCopied(Q, R)
    ensures AllCopied(P, R)
  {
    forall e | e in R - P ensures Copied(e, R) {
      assert e in Q ==> Copied(e, Q);
    }
  }

  ghost function Copies(pairs: set<Entry>): set<Obj> {
    set e | e in pairs :: e.copy
  }

  method CopyInto(v: Value, cache: Cache, ghost S: set<Obj>) returns (r: Value)
    requires Closed(S) && InGraph(v, S)
    requires OneToOne(Pairs(cache.entries), S)
    modifies cache
    ensures OneToOne(Pairs(cache.entries), S)
    ensures Pairs(old(cache.entries)) <= Pairs(cache.entries)
    ensures AllCopied(Pairs(old(cache.entries)), Pairs(cache.entries))
    ensures fresh(Copies(Pairs(cache.entries)) - Copies(Pairs(old(cache.entries))))
    ensures ImageOf(v, r, Pairs(cache.entries))
    decreases S - Originals(Pairs(cache.entries)), 0
  {
    if v.Prim? {
      return v;
    }
    var obj := v.o;
    var hit := Find(cache.entries, obj);
    if hit.Some? {
      return Ref(hit.value);
    }
    var copy := new Obj(obj.isArray);
    cache.entries := cache.entries + [Entry(obj, copy)];
    ghost var before, started := Pairs(old(cache.entries)), Pairs(cache.entries);
    assert started == before + {Entry(obj, copy)};
    assert obj in Originals(started) && Originals(before) <= Originals(started);
    CopyFields(obj, copy, cache, S);
    return Ref(copy);
  }

  method CopyFields(obj: Obj, copy: Obj, cache: Cache, ghost S: set<Obj>)
    requires Closed(S) && obj in S
    requires OneToOne(Pairs(cache.entries), S)
    requires Entry(obj, copy) in Pairs(cache.entries)
    requires copy.isArray == obj.isArray && copy.fields == map[]
    modifies cache, copy`fields
    ensures OneToOne(Pairs(cache.entries), S)
    ensures Pairs(old(cache.entries)) <= Pairs(cache.entries)
    ensures AllCopied(Pairs(old(cache.entries)), Pairs(cache.entries))
    ensures fresh(Copies(Pairs(cache.entries)) - Copies(Pairs(old(cache.entries))))
    ensures Copied(Entry(obj, copy), Pairs(cache.entries))
    decreases S - Originals(Pairs(cache.entries)), 1
  {
    ghost var started := Pairs(cache.entries);
    var todo := obj.fields.Keys;
    while todo != {}
      invariant todo <= obj.fields.Keys && copy.fields.Keys == obj.fields.Keys - todo
      invariant OneToOne(Pairs(cache.entries), S)
      invariant started <= Pairs(cache.entries)
      invariant AllCopied(started, Pairs(cache.entries))
      invariant fresh(Copies(Pairs(cache.entries)) - Copies(started))
      invariant forall k :: k in copy.fields ==> ImageOf(obj.fields[k], copy.fields[k], Pairs(cache.entries))
      decreases todo
    {
      var key :| key in todo;
      ghost var before := Pairs(cache.entries);
      assert Originals(started) <= Originals(before);
      var image := CopyInto(obj.fields[key], cache, S);
      AllCopiedTransitive(started, before, Pairs(cache.entries));
      copy.fields := copy.fields[key := image];
      todo := todo - {key};
    }
  }

  ghost function Reachable(v: Value, S: set<Obj>): set<Obj>
    requires Closed(S) && InGraph(v, S)
    reads S
  {
    set o | o in S && exists path :: Follow(v, path, S) == Some(Ref(o))
  }

  lemma {:induction false} FollowStep(v: Value, path: seq<string>, k: string, S: set<Obj>)
    requires Closed(S) && InGraph(v, S)
    requires Follow(v, path, S).Some?
    ensures Follow(v, path + [k], S) ==
            var end := Follow(v, path, S).value;
            if end.Ref? && k in end.o.fields then Some(end.o.fields[k]) else None
    decreases |path|
  {
    if path == [] {
      assert [k][1..] == [];
    } else {
      assert (path + [k])[1..] == path[1..] + [k];
      FollowStep(v.o.fields[path[0]], path[1..], k, S);
    }
  }

  /** Every closed set around `v` holds all that is reachable from `v`. */
  lemma {:induction false} ReachableIsLeast(v: Value, path: seq<string>, T: set<Obj>, S: set<Obj>)
    requires Closed(S) && InGraph(v, S) && Closed(T) && InGraph(v, T)
    ensures Follow(v, path, S).Some? ==> InGraph(Follow(v, path, S).value, T)
    decreases |path|
  {
    if path != [] && v.Ref? && path[0] in v.o.fields {
      ReachableIsLeast(v.o.fields[path[0]], path[1..], T, S);
    }
  }

  lemma ReachableIsClosed(v: Value, S: set<Obj>)
    requires Closed(S) && InGraph(v, S)
    ensures Closed(Reachable(v, S)) && InGraph(v, Reachable(v, S))
  {
    assert v.Ref? ==> Follow(v, [], S) == Some(v);
    forall o, k | o in Reachable(v, S) && k in o.fields
      ensures InGraph(o.fields[k], Reachable(v, S))
    {
      var path :| Follow(v, path, S) == Some(Ref(o));
      FollowStep(v, path, k, S);
    }
  }

  predicate Injective(phi: map<Obj, Obj>) {
    forall o, p :: o in phi && p in phi && phi[o] == phi[p] ==> o == p
  }

  /** `phi` carries the value `v` to `r`: one fresh object for each original, of the same kind and
      with the same keys, whose fields are the images of the original's fields. */
  ghost predicate Isomorphic(phi: map<Obj, Obj>, v: Value, r: Value)
    reads phi.Keys, phi.Values
  {
    && MapsTo(phi, v, r)
    && Injective(phi)
    && forall o :: o in phi ==>
         && phi[o].isArray == o.isArray
         && phi[o].fields.Keys == o.fields.Keys
         && forall k :: k in o.fields ==> MapsTo(phi, o.fields[k], phi[o].fields[k])
  }

  ghost predicate MapsTo(phi: map<Obj, Obj>, v: Value, r: Value) {
    match v
    case Prim(_) => r == v
    case Ref(o) => o in phi && r == Ref(phi[o])
  }

  lemma CacheIsIsomorphism(pairs: set<Entry>, S: set<Obj>, v: Value, r: Value) returns (phi: map<Obj, Obj>)
    requires OneToOne(pairs, S) && AllCopied({}, pairs) && ImageOf(v, r, pairs)
    ensures Isomorphic(phi, v, r)
    ensures phi.Keys == Originals(pairs) && phi.Values == Copies(pairs)
  {
    phi := map e | e in pairs :: e.original := e.copy;
    forall e | e in pairs ensures e.original in phi && phi[e.original] == e.copy && Copied(e, pairs) {}
    forall w, i | ImageOf(w, i, pairs) ensures MapsTo(phi, w, i) {}
    forall o | o in phi
      ensures Entry(o, phi[o]) in pairs
      ensures forall k :: k in o.fields ==> MapsTo(phi, o.fields[k], phi[o].fields[k])
    {
      assert Copied(Entry(o, phi[o]), pairs);
    }
    forall c | c in Copies(pairs) ensures c in phi.Values {
      var e :| e in pairs && e.copy == c;
      assert phi[e.original] == c;
    }
  }

  lemma CacheHoldsReachable(phi: map<Obj, Obj>, v: Value, r: Value, S: set<Obj>)
    requires Closed(S) && InGraph(v, S) && Isomorphic(phi, v, r)
    ensures Reachable(v, S) <= phi.Keys
  {
    IsomorphicClosed(phi, v, r);
    forall o | o in Reachable(v, S) ensures o in phi {
      var path :| Follow(v, path, S) == Some(Ref(o));
      ReachableIsLeast(v, path, phi.Keys, S);
    }
  }

  /** A call as callers make it, with a new cache. The finite heap around `v` is `S`. Nothing that
      existed before the call changes, because the method modifies nothing. */
  method DeepCopy(v: Value, ghost S: set<Obj>) returns (r: Value, ghost phi: map<Obj, Obj>)
    requires Closed(S) && InGraph(v, S)
    ensures Isomorphic(phi, v, r)
    ensures phi.Keys == Reachable(v, S)
    ensures fresh(phi.Values)
  {
    var cache := new Cache();
    ghost var live := Reachable(v, S);
    ReachableIsClosed(v, S);
    assert Pairs(cache.entries) == {};
    r := CopyInto(v, cache, live);
    assert live == Reachable(v, S);
    phi := CacheIsCopy(Pairs(cache.entries), v, r, S);
  }

  lemma CacheIsCopy(pairs: set<Entry>, v: Value, r: Value, S: set<Obj>) returns (phi: map<Obj, Obj>)
    requires Closed(S) && InGraph(v, S) && OneToOne(pairs, Reachable(v, S)) && AllCopied({}, pairs) && ImageOf(v, r, pairs)
    ensures Isomorphic(phi, v, r) && phi.Keys == Reachable(v, S) && phi.Values == Copies(pairs)
  {
    phi := CacheIsIsomorphism(pairs, Reachable(v, S), v, r);
    CacheHoldsReachable(phi, v, r, S);
  }

  lemma IsomorphicClosed(phi: map<Obj, Obj>, v: Value, r: Value)
    requires Isomorphic(phi, v, r)
    ensures Closed(phi.Keys) && InGraph(v, phi.Keys)
    ensures Closed(phi.Values) && InGraph(r, phi.Values)
  {
    forall c, k | c in phi.Values && k in c.fields ensures InGraph(c.fields[k], phi.Values) {
      var o :| o in phi && phi[o] == c;
      assert MapsTo(phi, o.fields[k], c.fields[k]);
    }
  }

  /** Every access path leads to corresponding places in the original and in the copy. */
  lemma {:induction false} PathsCorrespond(phi: map<Obj, Obj>, v: Value, r: Value, path: seq<string>)
    requires Isomorphic(phi, v, r)
    requires Closed(phi.Keys) && InGraph(v, phi.Keys) && Closed(phi.Values) && InGraph(r, phi.Values)
    ensures var there, here := Follow(v, path, phi.Keys), Follow(r, path, phi.Values);
            (there.None? && here.None?) || (there.Some? && here.Some? && MapsTo(phi, there.value, here.value))
    decreases |path|
  {
    if path != [] && v.Ref? && path[0] in v.o.fields {
      PathsCorrespond(phi, v.o.fields[path[0]], r.o.fields[path[0]], path[1..]);
    }
  }

  /** Sharing and cycles survive: two access paths meet in the copy exactly when they meet in the original. */
  lemma AliasingPreserved(phi: map<Obj, Obj>, v: Value, r: Value, path: seq<string>, path': seq<string>)
    requires Isomorphic(phi, v, r)
    requires Closed(phi.Keys) && InGraph(v, phi.Keys) && Closed(phi.Values) && InGraph(r, phi.Values)
    ensures Follow(v, path, phi.Keys) == Follow(v, path', phi.Keys) <==>
            Follow(r, path, phi.Values) == Follow(r, path', phi.Values)
  {
    var there, here := Follow(v, path, phi.Keys), Follow(r, path, phi.Values);
    var there', here' := Follow(v, path', phi.Keys), Follow(r, path', phi.Values);
    PathsCorrespond(phi, v, r, path);
    PathsCorrespond(phi, v, r, path');
    if there.Some? && there'.Some? {
      MapsToInjective(phi, there.value, here.value, there'.value, here'.value);
    }
  }

  lemma MapsToInjective(phi: map<Obj, Obj>, v: Value, r: Value, v': Value, r': Value)
    requires Injective(phi) && MapsTo(phi, v, r) && MapsTo(phi, v', r')
    ensures v == v' <==> r == r'
  {
  }
}
