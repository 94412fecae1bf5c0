/** Optional values; sequences without repetition and the sets of their elements. */
module Basics {
  datatype Option<+T> = None | Some(value: T)

  predicate Distinct<T(==)>(xs: seq<T>) {
    forall i, j :: 0 <= i < j < |xs| ==> xs[i] != xs[j]
  }

  function SetOf<T(==)>(xs: seq<T>): set<T> {
    set x | x in xs
  }

  lemma {:induction false} SizeOfSet<T>(xs: seq<T>)
    ensures |SetOf(xs)| <= |xs|
    ensures Distinct(xs) ==> |SetOf(xs)| == |xs|
  {
    if xs != [] {
      var rest, x := xs[..|xs| - 1], xs[|xs| - 1];
      SizeOfSet(rest);
      assert xs == rest + [x];
      assert SetOf(xs) == SetOf(rest) + {x};
    }
  }

  lemma {:induction false} DistinctBySize<T>(xs: seq<T>)
    ensures |SetOf(xs)| == |xs| <==> Distinct(xs)
  {
    SizeOfSet(xs);
    if |SetOf(xs)| == |xs| && xs != [] {
      var rest, x := xs[..|xs| - 1], xs[|xs| - 1];
      assert xs == rest + [x];
      assert SetOf(xs) == SetOf(rest) + {x};
      SizeOfSet(rest);
      DistinctBySize(rest);
      assert x !in SetOf(rest);
    }
  }

  lemma SubsetSize<T>(A: set<T>, B: set<T>)
    requires A <= B
    ensures |A| <= |B|
    ensures |A| == |B| ==> A == B
  {
    assert B == A + (B - A);
    assert |B| == |A| + |B - A|;
  }

  /** Two sequences without repetition, of one length, one within the other, have the same elements. */
  lemma Pigeonhole<T>(xs: seq<T>, ys: seq<T>)
    requires Distinct(xs) && Distinct(ys)
    ensures |xs| == |ys| && SetOf(xs) <= SetOf(ys) <==> SetOf(xs) == SetOf(ys)
  {
    SizeOfSet(xs);
    SizeOfSet(ys);
    if SetOf(xs) <= SetOf(ys) {
      SubsetSize(SetOf(xs), SetOf(ys));
    }
  }

  lemma DistinctJoin<T>(a: seq<T>, b: seq<T>)
    requires Distinct(a) && Distinct(b) && forall x :: x in a ==> x !in b
    ensures Distinct(a + b)
  {
    var c := a + b;
    forall i, j | 0 <= i < j < |c| ensures c[i] != c[j] {
      if i < |a| <= j {
        assert c[i] in a && c[j] in b;
      }
    }
  }

  /** Where `x` occurs first. */
  function First<T(==)>(xs: seq<T>, x: T): (i: nat)
    requires x in xs
    ensures i < |xs| && xs[i] == x && x !in xs[..i]
  {
    var n := |xs| - 1;
    if x in xs[..n] then
      assert xs[..n][..First(xs[..n], x)] == xs[..First(xs[..n], x)];
      First(xs[..n], x)
    else n
  }

  /** The elements without later repetitions, in the order of a JavaScript `Set`. */
  function Dedup<T(==)>(xs: seq<T>): (r: seq<T>)
    ensures Distinct(r) && SetOf(r) == SetOf(xs)
  {
    if xs == [] then []
    else
      var rest, last := Dedup(xs[..|xs| - 1]), xs[|xs| - 1];
      assert SetOf(xs) == SetOf(rest) + {last} by {
        assert xs == xs[..|xs| - 1] + [last];
        assert SetOf(xs) == SetOf(xs[..|xs| - 1]) + {last};
      }
      assert last in rest <==> last in SetOf(rest);
      if last in rest then rest
      else
        assert SetOf(rest + [last]) == SetOf(rest) + {last};
        rest + [last]
  }

  /** They stay in the order in which they first occur. */
  lemma {:induction false} DedupOrder<T>(xs: seq<T>, i: nat, j: nat)
    requires i < j < |Dedup(xs)|
    ensures Dedup(xs)[i] in xs && Dedup(xs)[j] in xs && First(xs, Dedup(xs)[i]) < First(xs, Dedup(xs)[j])
  {
    var r, init := Dedup(xs), xs[..|xs| - 1];
    DedupMember(xs, i);
    DedupMember(xs, j);
    if j < |Dedup(init)| {
      DedupOrder(init, i, j);
    } else {
      DedupMember(init, i);
      assert r[j] !in Dedup(init);
      assert r[j] !in init by { assert r[j] !in SetOf(Dedup(init)); }
    }
  }

  predicate Precedes<T(==)>(xs: seq<T>, x: T, y: T) {
    x in xs && y in xs && First(xs, x) < First(xs, y)
  }

  /** The elements of `r` occur in `xs`, and first in this order. */
  predicate InOrderOf<T(==)>(r: seq<T>, xs: seq<T>) {
    forall i, j :: 0 <= i < j < |r| ==> Precedes(xs, r[i], r[j])
  }

  lemma DedupInOrder<T>(xs: seq<T>)
    ensures InOrderOf(Dedup(xs), xs)
  {
    var r := Dedup(xs);
    forall i, j | 0 <= i < j < |r| ensures Precedes(xs, r[i], r[j]) {
      DedupOrder(xs, i, j);
    }
  }

  lemma DedupMember<T>(xs: seq<T>, i: nat)
    requires i < |Dedup(xs)|
    ensures Dedup(xs)[i] in xs
  {
    assert Dedup(xs)[i] in SetOf(Dedup(xs));
  }

  lemma JoinAssociates<T>(a: seq<T>, b: seq<T>, c: seq<T>)
    ensures (a + b) + c == a + (b + c)
  {
  }

  lemma JoinsAssociate<T>(a: seq<T>, b: seq<T>, c: seq<T>, d: seq<T>)
    ensures a + b + c + d == a + (b + (c + d))
  {
  }
}
