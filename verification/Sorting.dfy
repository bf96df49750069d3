/** Library sorting as a specification: in order, and a rearrangement of the input. */
module Sorting {

  ghost predicate TotalOrder<T(!new)>(le: (T, T) -> bool) {
    && (forall a, b :: le(a, b) || le(b, a))
    && (forall a, b, c :: le(a, b) && le(b, c) ==> le(a, c))
  }

  ghost predicate SortedBy<T>(s: seq<T>, le: (T, T) -> bool) {
    forall i, j :: 0 <= i < j < |s| ==> le(s[i], s[j])
  }

  ghost predicate Permutation<T>(a: seq<T>, b: seq<T>) {
    multiset(a) == multiset(b)
  }

  function Placed<T>(x: T, s: seq<T>, le: (T, T) -> bool): seq<T> {
    if s == [] || le(x, s[0]) then [x] + s else [s[0]] + Placed(x, s[1..], le)
  }

  function Arranged<T>(s: seq<T>, le: (T, T) -> bool): seq<T> {
    if s == [] then [] else Placed(s[0], Arranged(s[1..], le), le)
  }

  lemma {:induction false} PlacedSorted<T(!new)>(x: T, s: seq<T>, le: (T, T) -> bool)
    requires TotalOrder(le) && SortedBy(s, le)
    ensures SortedBy(Placed(x, s, le), le) && multiset(Placed(x, s, le)) == multiset(s) + multiset{x}
  {
    if s == [] {
    } else if le(x, s[0]) {
      assert forall j :: 0 < j < |s| ==> le(s[0], s[j]);
    } else {
      assert SortedBy(s[1..], le);
      PlacedSorted(x, s[1..], le);
      assert s == [s[0]] + s[1..];
      var r := Placed(x, s[1..], le);
      assert |r| == |multiset(r)| == |s|;
      forall i | 0 <= i < |r| ensures le(s[0], r[i]) {
        assert r[i] in multiset(r);
        assert r[i] == x || r[i] in s[1..];
      }
    }
  }

  lemma {:induction false} ArrangedSorted<T(!new)>(s: seq<T>, le: (T, T) -> bool)
    requires TotalOrder(le)
    ensures SortedBy(Arranged(s, le), le) && Permutation(s, Arranged(s, le))
  {
    if s != [] {
      ArrangedSorted(s[1..], le);
      PlacedSorted(s[0], Arranged(s[1..], le), le);
      assert s == [s[0]] + s[1..];
    }
  }

  /** A library sort; the contract leaves the order of equal elements open. */
  method Sort<T(!new)>(s: seq<T>, le: (T, T) -> bool) returns (r: seq<T>)
    requires TotalOrder(le)
    ensures SortedBy(r, le) && Permutation(s, r) && |r| == |s|
  {
    ArrangedSorted(s, le);
    r := Arranged(s, le);
    assert |r| == |multiset(r)| == |multiset(s)|;
  }

  function Without<T>(s: seq<T>, k: nat): seq<T>
    requires k < |s|
  {
    s[..k] + s[k + 1..]
  }

  lemma WithoutOne<T>(s: seq<T>, k: nat)
    requires k < |s|
    ensures multiset(Without(s, k)) == multiset(s) - multiset{s[k]}
  {
    assert s == s[..k] + [s[k]] + s[k + 1..];
  }

  /** Two positions of one list and the same two values in a rearrangement of it. */
  lemma PairPermutes<T>(a: seq<T>, b: seq<T>, i: nat, j: nat) returns (k: nat, l: nat)
    requires Permutation(a, b) && i < j < |a|
    ensures k < |b| && l < |b| && k != l && b[k] == a[i] && b[l] == a[j]
  {
    assert a[i] in multiset(b);
    k :| k < |b| && b[k] == a[i];
    WithoutOne(a, i);
    WithoutOne(b, k);
    assert Without(a, i)[j - 1] == a[j];
    assert a[j] in multiset(Without(a, i));
    assert a[j] in multiset(Without(b, k));
    var m: nat :| m < |Without(b, k)| && Without(b, k)[m] == a[j];
    l := if m < k then m else m + 1;
  }

  function Mapped<T, U>(f: T -> U, s: seq<T>): (r: seq<U>)
    ensures |r| == |s|
  {
    seq(|s|, i requires 0 <= i < |s| => f(s[i]))
  }

  lemma MapAppend<T, U>(f: T -> U, s: seq<T>, x: T)
    ensures Mapped(f, s + [x]) == Mapped(f, s) + [f(x)]
  {}

  lemma MappedWithout<T, U>(f: T -> U, s: seq<T>, k: nat)
    requires k < |s|
    ensures multiset(Mapped(f, s)) == multiset(Mapped(f, Without(s, k))) + multiset{f(s[k])}
  {
    assert Mapped(f, Without(s, k)) == Without(Mapped(f, s), k);
    WithoutOne(Mapped(f, s), k);
    assert f(s[k]) == Mapped(f, s)[k];
  }

  /** Mapping a rearrangement rearranges the images. */
  lemma {:induction false} MappedPermutes<T, U>(f: T -> U, a: seq<T>, b: seq<T>)
    requires Permutation(a, b)
    ensures Permutation(Mapped(f, a), Mapped(f, b))
  {
    if a == [] {
      assert |b| == |multiset(b)| == 0;
    } else {
      assert a[0] in multiset(b);
      var k :| 0 <= k < |b| && b[k] == a[0];
      WithoutOne(a, 0);
      WithoutOne(b, k);
      MappedPermutes(f, Without(a, 0), Without(b, k));
      MappedWithout(f, a, 0);
      MappedWithout(f, b, k);
    }
  }
}
