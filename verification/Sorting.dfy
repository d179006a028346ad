/** What sort.Slice and sort.Strings promise: a permutation in which no later element is smaller. */
module Sorting {

  /** A comparator sort.Slice accepts: asymmetric, and "not smaller" is transitive. */
  ghost predicate IsOrder<T(!new)>(less: (T, T) -> bool) {
    && (forall a, b :: less(a, b) ==> !less(b, a))
    && (forall a, b, c :: !less(b, a) && !less(c, b) ==> !less(c, a))
  }

  ghost predicate Sorted<T>(s: seq<T>, less: (T, T) -> bool) {
    forall i, j :: 0 <= i < j < |s| ==> !less(s[j], s[i])
  }

  method Sort<T(!new)>(s: seq<T>, less: (T, T) -> bool) returns (r: seq<T>)
    requires IsOrder(less)
    ensures multiset(r) == multiset(s) && |r| == |s|
    ensures Sorted(r, less)
  {
    r := [];
    for i := 0 to |s|
      invariant multiset(r) == multiset(s[..i]) && |r| == i
      invariant Sorted(r, less)
    {
      r := Insert(r, s[i], less);
      assert s[..i + 1] == s[..i] + [s[i]];
    }
    assert s[..|s|] == s;
  }

  method Insert<T(!new)>(s: seq<T>, x: T, less: (T, T) -> bool) returns (r: seq<T>)
    requires IsOrder(less) && Sorted(s, less)
    ensures multiset(r) == multiset(s) + multiset{x} && |r| == |s| + 1
    ensures Sorted(r, less)
  {
    var k := 0;
    while k < |s| && less(s[k], x)
      invariant 0 <= k <= |s|
      invariant forall i :: 0 <= i < k ==> less(s[i], x)
    {
      k := k + 1;
    }
    r := s[..k] + [x] + s[k..];
    assert s == s[..k] + s[k..];
    InsertedIsSorted(s, x, less, k);
  }

  lemma InsertedIsSorted<T(!new)>(s: seq<T>, x: T, less: (T, T) -> bool, k: nat)
    requires IsOrder(less) && Sorted(s, less) && k <= |s|
    requires forall i :: 0 <= i < k ==> less(s[i], x)
    requires k < |s| ==> !less(s[k], x)
    ensures Sorted(s[..k] + [x] + s[k..], less)
  {
    var r := s[..k] + [x] + s[k..];
    forall i, j | 0 <= i < j < |r|
      ensures !less(r[j], r[i])
    {
      if i == k {
        assert r[j] == s[j - 1] && (j - 1 == k || !less(s[j - 1], s[k]));
      } else if j == k {
        assert r[i] == s[i];
      } else {
        assert r[i] == s[if i < k then i else i - 1] && r[j] == s[if j < k then j else j - 1];
      }
    }
  }

  lemma WithoutOne<T>(s: seq<T>, k: nat)
    requires k < |s|
    ensures multiset(s[..k] + s[k + 1..]) + multiset{s[k]} == multiset(s)
  {
    assert s == s[..k] + [s[k]] + s[k + 1..];
  }

  lemma SameMembers<T>(a: seq<T>, b: seq<T>, x: T)
    requires multiset(a) == multiset(b) && x in a
    ensures x in b
  {
    assert x in multiset(a);
  }

  lemma CancelOne<T>(a: multiset<T>, b: multiset<T>, x: T)
    requires a + multiset{x} == b + multiset{x}
    ensures a == b
  {
    assert a == a + multiset{x} - multiset{x};
    assert b == b + multiset{x} - multiset{x};
  }
}
