/**
 What the calls of `std::sort` promise: some permutation of the input in descending order of a level.
 Callers see only this contract, so nothing depends on how elements of equal level are ordered.
 */
module Sorting {

  /** A strength in dB; cells outside the map count as minus infinity. */
  datatype Level = MinusInfinity | Db(value: real)

  predicate Above(a: Level, b: Level) {
    a.Db? && (b.MinusInfinity? || a.value > b.value)
  }

  ghost predicate Descending<T(!new)>(s: seq<T>, key: T -> Level) {
    forall i, j | 0 <= i < j < |s| :: !Above(key(s[j]), key(s[i]))
  }

  ghost predicate Permutation<T>(a: seq<T>, b: seq<T>) {
    multiset(a) == multiset(b)
  }

  lemma PermutationMembers<T>(a: seq<T>, b: seq<T>)
    requires Permutation(a, b)
    ensures |a| == |b|
    ensures forall x :: x in a <==> x in b
  {
    assert |multiset(a)| == |multiset(b)|;
    forall x
      ensures x in a <==> x in b
    {
      assert x in multiset(a) <==> x in multiset(b);
    }
  }

  lemma InsertedPermutation<T>(s: seq<T>, k: nat, x: T)
    requires k <= |s|
    ensures Permutation(s[..k] + [x] + s[k..], [x] + s)
  {
    assert s == s[..k] + s[k..];
  }

  lemma InsertedDescending<T(!new)>(s: seq<T>, k: nat, x: T, key: T -> Level)
    requires k <= |s| && Descending(s, key)
    requires k == 0 || !Above(key(x), key(s[k - 1]))
    requires forall i | k <= i < |s| :: Above(key(x), key(s[i]))
    ensures Descending(s[..k] + [x] + s[k..], key)
  {
    var r := s[..k] + [x] + s[k..];
    forall i, j | 0 <= i < j < |r|
      ensures !Above(key(r[j]), key(r[i]))
    {
      assert r[i] == if i < k then s[i] else if i == k then x else s[i - 1];
      assert r[j] == if j < k then s[j] else if j == k then x else s[j - 1];
    }
  }

  method Insert<T(!new)>(sorted: seq<T>, x: T, key: T -> Level) returns (r: seq<T>)
    requires Descending(sorted, key)
    ensures Descending(r, key) && Permutation(r, [x] + sorted)
  {
    var k := |sorted|;
    while k > 0 && Above(key(x), key(sorted[k - 1]))
      invariant 0 <= k <= |sorted|
      invariant forall i | k <= i < |sorted| :: Above(key(x), key(sorted[i]))
    {
      k := k - 1;
    }
    InsertedDescending(sorted, k, x, key);
    InsertedPermutation(sorted, k, x);
    r := sorted[..k] + [x] + sorted[k..];
  }

  method Sort<T(!new)>(s: seq<T>, key: T -> Level) returns (r: seq<T>)
    ensures Descending(r, key) && Permutation(r, s)
  {
    r := [];
    for n := 0 to |s|
      invariant Descending(r, key) && Permutation(r, s[..n])
    {
      r := Insert(r, s[n], key);
      assert s[..n + 1] == s[..n] + [s[n]];
    }
    assert s[..|s|] == s;
  }
}
