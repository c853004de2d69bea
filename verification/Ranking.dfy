/**
 Numbering the selected places of a mask in order, and the inverse list; and flat indices of a grid.
 */
module Ranking {

  function CountTrue(mask: seq<bool>, n: nat): (c: nat)
    requires n <= |mask|
    ensures c <= n
  {
    if n == 0 then 0 else CountTrue(mask, n - 1) + if mask[n - 1] then 1 else 0
  }

  /** The selected places below n, in order. */
  function Members(mask: seq<bool>, n: nat): (r: seq<nat>)
    requires n <= |mask|
    ensures |r| == CountTrue(mask, n)
  {
    if n == 0 then [] else Members(mask, n - 1) + if mask[n - 1] then [n - 1] else []
  }

  /** Selected places carry their number, the others -1. */
  function Ranks(mask: seq<bool>): (r: seq<int>)
    ensures |r| == |mask|
    ensures forall i | 0 <= i < |mask| :: r[i] == if mask[i] then CountTrue(mask, i) else -1
  {
    seq(|mask|, i requires 0 <= i < |mask| => if mask[i] then CountTrue(mask, i) else -1)
  }

  lemma {:induction false} CountGrows(mask: seq<bool>, m: nat, n: nat)
    requires m <= n <= |mask|
    ensures CountTrue(mask, m) <= CountTrue(mask, n)
    ensures m < n && mask[m] ==> CountTrue(mask, m) < CountTrue(mask, n)
    decreases n - m
  {
    if m < n {
      CountGrows(mask, m + 1, n);
    }
  }

  lemma {:induction false} MemberAt(mask: seq<bool>, n: nat, i: nat)
    requires i < n <= |mask| && mask[i]
    ensures CountTrue(mask, i) < |Members(mask, n)| && Members(mask, n)[CountTrue(mask, i)] == i
  {
    CountGrows(mask, i, n);
    if i < n - 1 {
      MemberAt(mask, n - 1, i);
    }
  }

  lemma {:induction false} MembersAreSelected(mask: seq<bool>, n: nat, r: nat)
    requires n <= |mask| && r < |Members(mask, n)|
    ensures var i := Members(mask, n)[r]; i < n && mask[i] && CountTrue(mask, i) == r
  {
    if r < |Members(mask, n - 1)| {
      MembersAreSelected(mask, n - 1, r);
    }
  }

  /** Ranks and members are inverse to each other, and both keep the order. */
  lemma RankedBijection(mask: seq<bool>)
    ensures var rank := Ranks(mask); var members := Members(mask, |mask|);
            && (forall r | 0 <= r < |members| :: members[r] < |mask| && rank[members[r]] == r)
            && (forall i | 0 <= i < |mask| && mask[i] :: 0 <= rank[i] < |members| && members[rank[i]] == i)
            && (forall i | 0 <= i < |mask| && !mask[i] :: rank[i] == -1)
            && (forall r, q | 0 <= r < q < |members| :: members[r] < members[q])
  {
    var members := Members(mask, |mask|);
    forall r | 0 <= r < |members|
      ensures members[r] < |mask| && mask[members[r]] && Ranks(mask)[members[r]] == r
    {
      MembersAreSelected(mask, |mask|, r);
    }
    forall i | 0 <= i < |mask| && mask[i]
      ensures 0 <= Ranks(mask)[i] < |members| && members[Ranks(mask)[i]] == i
    {
      MemberAt(mask, |mask|, i);
    }
    forall r, q | 0 <= r < q < |members|
      ensures members[r] < members[q]
    {
      MembersAreSelected(mask, |mask|, r);
      MembersAreSelected(mask, |mask|, q);
      if members[q] <= members[r] {
        CountGrows(mask, members[q], members[r]);
      }
    }
  }

  /** The loop that numbers the selected places. */
  method Enumerate(mask: seq<bool>) returns (rank: seq<int>, members: seq<nat>)
    ensures rank == Ranks(mask) && members == Members(mask, |mask|)
  {
    rank, members := seq(|mask|, _ => -1), [];
    for i := 0 to |mask|
      invariant |rank| == |mask| && members == Members(mask, i)
      invariant forall k | 0 <= k < i :: rank[k] == Ranks(mask)[k]
      invariant forall k | i <= k < |mask| :: rank[k] == -1
    {
      if !mask[i] {
        continue;
      }
      rank := rank[i := |members|];
      members := members + [i];
    }
  }

  lemma {:induction false} CountPrefix(a: seq<bool>, b: seq<bool>, n: nat)
    requires n <= |a| && n <= |b| && forall i | 0 <= i < n :: a[i] == b[i]
    ensures CountTrue(a, n) == CountTrue(b, n) && Members(a, n) == Members(b, n)
  {
    if n > 0 {
      CountPrefix(a, b, n - 1);
    }
  }

  lemma {:induction false} NoneTrue(mask: seq<bool>, n: nat)
    requires n <= |mask| && forall i | 0 <= i < |mask| :: !mask[i]
    ensures CountTrue(mask, n) == 0
  {
    if n > 0 {
      NoneTrue(mask, n - 1);
    }
  }

  lemma {:induction false} AllTrue(mask: seq<bool>, n: nat)
    requires n <= |mask| && forall i | 0 <= i < |mask| :: mask[i]
    ensures CountTrue(mask, n) == n
  {
    if n > 0 {
      AllTrue(mask, n - 1);
    }
  }

  lemma {:induction false} CountSet(mask: seq<bool>, i: nat, n: nat)
    requires i < |mask| && !mask[i] && n <= |mask|
    ensures CountTrue(mask[i := true], n) == CountTrue(mask, n) + if i < n then 1 else 0
  {
    if n > 0 {
      CountSet(mask, i, n - 1);
    }
  }

  // ---------------------------------------------------------------------------------------------
  // A grid with `width` columns, stored flat.

  function Flat(d: nat, n: nat, width: nat): nat {
    d * width + n
  }

  function Row(f: nat, width: nat): nat
    requires width > 0
  {
    f / width
  }

  function Column(f: nat, width: nat): (n: nat)
    requires width > 0
    ensures n < width
  {
    f % width
  }

  lemma Monotone(a: nat, b: nat, width: nat)
    ensures a <= b ==> a * width <= b * width
  {
  }

  lemma RowFits(d: nat, rows: nat, width: nat)
    requires d < rows
    ensures d * width + width <= rows * width && (d + 1) * width == d * width + width
  {
    Monotone(d + 1, rows, width);
    assert (d + 1) * width == d * width + width;
  }

  lemma FlatInside(d: nat, n: nat, rows: nat, width: nat)
    requires d < rows && n < width
    ensures Flat(d, n, width) < rows * width
  {
    Monotone(d + 1, rows, width);
    assert (d + 1) * width == d * width + width;
  }

  lemma RowInside(f: nat, rows: nat, width: nat)
    requires width > 0 && f < rows * width
    ensures Row(f, width) < rows
  {
    assert f == (f / width) * width + f % width;
    Monotone(rows, f / width, width);
  }

  /** A flat index is one row and one column, and flat order is row by row. */
  lemma FlatIs(f: nat, d: nat, n: nat, width: nat)
    requires n < width
    ensures f == Flat(d, n, width) <==> Row(f, width) == d && Column(f, width) == n
  {
    var q := f / width;
    assert f == q * width + f % width;
    Monotone(q + 1, d, width);
    Monotone(d + 1, q, width);
    assert (q + 1) * width == q * width + width;
    assert (d + 1) * width == d * width + width;
  }
}
