/** The shape both `LAMBDA_TABLE`s share, in gate-sw/og-entropy.py and in
    gate-core/fw/gate.c: one non-negative cost in picojoules per byte value,
    and the sum of a table's entries over a byte sequence. */
module Tables {
  import opened Bytes

  /** A cost table: one cost per byte value. */
  type CostTable = t: seq<nat> | |t| == 256 witness Zeros(256)

  /** The largest entry of both tables ('A' = 65 costs 450 pJ). */
  const MaxByteCost: nat := 450

  /** Every entry of `row` is at most `m`. */
  predicate EntriesAtMost(row: seq<nat>, m: nat) {
    forall i :: 0 <= i < |row| ==> row[i] <= m
  }

  /** Two bounded rows make a bounded table. */
  lemma EntriesAtMostAppend(a: seq<nat>, b: seq<nat>, m: nat)
    requires EntriesAtMost(a, m) && EntriesAtMost(b, m)
    ensures EntriesAtMost(a + b, m)
  {
  }

  /** Concatenation is associative. */
  lemma AppendAssoc(a: seq<nat>, b: seq<nat>, c: seq<nat>)
    ensures a + (b + c) == (a + b) + c
  {
  }

  /** The sum of the entries of `t` over the bytes of `s`, taken left to
      right (the last byte is added last). */
  function Sum(t: CostTable, s: seq<byte>): nat
  {
    if s == [] then 0 else Sum(t, s[..|s| - 1]) + t[s[|s| - 1]]
  }

  /** A table bounded by `m` sums to at most `m` per byte. */
  lemma {:induction false} SumBound(t: CostTable, s: seq<byte>, m: nat)
    requires EntriesAtMost(t, m)
    ensures Sum(t, s) <= m * |s|
  {
    if s != [] {
      SumBound(t, s[..|s| - 1], m);
    }
  }

  /** Appending one byte adds exactly its entry. */
  lemma SumSnoc(t: CostTable, s: seq<byte>, x: byte)
    ensures Sum(t, s + [x]) == Sum(t, s) + t[x]
  {
    assert (s + [x])[..|s|] == s;
  }

  /** The sum is additive over concatenation. */
  lemma {:induction false} SumAppend(t: CostTable, a: seq<byte>, b: seq<byte>)
    ensures Sum(t, a + b) == Sum(t, a) + Sum(t, b)
    decreases |b|
  {
    if b == [] {
      assert a + b == a;
    } else {
      var b' := b[..|b| - 1];
      assert (a + b)[..|a + b| - 1] == a + b';
      SumAppend(t, a, b');
    }
  }

  /** The sum depends only on the multiset of bytes, not on their order. */
  lemma {:induction false} SumPermutation(t: CostTable, s: seq<byte>, u: seq<byte>)
    requires multiset(s) == multiset(u)
    ensures Sum(t, s) == Sum(t, u)
    decreases |s|
  {
    if s == [] {
      assert |u| == |multiset(u)| == 0;
    } else {
      var x := s[|s| - 1];
      var s' := s[..|s| - 1];
      assert s == s' + [x];
      assert multiset(s) == multiset(s') + multiset{x};
      assert x in multiset(u);
      var k :| 0 <= k < |u| && u[k] == x;
      RemoveAt(u, k);
      SumPermutation(t, s', u[..k] + u[k + 1..]);
      SumRemoveAt(t, u, k);
    }
  }

  /** Taking out the element at `k` takes one copy of it out of the multiset. */
  lemma RemoveAt(u: seq<byte>, k: nat)
    requires k < |u|
    ensures multiset(u[..k] + u[k + 1..]) == multiset(u) - multiset{u[k]}
  {
    assert u == u[..k] + [u[k]] + u[k + 1..];
  }

  /** Taking out the element at `k` takes its entry out of the sum. */
  lemma SumRemoveAt(t: CostTable, u: seq<byte>, k: nat)
    requires k < |u|
    ensures Sum(t, u) == Sum(t, u[..k] + u[k + 1..]) + t[u[k]]
  {
    assert u == (u[..k] + [u[k]]) + u[k + 1..];
    SumAppend(t, u[..k] + [u[k]], u[k + 1..]);
    SumSnoc(t, u[..k], u[k]);
    SumAppend(t, u[..k], u[k + 1..]);
  }

  /** The sum over a prefix never exceeds the sum over the whole. */
  lemma {:induction false} SumPrefixMonotone(t: CostTable, s: seq<byte>, k: nat)
    requires k <= |s|
    ensures Sum(t, s[..k]) <= Sum(t, s)
    decreases |s| - k
  {
    if k < |s| {
      assert s[..k + 1][..k] == s[..k];
      SumPrefixMonotone(t, s, k + 1);
    } else {
      assert s[..k] == s;
    }
  }
}
