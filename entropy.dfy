/** The offline Λ-cost measure of gate-sw/og-entropy.py: a fixed 256-entry
    table of per-byte costs in picojoules and their sum over a blob, computed
    with Python's unbounded integers. */
module Entropy {
  import opened Bytes
  import opened Tables

  // The rows of `LAMBDA_TABLE`, one per source line.
  const ControlRow: seq<nat> := Zeros(32)
  const PunctuationRow: seq<nat> := [50, 100, 100, 150, 100, 100, 100, 50, 150, 150, 100, 200, 50, 50, 50, 100]
  const DigitRow: seq<nat> := [200, 180, 170, 160, 150, 140, 130, 120, 110, 100, 100, 100, 100, 100, 100, 100]
  const UpperRow0: seq<nat> := [150, 450, 420, 400, 380, 360, 350, 340, 330, 320, 310, 300, 290, 280, 270, 260]
  const UpperRow1: seq<nat> := [250, 240, 230, 220, 210, 200, 190, 180, 170, 160, 150, 100, 100, 100, 100, 100]
  const LowerRow0: seq<nat> := [150, 400, 380, 360, 340, 320, 300, 280, 260, 240, 220, 200, 180, 160, 140, 120]
  const LowerRow1: seq<nat> := [100, 90, 80, 70, 60, 50, 40, 30, 20, 10, 100, 100, 100, 100, 0, 0]
  /** `[0] * 128`: every byte of extended ASCII costs nothing. */
  const ExtendedRow: seq<nat> := Zeros(128)

  /** `LAMBDA_TABLE`, indexed by byte value. */
  const LambdaTable: CostTable :=
    ControlRow + PunctuationRow + DigitRow + UpperRow0 + UpperRow1 + LowerRow0 + LowerRow1 + ExtendedRow

  /** Every row of the table is bounded by `MaxByteCost`. */
  lemma RowsBounded()
    ensures EntriesAtMost(ControlRow, MaxByteCost) && EntriesAtMost(PunctuationRow, MaxByteCost)
    ensures EntriesAtMost(DigitRow, MaxByteCost)
    ensures EntriesAtMost(UpperRow0, MaxByteCost) && EntriesAtMost(UpperRow1, MaxByteCost)
    ensures EntriesAtMost(LowerRow0, MaxByteCost) && EntriesAtMost(LowerRow1, MaxByteCost)
    ensures EntriesAtMost(ExtendedRow, MaxByteCost)
  {
  }

  /** The table is bounded by `MaxByteCost`, and the bound is reached at
      'A'; 'B' costs 420. */
  lemma TableShape()
    ensures EntriesAtMost(LambdaTable, MaxByteCost)
    ensures LambdaTable[65] == MaxByteCost && LambdaTable[66] == 420
  {
    RowsBounded();
    var r0 := ControlRow + PunctuationRow;
    var r1 := r0 + DigitRow;
    var r2 := r1 + UpperRow0;
    var r3 := r2 + UpperRow1;
    var r4 := r3 + LowerRow0;
    var r5 := r4 + LowerRow1;
    assert LambdaTable == r5 + ExtendedRow;
    EntriesAtMostAppend(ControlRow, PunctuationRow, MaxByteCost);
    EntriesAtMostAppend(r0, DigitRow, MaxByteCost);
    EntriesAtMostAppend(r1, UpperRow0, MaxByteCost);
    EntriesAtMostAppend(r2, UpperRow1, MaxByteCost);
    EntriesAtMostAppend(r3, LowerRow0, MaxByteCost);
    EntriesAtMostAppend(r4, LowerRow1, MaxByteCost);
    EntriesAtMostAppend(r5, ExtendedRow, MaxByteCost);
  }

  /** Every byte of extended ASCII, 128 and up, costs 0. */
  lemma ExtendedFree()
    ensures forall b: byte :: b >= 128 ==> LambdaTable[b] == 0
  {
    var ascii := ControlRow + PunctuationRow + DigitRow + UpperRow0 + UpperRow1 + LowerRow0 + LowerRow1;
    assert |ascii| == 128;
    assert LambdaTable == ascii + ExtendedRow;
    forall b: byte | b >= 128
      ensures LambdaTable[b] == 0
    {
      assert LambdaTable[b] == ExtendedRow[b - 128];
    }
  }

  /** The Λ-cost of a blob: the sum of the table entries of its bytes. No blob
      costs more than `MaxByteCost` per byte. */
  function Cost(s: seq<byte>): (c: nat)
    ensures c <= MaxByteCost * |s|
  {
    TableShape();
    SumBound(LambdaTable, s, MaxByteCost);
    Sum(LambdaTable, s)
  }

  /** `compute_lambda_cost`: the running total starts at 0 and each byte adds
      its table entry. */
  method ComputeLambdaCost(data: seq<byte>) returns (total: nat)
    ensures total == Cost(data)
  {
    total := 0;
    for i := 0 to |data|
      invariant total == Cost(data[..i])
    {
      assert data[..i + 1][..i] == data[..i];
      total := total + LambdaTable[data[i]];
    }
    assert data[..|data|] == data;
  }

  /** Cost is additive over concatenation. */
  lemma {:induction false} CostAppend(a: seq<byte>, b: seq<byte>)
    ensures Cost(a + b) == Cost(a) + Cost(b)
  {
    SumAppend(LambdaTable, a, b);
  }

  /** Appending one byte adds exactly its table entry. */
  lemma {:induction false} CostSnoc(s: seq<byte>, x: byte)
    ensures Cost(s + [x]) == Cost(s) + LambdaTable[x]
  {
    SumSnoc(LambdaTable, s, x);
  }

  /** Cost depends only on the multiset of bytes, not on their order. */
  lemma {:induction false} CostPermutation(s: seq<byte>, t: seq<byte>)
    requires multiset(s) == multiset(t)
    ensures Cost(s) == Cost(t)
  {
    SumPermutation(LambdaTable, s, t);
  }

  /** Known vectors: one 'A' costs 450 pJ, "AB" costs 870 pJ. */
  lemma KnownVectors()
    ensures Cost([]) == 0
    ensures Cost([65]) == 450
    ensures Cost([65, 66]) == 870
  {
    TableShape();
    assert [65, 66][..1] == [65];
    assert [65][..0] == [];
  }
}
