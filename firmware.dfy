/** The firmware checker gate-core/fw/gate.c: its own copy of the Λ-table,
    a `uint32_t` cost loop that stops as soon as the running total passes
    `BUDGET_HARD_MAX`, and the `validate_cert` guard chain with return codes
    0 (valid) and -1 .. -4. */
module Firmware {
  import opened Bytes
  import opened GateHeader
  import opened Tables

  // The initialisers of `LAMBDA_TABLE`, one constant per source line and
  // one group per source comment.
  const ControlChars: seq<nat> := Zeros(32)
  const Punctuation0: seq<nat> := [50, 100, 100, 150, 100, 100, 100, 50]
  const Punctuation1: seq<nat> := [150, 150, 100, 200, 50, 50, 50, 100]
  const Punctuation: seq<nat> := Punctuation0 + Punctuation1
  const Numbers0: seq<nat> := [200, 180, 170, 160, 150, 140, 130, 120]
  const Numbers1: seq<nat> := [110, 100, 100, 100, 100, 100, 100, 100]
  const Numbers: seq<nat> := Numbers0 + Numbers1
  const UpperCase0: seq<nat> := [150, 450, 420, 400, 380, 360, 350, 340]
  const UpperCase1: seq<nat> := [330, 320, 310, 300, 290, 280, 270, 260]
  const UpperCase2: seq<nat> := [250, 240, 230, 220, 210, 200, 190, 180]
  const UpperCase3: seq<nat> := [170, 160, 150, 100, 100, 100, 100, 100]
  const UpperCase: seq<nat> := UpperCase0 + UpperCase1 + UpperCase2 + UpperCase3
  const LowerCase0: seq<nat> := [150, 400, 380, 360, 340, 320, 300, 280]
  const LowerCase1: seq<nat> := [260, 240, 220, 200, 180, 160, 140, 120]
  const LowerCase2: seq<nat> := [100, 90, 80, 70, 60, 50, 40, 30]
  const LowerCase3: seq<nat> := [20, 10, 100, 100, 100, 100, 0, 0]
  const LowerCase: seq<nat> := LowerCase0 + LowerCase1 + LowerCase2 + LowerCase3
  const Initializers: seq<nat> := ControlChars + Punctuation + Numbers + UpperCase + LowerCase

  /** `const uint32_t LAMBDA_TABLE[256]`: C sets every element without an
      initialiser to 0. */
  const LambdaTable: CostTable := Initializers + Zeros(256 - |Initializers|)

  /** Every initialiser line is bounded by `MaxByteCost`. */
  lemma LinesBounded()
    ensures EntriesAtMost(Punctuation0, MaxByteCost) && EntriesAtMost(Punctuation1, MaxByteCost)
    ensures EntriesAtMost(Numbers0, MaxByteCost) && EntriesAtMost(Numbers1, MaxByteCost)
    ensures EntriesAtMost(UpperCase0, MaxByteCost) && EntriesAtMost(UpperCase1, MaxByteCost)
    ensures EntriesAtMost(UpperCase2, MaxByteCost) && EntriesAtMost(UpperCase3, MaxByteCost)
    ensures EntriesAtMost(LowerCase0, MaxByteCost) && EntriesAtMost(LowerCase1, MaxByteCost)
    ensures EntriesAtMost(LowerCase2, MaxByteCost) && EntriesAtMost(LowerCase3, MaxByteCost)
  {
  }

  /** Every initialiser group is bounded by `MaxByteCost`. */
  lemma GroupsBounded()
    ensures EntriesAtMost(ControlChars, MaxByteCost) && EntriesAtMost(Punctuation, MaxByteCost)
    ensures EntriesAtMost(Numbers, MaxByteCost)
    ensures EntriesAtMost(UpperCase, MaxByteCost) && EntriesAtMost(LowerCase, MaxByteCost)
  {
    LinesBounded();
    EntriesAtMostAppend(Punctuation0, Punctuation1, MaxByteCost);
    EntriesAtMostAppend(Numbers0, Numbers1, MaxByteCost);
    EntriesAtMostAppend(UpperCase0, UpperCase1, MaxByteCost);
    EntriesAtMostAppend(UpperCase0 + UpperCase1, UpperCase2, MaxByteCost);
    EntriesAtMostAppend(UpperCase0 + UpperCase1 + UpperCase2, UpperCase3, MaxByteCost);
    EntriesAtMostAppend(LowerCase0, LowerCase1, MaxByteCost);
    EntriesAtMostAppend(LowerCase0 + LowerCase1, LowerCase2, MaxByteCost);
    EntriesAtMostAppend(LowerCase0 + LowerCase1 + LowerCase2, LowerCase3, MaxByteCost);
  }

  /** No entry exceeds `MaxByteCost`, so one step of the loop adds at most that. */
  lemma TableBound()
    ensures EntriesAtMost(LambdaTable, MaxByteCost)
  {
    GroupsBounded();
    var g0 := ControlChars + Punctuation;
    var g1 := g0 + Numbers;
    var g2 := g1 + UpperCase;
    assert Initializers == g2 + LowerCase;
    EntriesAtMostAppend(ControlChars, Punctuation, MaxByteCost);
    EntriesAtMostAppend(g0, Numbers, MaxByteCost);
    EntriesAtMostAppend(g1, UpperCase, MaxByteCost);
    EntriesAtMostAppend(g2, LowerCase, MaxByteCost);
    EntriesAtMostAppend(Initializers, Zeros(256 - |Initializers|), MaxByteCost);
  }

  /** The firmware table summed over a buffer with unbounded integers: what
      the loop computes when neither the early exit nor the 32-bit
      wrap-around intervenes. */
  function FullSum(s: seq<byte>): nat {
    Sum(LambdaTable, s)
  }

  /** `uint32_t` addition wraps around modulo 2^32. */
  function Wrap32(x: nat): u32 {
    x % TwoTo32
  }

  /** The loop of `compute_lambda_cost` over table `t` from index `i` with
      running total `total`: add the next entry modulo 2^32 and return at
      once when the total passes `BUDGET_HARD_MAX`. */
  function Scan(t: CostTable, data: seq<byte>, i: nat, total: u32): u32
    requires i <= |data|
    decreases |data| - i
  {
    if i == |data| then total
    else
      var next := Wrap32(total + t[data[i]]);
      if next > BudgetHardMax then next else Scan(t, data, i + 1, next)
  }

  /** One iteration of the loop. */
  lemma ScanStep(t: CostTable, data: seq<byte>, i: nat, total: u32)
    requires i < |data|
    ensures var next := Wrap32(total + t[data[i]]);
      Scan(t, data, i, total) == if next > BudgetHardMax then next else Scan(t, data, i + 1, next)
  {
  }

  /** What the firmware's `compute_lambda_cost` returns for a buffer. */
  function FirmwareCost(data: seq<byte>): u32 {
    Scan(LambdaTable, data, 0, 0)
  }

  /** Below 2^32 the wrap-around changes nothing. */
  lemma NoWrap(x: nat)
    requires x < TwoTo32
    ensures Wrap32(x) == x
  {
  }

  /** The scan from a prefix whose sum is still within `BUDGET_HARD_MAX`
      never wraps: it returns the full sum if that stays within the limit,
      and otherwise the first prefix sum above the limit, which is at most
      `MaxByteCost` past it. */
  lemma {:induction false} ScanSpec(t: CostTable, data: seq<byte>, i: nat, total: u32)
    requires EntriesAtMost(t, MaxByteCost)
    requires i <= |data|
    requires total == Sum(t, data[..i]) <= BudgetHardMax
    ensures Sum(t, data) <= BudgetHardMax ==> Scan(t, data, i, total) == Sum(t, data)
    ensures Sum(t, data) > BudgetHardMax ==>
      exists k :: i < k <= |data| && Scan(t, data, i, total) == Sum(t, data[..k]) &&
        Sum(t, data[..k - 1]) <= BudgetHardMax < Sum(t, data[..k]) <= BudgetHardMax + MaxByteCost
    decreases |data| - i
  {
    if i == |data| {
      assert data[..i] == data;
    } else {
      var x := data[i];
      var sum := total + t[x];
      assert t[x] <= MaxByteCost;
      assert data[..i + 1] == data[..i] + [x];
      SumSnoc(t, data[..i], x);
      NoWrap(sum);
      ScanStep(t, data, i, total);
      if sum > BudgetHardMax {
        SumPrefixMonotone(t, data, i + 1);
        assert data[..i + 1][..i] == data[..i];
        assert Scan(t, data, i, total) == Sum(t, data[..i + 1]);
      } else {
        ScanSpec(t, data, i + 1, sum);
      }
    }
  }

  /** The scan of a whole buffer over any table bounded by `MaxByteCost`. */
  lemma ScanWhole(t: CostTable, data: seq<byte>)
    requires EntriesAtMost(t, MaxByteCost)
    ensures Sum(t, data) <= BudgetHardMax ==> Scan(t, data, 0, 0) == Sum(t, data)
    ensures Sum(t, data) > BudgetHardMax ==>
      BudgetHardMax < Scan(t, data, 0, 0) <= BudgetHardMax + MaxByteCost &&
      exists k :: 0 < k <= |data| && Scan(t, data, 0, 0) == Sum(t, data[..k]) &&
        Sum(t, data[..k - 1]) <= BudgetHardMax
  {
    assert data[..0] == [];
    ScanSpec(t, data, 0, 0);
  }

  /** The early exit and the 32-bit total together: if the full sum is within
      `BUDGET_HARD_MAX` the firmware cost is that sum; otherwise it is the
      first prefix sum above the limit, which lies in
      (BUDGET_HARD_MAX, BUDGET_HARD_MAX + 450]. The total never wraps. */
  lemma FirmwareCostSpec(data: seq<byte>)
    ensures FullSum(data) <= BudgetHardMax ==> FirmwareCost(data) == FullSum(data)
    ensures FullSum(data) > BudgetHardMax ==>
      BudgetHardMax < FirmwareCost(data) <= BudgetHardMax + MaxByteCost &&
      exists k :: 0 < k <= |data| && FirmwareCost(data) == FullSum(data[..k]) &&
        FullSum(data[..k - 1]) <= BudgetHardMax
  {
    TableBound();
    ScanWhole(LambdaTable, data);
  }

  /** The loop of `compute_lambda_cost` over table `t`: add each entry to a
      `uint32_t` total and return as soon as it passes `BUDGET_HARD_MAX`. */
  method CostLoop(t: CostTable, data: seq<byte>) returns (total: u32)
    ensures total == Scan(t, data, 0, 0)
  {
    total := 0;
    var i := 0;
    while i < |data|
      invariant i <= |data|
      invariant Scan(t, data, i, total) == Scan(t, data, 0, 0)
    {
      ScanStep(t, data, i, total);
      total := Wrap32(total + t[data[i]]);
      if total > BudgetHardMax {
        return;
      }
      i := i + 1;
    }
  }

  /** `compute_lambda_cost(data, len)`: the loop over `LAMBDA_TABLE`. */
  method ComputeLambdaCost(data: seq<byte>) returns (total: u32)
    ensures total == FirmwareCost(data)
    ensures FullSum(data) <= BudgetHardMax ==> total == FullSum(data)
    ensures FullSum(data) > BudgetHardMax ==> BudgetHardMax < total <= BudgetHardMax + MaxByteCost
  {
    total := CostLoop(LambdaTable, data);
    FirmwareCostSpec(data);
  }

  /** `gate_cert_t` as the firmware sees it. */
  datatype GateCert = GateCert(
    magic: Tag, budget: u32, hardMax: u32, epsilon: u32,
    parentHash: seq<byte>, patchHash: seq<byte>, signature: seq<byte>, reserved: seq<byte>)

  /** A 512-byte certificate read as a packed `gate_cert_t` on a
      little-endian target, at the offsets of gate.h. The last member takes
      the 368 reserved bytes of the 512-byte wire layout, not the 372 that
      gate.h declares, which would reach past the buffer. */
  function FromWire(buf: seq<byte>): (c: GateCert)
    requires |buf| == CertSize
    ensures |c.parentHash| == 32 && |c.patchHash| == 32
    ensures |c.signature| == 64 && |c.reserved| == 368
  {
    GateCert(
      buf[MagicOffset..BudgetOffset],
      UnpackU32(buf[BudgetOffset..HardMaxOffset]),
      UnpackU32(buf[HardMaxOffset..EpsilonOffset]),
      UnpackU32(buf[EpsilonOffset..ParentHashOffset]),
      buf[ParentHashOffset..PatchHashOffset],
      buf[PatchHashOffset..SignatureOffset],
      buf[SignatureOffset..ReservedOffset],
      buf[ReservedOffset..CertSize])
  }

  /** `validate_cert(cert, patch, patch_len)`. */
  function ValidateCert(cert: GateCert, patch: seq<byte>): (code: int)
    ensures code in {0, -1, -2, -3, -4}
  {
    if cert.magic != Magic then -1
    else if cert.budget > BudgetHardMax then -2
    else if cert.epsilon > EpsilonMax then -3
    else if FirmwareCost(patch) > cert.budget then -4
    else 0
  }

  /** The firmware verdict in terms of the unbounded sum: the early exit never
      changes it, because by the time the cost is compared the budget is at
      most `BUDGET_HARD_MAX`. A bad magic gives -1 whatever the other fields
      hold; the budget is compared with the constant `BUDGET_HARD_MAX`, never
      with the certificate's own `hard_max`. */
  lemma ValidateCertVerdict(cert: GateCert, patch: seq<byte>)
    ensures cert.magic != Magic ==> ValidateCert(cert, patch) == -1
    ensures cert.magic == Magic && cert.budget > BudgetHardMax ==> ValidateCert(cert, patch) == -2
    ensures cert.magic == Magic && cert.budget <= BudgetHardMax && cert.epsilon > EpsilonMax ==>
      ValidateCert(cert, patch) == -3
    ensures ValidateCert(cert, patch) == -4 <==>
      cert.magic == Magic && cert.budget <= BudgetHardMax && cert.epsilon <= EpsilonMax &&
      FullSum(patch) > cert.budget
    ensures ValidateCert(cert, patch) == 0 <==>
      cert.magic == Magic && cert.budget <= BudgetHardMax && cert.epsilon <= EpsilonMax &&
      FullSum(patch) <= cert.budget
  {
    FirmwareCostSpec(patch);
  }
}
