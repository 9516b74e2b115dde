/** The firmware header gate-core/fw/gate.h: the budget constants and the
    packed `gate_cert_t` layout, as the list of its member sizes, whose
    prefix sums are the member offsets. */
module GateHeader {

  const BudgetDefault: nat := 300000
  const BudgetHardMax: nat := 1000000
  const EpsilonMax: nat := 50000

  /** The sizes in bytes of the members of `gate_cert_t` before `reserved`:
      magic, budget, hard_max, epsilon, parent_hash, patch_hash and
      signature. */
  const HeaderSizes: seq<nat> := [4, 4, 4, 4, 32, 32, 64]

  /** The members of `gate_cert_t` as declared, `reserved[372]` included. */
  const DeclaredSizes: seq<nat> := HeaderSizes + [372]

  /** The same members with the 368 reserved bytes the encoder writes, which
      is what a 512-byte certificate holds. */
  const WireSizes: seq<nat> := HeaderSizes + [368]

  /** The size the header comment promises. */
  const CertSize: nat := 512

  // Offsets of the members in a packed struct (no padding between members).
  const MagicOffset: nat := 0
  const BudgetOffset: nat := 4
  const HardMaxOffset: nat := 8
  const EpsilonOffset: nat := 12
  const ParentHashOffset: nat := 16
  const PatchHashOffset: nat := 48
  const SignatureOffset: nat := 80
  const ReservedOffset: nat := 144

  /** Total size of a packed struct with these members. */
  function TotalSize(sizes: seq<nat>): nat
  {
    if sizes == [] then 0 else TotalSize(sizes[..|sizes| - 1]) + sizes[|sizes| - 1]
  }

  /** Offset of each member: the sum of the sizes before it. */
  function Offsets(sizes: seq<nat>): (offs: seq<nat>)
    ensures |offs| == |sizes|
    ensures forall i :: 0 <= i < |sizes| ==> offs[i] == TotalSize(sizes[..i])
  {
    seq(|sizes|, i requires 0 <= i < |sizes| => TotalSize(sizes[..i]))
  }

  /** In a packed struct the member sizes add up to the struct size, member by
      member: the offset of member k + 1 is the offset of member k plus its
      size. */
  lemma {:induction false} OffsetStep(sizes: seq<nat>, k: nat)
    requires k < |sizes|
    ensures TotalSize(sizes[..k + 1]) == TotalSize(sizes[..k]) + sizes[k]
  {
    assert sizes[..k + 1][..k] == sizes[..k];
  }

  /** The members before `reserved` sit at offsets 0, 4, 8, 12, 16, 48 and
      80 and take 144 bytes. */
  lemma HeaderLayout()
    ensures Offsets(HeaderSizes) ==
      [MagicOffset, BudgetOffset, HardMaxOffset, EpsilonOffset,
       ParentHashOffset, PatchHashOffset, SignatureOffset]
    ensures TotalSize(HeaderSizes) == ReservedOffset
  {
    var f := HeaderSizes;
    var o := Offsets(f);
    assert f[..0] == [];
    OffsetStep(f, 0);
    OffsetStep(f, 1);
    OffsetStep(f, 2);
    OffsetStep(f, 3);
    OffsetStep(f, 4);
    OffsetStep(f, 5);
    OffsetStep(f, 6);
    assert f[..7] == f;
    assert o[0] == 0 && o[1] == 4 && o[2] == 8 && o[3] == 12;
    assert o[4] == 16 && o[5] == 48 && o[6] == 80;
  }

  /** Appending a last member keeps every earlier offset and puts the new
      member at the old total size. */
  lemma {:induction false} OffsetsSnoc(sizes: seq<nat>, last: nat)
    ensures Offsets(sizes + [last]) == Offsets(sizes) + [TotalSize(sizes)]
    ensures TotalSize(sizes + [last]) == TotalSize(sizes) + last
  {
    var g := sizes + [last];
    assert g[..|sizes|] == sizes;
    forall i | 0 <= i < |sizes|
      ensures Offsets(g)[i] == Offsets(sizes)[i]
    {
      assert g[..i] == sizes[..i];
    }
  }

  /** The members of `gate_cert_t` as declared sit at offsets
      0, 4, 8, 12, 16, 48, 80 and 144, but add up to 516 bytes, not the 512
      the header comment claims. */
  lemma DeclaredLayout()
    ensures Offsets(DeclaredSizes) ==
      [MagicOffset, BudgetOffset, HardMaxOffset, EpsilonOffset,
       ParentHashOffset, PatchHashOffset, SignatureOffset, ReservedOffset]
    ensures TotalSize(DeclaredSizes) == 516 != CertSize
  {
    HeaderLayout();
    OffsetsSnoc(HeaderSizes, 372);
  }

  /** With 368 reserved bytes the same members sit at the same offsets and
      fill exactly 512 bytes. */
  lemma WireLayout()
    ensures Offsets(WireSizes) ==
      [MagicOffset, BudgetOffset, HardMaxOffset, EpsilonOffset,
       ParentHashOffset, PatchHashOffset, SignatureOffset, ReservedOffset]
    ensures TotalSize(WireSizes) == CertSize
    ensures ReservedOffset + 368 == CertSize
  {
    HeaderLayout();
    OffsetsSnoc(HeaderSizes, 368);
  }
}
