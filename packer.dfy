/** The certificate encoder of gate-sw/og-pack.py: a zeroed 512-byte
    `bytearray` filled step by step with the magic, three little-endian u32
    fields, the parent hash, SHA-256 of the patch and zero padding. */
module Packer {
  import opened Bytes

  /** The three fields `struct.pack_into('<I', …)` writes. */
  datatype U32Field = BudgetField | HardMaxField | EpsilonField

  datatype PackError =
    | StructError(field: U32Field)  // `struct.error`: the value is outside [0, 2^32)
    | InputError(parentLength: nat) // a parent hash that is not 32 bytes (checked variant only)

  datatype Result<T> = Success(value: T) | Failure(error: PackError)

  // The defaults of `main`: `--B`, `--H`, `--epsilon` and `--parent` ('0' * 64 in hex).
  const DefaultBudget: int := 300000
  const DefaultHardMax: int := 250000
  const DefaultEpsilon: int := 50000
  const DefaultParent: seq<byte> := Zeros(32)

  /** The certificate the encoder is meant to produce: 4 + 3 * 4 + 32 + 32
      bytes of content followed by a 64-byte signature slot and 368 reserved
      bytes, all zero. */
  function CertImage(budget: u32, hardMax: u32, epsilon: u32, parent: Digest, patchHash: Digest): (c: seq<byte>)
    ensures |c| == 512
  {
    Magic + PackU32(budget) + PackU32(hardMax) + PackU32(epsilon) + parent + patchHash + Zeros(64) + Zeros(368)
  }

  /** Every field of the image at its offset, and nothing but zeros from
      byte 80 on. */
  lemma CertImageLayout(budget: u32, hardMax: u32, epsilon: u32, parent: Digest, patchHash: Digest)
    ensures var c := CertImage(budget, hardMax, epsilon, parent, patchHash);
      && c[0..4] == Magic
      && c[4..8] == PackU32(budget)
      && c[8..12] == PackU32(hardMax)
      && c[12..16] == PackU32(epsilon)
      && c[16..48] == parent
      && c[48..80] == patchHash
      && AllZero(c[80..144])
      && AllZero(c[144..512])
  {
    var c := CertImage(budget, hardMax, epsilon, parent, patchHash);
    var head := Magic + PackU32(budget) + PackU32(hardMax) + PackU32(epsilon);
    assert c == head + parent + patchHash + Zeros(64) + Zeros(368);
    assert c[0..4] == Magic;
    assert c[4..8] == PackU32(budget);
    assert c[8..12] == PackU32(hardMax);
    assert c[12..16] == PackU32(epsilon);
    assert c[16..48] == parent;
    assert c[48..80] == patchHash;
  }

  /** Reading the image back at the validator's offsets recovers every field
      exactly. */
  lemma CertImageDecodes(budget: u32, hardMax: u32, epsilon: u32, parent: Digest, patchHash: Digest)
    ensures var c := CertImage(budget, hardMax, epsilon, parent, patchHash);
      && c[0..4] == Magic
      && UnpackU32(c[4..8]) == budget
      && UnpackU32(c[8..12]) == hardMax
      && UnpackU32(c[12..16]) == epsilon
      && c[16..48] == parent
      && c[48..80] == patchHash
  {
    CertImageLayout(budget, hardMax, epsilon, parent, patchHash);
    UnpackPack(budget);
    UnpackPack(hardMax);
    UnpackPack(epsilon);
  }

  /** Python's `buf[lo:hi] = v` on a `bytearray` (0 <= lo <= hi): the indices
      are clamped to the buffer, and the buffer grows or shrinks when `v` is
      longer or shorter than the slice it replaces. */
  function SliceAssign(buf: seq<byte>, lo: nat, hi: nat, v: seq<byte>): (r: seq<byte>)
    requires lo <= hi
    ensures hi <= |buf| ==> |r| == |buf| - (hi - lo) + |v| && r[..lo] == buf[..lo] && r[lo..lo + |v|] == v
    ensures lo <= |buf| < hi ==> r == buf[..lo] + v
    ensures hi <= |buf| ==> r[lo + |v|..] == buf[hi..]
    ensures |buf| < lo ==> r == buf + v
    ensures hi <= |buf| && |v| == hi - lo ==> forall i :: hi <= i < |buf| ==> r[i] == buf[i]
  {
    var l := if lo <= |buf| then lo else |buf|;
    var h := if hi <= |buf| then hi else |buf|;
    buf[..l] + v + buf[h..]
  }

  /** `struct.pack_into('<I', buf, off, x)` once `x` is known to fit. */
  function PackInto(buf: seq<byte>, off: nat, x: u32): (r: seq<byte>)
    requires off + 4 <= |buf|
    ensures |r| == |buf| && r[off..off + 4] == PackU32(x)
    ensures forall i :: 0 <= i < |buf| && !(off <= i < off + 4) ==> r[i] == buf[i]
  {
    buf[..off] + PackU32(x) + buf[off + 4..]
  }

  /** `pack_certificate`, with the patch contents and the decoded parent hash
      passed in and the output returned instead of written to a file.
      A field outside [0, 2^32) is a `struct.error`, reported for the first
      such field in the order budget, hard_max, epsilon. A parent of at most
      32 bytes yields a 512-byte certificate with the parent zero-padded to
      32 bytes; a longer one grows the buffer to 480 + |parent| bytes whose
      first 512 bytes hold the parent's first 32 bytes. */
  method PackCertificate(patch: seq<byte>, budget: int, hardMax: int, epsilon: int,
                         parent: seq<byte>, sha256: seq<byte> -> Digest)
    returns (r: Result<seq<byte>>)
    ensures !InU32(budget) ==> r == Failure(StructError(BudgetField))
    ensures InU32(budget) && !InU32(hardMax) ==> r == Failure(StructError(HardMaxField))
    ensures InU32(budget) && InU32(hardMax) && !InU32(epsilon) ==> r == Failure(StructError(EpsilonField))
    ensures InU32(budget) && InU32(hardMax) && InU32(epsilon) && |parent| <= 32 ==>
      r == Success(CertImage(budget, hardMax, epsilon, parent + Zeros(32 - |parent|), sha256(patch)))
    ensures InU32(budget) && InU32(hardMax) && InU32(epsilon) && |parent| > 32 ==>
      && r.Success?
      && |r.value| == 480 + |parent|
      && r.value[..512] == CertImage(budget, hardMax, epsilon, parent[..32], sha256(patch))
      && (forall i :: 512 <= i < |r.value| ==> r.value[i] == if i < 16 + |parent| then parent[i - 16] else 0)
  {
    var patchHash := sha256(patch);
    var cert := Zeros(512);
    cert := SliceAssign(cert, 0, 4, Magic);
    if !InU32(budget) {
      return Failure(StructError(BudgetField));
    }
    cert := PackInto(cert, 4, budget);
    if !InU32(hardMax) {
      return Failure(StructError(HardMaxField));
    }
    cert := PackInto(cert, 8, hardMax);
    if !InU32(epsilon) {
      return Failure(StructError(EpsilonField));
    }
    cert := PackInto(cert, 12, epsilon);
    ghost var header := cert[..16];
    assert header == Magic + PackU32(budget) + PackU32(hardMax) + PackU32(epsilon);
    assert forall i :: 16 <= i < 512 ==> cert[i] == 0;
    assert cert[16..] == Zeros(496);
    assert cert == header + Zeros(496);
    cert := SliceAssign(cert, 16, 48, parent);
    cert := SliceAssign(cert, 48, 80, patchHash);
    cert := SliceAssign(cert, 80, 144, Zeros(64));
    cert := SliceAssign(cert, 144, 512, Zeros(368));
    r := Success(cert);
    ImageOfSteps(header, budget, hardMax, epsilon, parent, patchHash);
  }

  /** The encoder with the check the certificate format calls for: a parent
      hash that does not decode to exactly 32 bytes is an input error instead
      of being zero-padded or spilling past byte 512, so every certificate it
      produces is exactly 512 bytes. */
  method PackCertificateChecked(patch: seq<byte>, budget: int, hardMax: int, epsilon: int,
                                parent: seq<byte>, sha256: seq<byte> -> Digest)
    returns (r: Result<seq<byte>>)
    ensures !InU32(budget) ==> r == Failure(StructError(BudgetField))
    ensures InU32(budget) && !InU32(hardMax) ==> r == Failure(StructError(HardMaxField))
    ensures InU32(budget) && InU32(hardMax) && !InU32(epsilon) ==> r == Failure(StructError(EpsilonField))
    ensures InU32(budget) && InU32(hardMax) && InU32(epsilon) && |parent| != 32 ==>
      r == Failure(InputError(|parent|))
    ensures InU32(budget) && InU32(hardMax) && InU32(epsilon) && |parent| == 32 ==>
      r == Success(CertImage(budget, hardMax, epsilon, parent, sha256(patch)))
    ensures r.Success? ==> |r.value| == 512
  {
    r := PackCertificate(patch, budget, hardMax, epsilon, parent, sha256);
    if r.Success? && |parent| != 32 {
      r := Failure(InputError(|parent|));
    }
    assert parent + Zeros(0) == parent;
  }

  /** The four slice assignments of the encoder applied to a header and a
      zeroed remainder, in closed form. */
  lemma ImageOfSteps(header: seq<byte>, budget: u32, hardMax: u32, epsilon: u32,
                     parent: seq<byte>, patchHash: Digest)
    requires header == Magic + PackU32(budget) + PackU32(hardMax) + PackU32(epsilon)
    ensures var c := SliceAssign(SliceAssign(SliceAssign(SliceAssign(header + Zeros(496), 16, 48, parent),
                                48, 80, patchHash), 80, 144, Zeros(64)), 144, 512, Zeros(368));
      && (|parent| <= 32 ==> c == CertImage(budget, hardMax, epsilon, parent + Zeros(32 - |parent|), patchHash))
      && (|parent| > 32 ==>
            && |c| == 480 + |parent|
            && c[..512] == CertImage(budget, hardMax, epsilon, parent[..32], patchHash)
            && (forall i :: 512 <= i < |c| ==> c[i] == if i < 16 + |parent| then parent[i - 16] else 0))
  {
    if |parent| > 32 {
      var c1 := header + Zeros(496);
      var c2 := SliceAssign(c1, 16, 48, parent);
      var c3 := SliceAssign(c2, 48, 80, patchHash);
      var c4 := SliceAssign(c3, 80, 144, Zeros(64));
      var c5 := SliceAssign(c4, 144, 512, Zeros(368));
      assert c2 == header + parent + Zeros(464);
      assert |c3| == |c2| && |c4| == |c2| && |c5| == |c2|;
      forall i | 512 <= i < |c5|
        ensures c5[i] == if i < 16 + |parent| then parent[i - 16] else 0
      {
        assert c5[i] == c4[i];
        assert c4[i] == c3[i];
        assert c3[i] == c2[i];
      }
    }
  }
}
