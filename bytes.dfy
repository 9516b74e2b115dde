/** Byte-level vocabulary shared by the certificate encoder, both validators
    and the cost functions: bytes, unsigned 32-bit words, 32-byte digests,
    the `'OGT1'` format tag and the little-endian u32 codec that Python's
    `struct.pack('<I', …)` / `struct.unpack('<I', …)` implement. */
module Bytes {

  /** A byte value 0..255 (an element of a Python `bytes`, a C `uint8_t`). */
  type byte = x: int | 0 <= x < 256

  const TwoTo32: int := 0x1_0000_0000

  /** A value a C `uint32_t` / a `struct` `'<I'` field can hold. */
  type u32 = x: int | 0 <= x < 0x1_0000_0000

  /** A SHA-256 digest: exactly 32 bytes. */
  type Digest = s: seq<byte> | |s| == 32 witness seq(32, _ => 0)

  /** A 4-byte magic field (`uint8_t magic[4]`). */
  type Tag = s: seq<byte> | |s| == 4 witness [0, 0, 0, 0]

  /** The format tag `b'OGT1'` ('O' = 0x4F, 'G' = 0x47, 'T' = 0x54, '1' = 0x31). */
  const Magic: Tag := [0x4F, 0x47, 0x54, 0x31]

  predicate InU32(x: int) {
    0 <= x < TwoTo32
  }

  function Zeros(n: nat): (z: seq<byte>)
    ensures |z| == n
    ensures forall i :: 0 <= i < n ==> z[i] == 0
  {
    seq(n, _ => 0)
  }

  predicate AllZero(s: seq<byte>) {
    forall i :: 0 <= i < |s| ==> s[i] == 0
  }

  /** `struct.pack('<I', x)`: least significant byte first. */
  function PackU32(x: u32): (b: seq<byte>)
    ensures |b| == 4
  {
    [x % 256, (x / 256) % 256, (x / 65536) % 256, x / 16777216]
  }

  /** `struct.unpack('<I', b)[0]` on a 4-byte slice. */
  function UnpackU32(b: seq<byte>): (x: u32)
    requires |b| == 4
  {
    b[0] as int + 256 * b[1] as int + 65536 * b[2] as int + 16777216 * b[3] as int
  }

  /** Decoding an encoded word gives the word back. */
  lemma UnpackPack(x: u32)
    ensures UnpackU32(PackU32(x)) == x
  {
    var b := PackU32(x);
    assert x == x % 256 + 256 * (x / 256);
    assert x / 256 == (x / 256) % 256 + 256 * (x / 65536);
    assert x / 65536 == (x / 65536) % 256 + 256 * (x / 16777216);
  }

  /** Dividing `q * d + r` by `d` gives back `q` and `r` when `0 <= r < d`. */
  lemma DivModExact(q: int, r: int, d: int)
    requires d > 0 && 0 <= r < d
    ensures (q * d + r) / d == q && (q * d + r) % d == r
  {
    var x := q * d + r;
    var q', r' := x / d, x % d;
    assert x == d * q' + r';
    assert d * (q - q') == r' - r;
    if q' < q {
      MulAtLeast(q - q', d);
    } else if q < q' {
      MulAtLeast(q' - q, d);
    }
  }

  /** A positive multiple of `d` is at least `d`. */
  lemma MulAtLeast(a: int, d: int)
    requires a >= 1 && d > 0
    ensures d * a >= d
  {
    assert d * a == d * (a - 1) + d;
    assert d * (a - 1) >= 0;
  }

  /** Encoding a decoded 4-byte slice gives the slice back, so the codec is a
      bijection between u32 values and 4-byte strings. */
  lemma PackUnpack(b: seq<byte>)
    requires |b| == 4
    ensures PackU32(UnpackU32(b)) == b
  {
    var x := UnpackU32(b);
    var hi := b[1] as int + 256 * b[2] as int + 65536 * b[3] as int;
    assert x == hi * 256 + b[0];
    DivModExact(hi, b[0], 256);
    DivModExact(b[2] as int + 256 * b[3] as int, b[1] as int, 256);
    assert x == (b[2] as int + 256 * b[3] as int) * 65536 + (b[0] as int + 256 * b[1] as int);
    DivModExact(b[2] as int + 256 * b[3] as int, b[0] as int + 256 * b[1] as int, 65536);
    DivModExact(b[3] as int, b[2] as int, 256);
    assert x == b[3] as int * 16777216 + (b[0] as int + 256 * b[1] as int + 65536 * b[2] as int);
    DivModExact(b[3] as int, b[0] as int + 256 * b[1] as int + 65536 * b[2] as int, 16777216);
  }
}
