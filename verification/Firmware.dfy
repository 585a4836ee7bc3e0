/** The signed image: where its header is, what its fields are, and which of its bytes are hashed. */
module Firmware {
  import opened Wrappers
  import opened Utf8
  import opened Tagged

  const HDR_OFF: nat := 0x3f80
  const HDR_END: nat := 0x4000
  const SIG_LEN: nat := 64
  const SIG_OFF: nat := HDR_END - SIG_LEN
  const MIN_LEN: nat := 0x4_0000
  const DIGEST_ALIGN: nat := 512

  function U32At(image: seq<byte>, at: nat): (n: nat)
    requires at + 4 <= |image|
    ensures n < U32
  {
    FromLe32(image[at..at + 4])
  }

  // ---- the header

  datatype Header = Header(
    magic: nat, timestamp: seq<byte>, version: seq<byte>, pubkey: nat, length: nat,
    flags: nat, hwCompat: nat, bestTs: seq<byte>, future: seq<byte>, signature: seq<byte>)

  predicate WellSized(h: Header) {
    && h.magic < U32 && |h.timestamp| == 8 && |h.version| == 8 && h.pubkey < U32 && h.length < U32
    && h.flags < U32 && h.hwCompat < U32 && |h.bestTs| == 8 && |h.future| == 20 && |h.signature| == SIG_LEN
  }

  /** `struct.pack` of the ten fields. */
  function Pack(h: Header): (b: seq<byte>)
    requires WellSized(h)
    ensures |b| == HDR_END - HDR_OFF
  {
    Le32(h.magic) + h.timestamp + h.version + Le32(h.pubkey) + Le32(h.length)
    + Le32(h.flags) + Le32(h.hwCompat) + h.bestTs + h.future + h.signature
  }

  /** `struct.unpack`. */
  function Unpack(b: seq<byte>): (h: Header)
    requires |b| == HDR_END - HDR_OFF
    ensures WellSized(h)
  {
    Header(U32At(b, 0), b[4..12], b[12..20], U32At(b, 20), U32At(b, 24),
           U32At(b, 28), U32At(b, 32), b[36..44], b[44..64], b[64..128])
  }

  lemma UnpackInvertsPack(h: Header)
    requires WellSized(h)
    ensures Unpack(Pack(h)) == h
  {
    var b := Pack(h);
    assert b[0..4] == Le32(h.magic) && b[20..24] == Le32(h.pubkey) && b[24..28] == Le32(h.length);
    assert b[28..32] == Le32(h.flags) && b[32..36] == Le32(h.hwCompat);
    assert b[4..12] == h.timestamp && b[12..20] == h.version && b[36..44] == h.bestTs;
    assert b[44..64] == h.future && b[64..128] == h.signature;
    Le32RoundTrip(h.magic);
    Le32RoundTrip(h.pubkey);
    Le32RoundTrip(h.length);
    Le32RoundTrip(h.flags);
    Le32RoundTrip(h.hwCompat);
  }

  lemma Le32Inverts(b: seq<byte>)
    requires |b| == 4
    ensures FromLe32(b) < U32 && Le32(FromLe32(b)) == b
  {
    var n := FromLe32(b);
    var a, c, d: int := b[0] as int, b[1] as int, b[2] as int;
    assert n / 256 == c + 256 * d + 65536 * b[3] as int;
    assert n / 65536 == d + 256 * b[3] as int;
    assert n / 16777216 == b[3] as int;
  }

  lemma PackInvertsUnpack(b: seq<byte>)
    requires |b| == HDR_END - HDR_OFF
    ensures Pack(Unpack(b)) == b
  {
    Le32Inverts(b[0..4]);
    Le32Inverts(b[20..24]);
    Le32Inverts(b[24..28]);
    Le32Inverts(b[28..32]);
    Le32Inverts(b[32..36]);
    assert b == b[0..4] + b[4..12] + b[12..20] + b[20..24] + b[24..28] + b[28..32]
             + b[32..36] + b[36..44] + b[44..64] + b[64..128];
  }

  function HeaderOf(image: seq<byte>): Header
    requires |image| >= HDR_END
  {
    Unpack(image[HDR_OFF..HDR_END])
  }

  // ---- the hashed range

  /** What `firmware_digest` hashes: everything below the declared length but the signature. */
  function HashedRange(image: seq<byte>): Option<seq<byte>> {
    if |image| < HDR_END then None
    else
      var length := U32At(image, HDR_OFF + 24);
      if length < MIN_LEN || length % DIGEST_ALIGN != 0 || length > |image| then None
      else Some(image[..SIG_OFF] + image[HDR_END..length])
  }

  predicate Signature(i: nat) {
    SIG_OFF <= i < HDR_END
  }

  /** Two images agree up to a length, but perhaps for the signature. */
  predicate AgreeBelow(a: seq<byte>, b: seq<byte>, length: nat)
    requires length <= |a| && length <= |b|
  {
    forall i: nat :: i < length && !Signature(i) ==> a[i] == b[i]
  }

  lemma LengthAt(a: seq<byte>, b: seq<byte>, n: nat)
    requires HDR_END <= n <= |a| && n <= |b| && a[..SIG_OFF] == b[..SIG_OFF]
    ensures U32At(a, HDR_OFF + 24) == U32At(b, HDR_OFF + 24)
  {
    assert a[HDR_OFF + 24..HDR_OFF + 28] == a[..SIG_OFF][HDR_OFF + 24..HDR_OFF + 28];
    assert b[HDR_OFF + 24..HDR_OFF + 28] == b[..SIG_OFF][HDR_OFF + 24..HDR_OFF + 28];
  }

  /** The hashed range has 64 bytes less than the declared length, and is the bytes below it without the signature. */
  lemma HashedRangeIs(image: seq<byte>)
    requires HashedRange(image).Some?
    ensures var length := U32At(image, HDR_OFF + 24); var r := HashedRange(image).value;
      && |r| == length - SIG_LEN
      && (forall i: nat :: i < SIG_OFF ==> r[i] == image[i])
      && (forall i: nat :: HDR_END <= i < length ==> r[i - SIG_LEN] == image[i])
  {
  }

  /**
   Same digest input, same image: two images hash the same bytes exactly when they agree below the
   declared length everywhere but in the signature, whatever follows the length in either.
   */
  lemma HashedRangeCoversAllButSignature(a: seq<byte>, b: seq<byte>)
    requires HashedRange(a).Some? && |b| >= U32At(a, HDR_OFF + 24)
    ensures HashedRange(b) == HashedRange(a) <==> AgreeBelow(a, b, U32At(a, HDR_OFF + 24))
  {
    var length := U32At(a, HDR_OFF + 24);
    if AgreeBelow(a, b, length) {
      assert a[..SIG_OFF] == b[..SIG_OFF];
      LengthAt(a, b, HDR_END);
      assert a[HDR_END..length] == b[HDR_END..length];
    }
    if HashedRange(b) == HashedRange(a) {
      HashedRangeIs(a);
      HashedRangeIs(b);
      forall i: nat | i < length && !Signature(i)
        ensures a[i] == b[i]
      {
        var r := HashedRange(a).value;
        assert i < SIG_OFF ==> r[i] == a[i] && r[i] == b[i];
        assert i >= HDR_END ==> r[i - SIG_LEN] == a[i];
      }
    }
  }
}
