/** The checker's rules on a whole image, in the order it reports them. */
module Checker {
  import opened Wrappers
  import opened Utf8
  import opened Tagged
  import opened Firmware

  const MAGIC: nat := 0xCC00_1234
  const MAX_LEN: nat := 0x1E_0000
  const KNOWN_PUBKEYS: nat := 6
  const ERASE_UNIT: nat := 4096
  const DOT: byte := 0x2E
  const ZERO: byte := 0x30

  predicate IsDigitByte(b: byte) {
    ZERO <= b < ZERO + 10
  }

  /** `to_digit(10).unwrap_or(0)`. */
  function DigitOrZero(b: byte): nat {
    if IsDigitByte(b) then b - ZERO else 0
  }

  /** The downgrade gate reads a dotted version's major number, and a missing one as zero. */
  predicate MajorOk(version: seq<byte>)
    requires |version| == 8
  {
    version[1] != DOT || DigitOrZero(version[0]) >= 3
  }

  /** Some text, then nothing but zeros, and at least one. */
  predicate NulPadded(version: seq<byte>)
    requires |version| == 8
  {
    exists n: nat :: n < 8 && TextThenZeros(version, n)
  }

  predicate TextThenZeros(version: seq<byte>, n: nat) {
    n <= |version| && (forall i :: 0 <= i < n ==> version[i] != 0)
      && (forall i :: n <= i < |version| ==> version[i] == 0)
  }

  /** Rules R1 to R11, of a header and the size of the image it heads. */
  predicate HeaderRule(id: nat, h: Header, size: nat)
    requires WellSized(h)
  {
    match id
    case 1 => h.magic == MAGIC
    case 2 => h.version[0] != 0xff
    case 3 => h.version[0] != 0
    case 4 => h.timestamp[0] < 0x40
    case 5 => h.length >= MIN_LEN
    case 6 => h.length < MAX_LEN
    case 7 => h.pubkey < KNOWN_PUBKEYS
    case 8 => h.length % ERASE_UNIT == 0
    case 9 => size == h.length
    case 10 => MajorOk(h.version)
    case 11 => NulPadded(h.version)
    case _ => true
  }

  predicate Rule(id: nat, image: seq<byte>) {
    |image| >= HDR_END && HeaderRule(id, HeaderOf(image), |image|)
  }

  /** R12: the one embedded key signed what `firmware_digest` hashes; `verifies` is the signature's verdict. */
  predicate SignatureRule(image: seq<byte>, verifies: bool) {
    HashedRange(image).Some? && HeaderOf(image).pubkey == 0 && verifies
  }

  datatype Finding = Finding(id: nat, ok: bool)

  predicate IsFirstNul(version: seq<byte>, nul: Option<nat>) {
    match nul
    case None => forall i :: 0 <= i < |version| ==> version[i] != 0
    case Some(n) => n < |version| && version[n] == 0 && forall i :: 0 <= i < n ==> version[i] != 0
  }

  method FirstNul(version: seq<byte>) returns (nul: Option<nat>)
    ensures IsFirstNul(version, nul)
  {
    for i := 0 to |version|
      invariant forall j :: 0 <= j < i ==> version[j] != 0
    {
      if version[i] == 0 {
        return Some(i);
      }
    }
    nul := None;
  }

  lemma PaddedFromTheFirstNul(version: seq<byte>, nul: Option<nat>)
    requires |version| == 8 && IsFirstNul(version, nul)
    ensures NulPadded(version) <==> nul.Some? && forall i :: nul.value <= i < 8 ==> version[i] == 0
  {
    if NulPadded(version) {
      var n: nat :| n < 8 && TextThenZeros(version, n);
      assert version[n] == 0;
    }
    if nul.Some? && forall i :: nul.value <= i < 8 ==> version[i] == 0 {
      assert TextThenZeros(version, nul.value);
    }
  }

  function HeaderFindings(h: Header, size: nat): seq<Finding>
    requires WellSized(h)
  {
    seq(11, i requires 0 <= i < 11 => Finding(i + 1, HeaderRule(i + 1, h, size)))
  }

  /** What the checker reports: one finding a rule, or the first alone when there is no header to read. */
  function Findings(image: seq<byte>, verifies: bool): seq<Finding> {
    if |image| < HDR_END then [Finding(1, false)]
    else HeaderFindings(HeaderOf(image), |image|) + [Finding(12, SignatureRule(image, verifies))]
  }

  // ---- the rules, read straight off the image

  /** The length in the header, byte by byte. */
  function LengthBytes(image: seq<byte>): seq<byte>
    requires |image| >= HDR_END
  {
    image[0x3f98..0x3f9c]
  }

  lemma InHeader(image: seq<byte>, lo: nat, hi: nat)
    requires |image| >= HDR_END && lo <= hi <= HDR_END - HDR_OFF
    ensures image[HDR_OFF..HDR_END][lo..hi] == image[HDR_OFF + lo..HDR_OFF + hi]
  {
  }

  /** Magic, version and timestamp: the first twenty bytes of the header. */
  lemma FirstRulesOnBytes(image: seq<byte>)
    requires |image| >= 0x4000
    ensures Rule(1, image) <==> image[0x3f80..0x3f84] == [0x34, 0x12, 0x00, 0xCC]
    ensures Rule(2, image) <==> image[0x3f8c] != 0xff
    ensures Rule(3, image) <==> image[0x3f8c] != 0
    ensures Rule(4, image) <==> image[0x3f84] < 0x40
  {
    HeaderBegins(image);
    MagicInBytes(image[0x3f80..0x3f84]);
    assert image[0x3f8c..0x3f94][0] == image[0x3f8c];
    assert image[0x3f84..0x3f8c][0] == image[0x3f84];
  }

  lemma HeaderBegins(image: seq<byte>)
    requires |image| >= 0x4000
    ensures HeaderOf(image).magic == FromLe32(image[0x3f80..0x3f84])
    ensures HeaderOf(image).timestamp == image[0x3f84..0x3f8c]
    ensures HeaderOf(image).version == image[0x3f8c..0x3f94]
  {
    InHeader(image, 0, 4);
    InHeader(image, 4, 12);
    InHeader(image, 12, 20);
  }

  lemma MagicInBytes(m: seq<byte>)
    requires |m| == 4
    ensures FromLe32(m) == MAGIC <==> m == [0x34, 0x12, 0x00, 0xCC]
  {
    Le32Inverts(m);
    assert Le32(MAGIC) == [0x34, 0x12, 0x00, 0xCC];
    assert FromLe32([0x34, 0x12, 0x00, 0xCC]) == MAGIC;
  }

  /** The length: at least 256 KiB, under the ceiling, whole erase units, and the size of the file. */
  lemma LengthRulesOnBytes(image: seq<byte>)
    requires |image| >= 0x4000
    ensures var n := LengthBytes(image);
      && (Rule(5, image) <==> n[2] >= 4 || n[3] > 0)
      && (Rule(6, image) <==> n[2] < 0x1E && n[3] == 0)
      && (Rule(8, image) <==> n[0] == 0 && n[1] as int % 16 == 0)
      && (Rule(9, image) <==>
            |image| == n[0] as int + 256 * n[1] as int + 65536 * n[2] as int + 16777216 * n[3] as int)
      && (HashedRange(image).Some? <==>
            && (n[2] >= 4 || n[3] > 0) && n[0] == 0 && n[1] as int % 2 == 0
            && n[0] as int + 256 * n[1] as int + 65536 * n[2] as int + 16777216 * n[3] as int <= |image|)
  {
    var n := LengthBytes(image);
    InHeader(image, 24, 28);
    assert HeaderOf(image).length == FromLe32(n);
    LengthInBytes(n);
    assert U32At(image, HDR_OFF + 24) == FromLe32(n);
  }

  lemma LengthInBytes(n: seq<byte>)
    requires |n| == 4
    ensures FromLe32(n) >= MIN_LEN <==> n[2] >= 4 || n[3] > 0
    ensures FromLe32(n) < MAX_LEN <==> n[2] < 0x1E && n[3] == 0
    ensures FromLe32(n) % ERASE_UNIT == 0 <==> n[0] == 0 && n[1] as int % 16 == 0
    ensures FromLe32(n) % DIGEST_ALIGN == 0 <==> n[0] == 0 && n[1] as int % 2 == 0
  {
    var a, b, c, d := n[0] as int, n[1] as int, n[2] as int, n[3] as int;
    EraseUnitsIn(a + 256 * (b % 16), b / 16 + 16 * c + 4096 * d);
    DigestUnitsIn(a + 256 * (b % 2), b / 2 + 128 * c + 32768 * d);
  }

  lemma EraseUnitsIn(rest: nat, units: nat)
    requires rest < 4096
    ensures (rest + 4096 * units) % 4096 == rest
  {
  }

  lemma DigestUnitsIn(rest: nat, units: nat)
    requires rest < 512
    ensures (rest + 512 * units) % 512 == rest
  {
  }

  /** The key number and the version's text. */
  lemma LastRulesOnBytes(image: seq<byte>)
    requires |image| >= 0x4000
    ensures var key, version := image[0x3f94..0x3f98], image[0x3f8c..0x3f94];
      && (Rule(7, image) <==> key[0] < 6 && key[1] == 0 && key[2] == 0 && key[3] == 0)
      && (Rule(10, image) <==> version[1] == 0x2E ==> 0x33 <= version[0] <= 0x39)
      && (Rule(11, image) <==> version[7] == 0 && ZerosGoOn(version))
      && forall verifies :: SignatureRule(image, verifies) <==>
           HashedRange(image).Some? && verifies && key[0] == 0 && key[1] == 0 && key[2] == 0 && key[3] == 0
  {
    InHeader(image, 12, 20);
    InHeader(image, 20, 24);
    PaddedIff(image[0x3f8c..0x3f94]);
  }

  lemma PaddedIff(version: seq<byte>)
    requires |version| == 8
    ensures NulPadded(version) <==> version[7] == 0 && ZerosGoOn(version)
  {
    if version[7] == 0 && ZerosGoOn(version) {
      PaddedUpTo(version, 7);
    }
  }

  predicate ZerosGoOn(version: seq<byte>)
    requires |version| == 8
  {
    forall i :: 0 <= i < 7 && version[i] == 0 ==> version[i + 1] == 0
  }

  lemma {:induction false} PaddedUpTo(version: seq<byte>, n: nat)
    requires |version| == 8 && n <= 7 && ZerosGoOn(version) && forall i :: n <= i < 8 ==> version[i] == 0
    ensures NulPadded(version)
  {
    if n == 0 || version[n - 1] != 0 {
      NoneBefore(version, n);
      assert TextThenZeros(version, n);
    } else {
      PaddedUpTo(version, n - 1);
    }
  }

  lemma {:induction false} NoneBefore(version: seq<byte>, n: nat)
    requires |version| == 8 && n <= 7 && ZerosGoOn(version) && (n == 0 || version[n - 1] != 0)
    ensures forall i :: 0 <= i < n ==> version[i] != 0
  {
    if n > 1 {
      NoneBefore(version, n - 1);
    }
  }

  /** Every rule is reported, once and in order, with its own verdict. */
  lemma EachRuleIsReported(image: seq<byte>, verifies: bool, id: nat)
    requires |image| >= 0x4000 && 1 <= id <= 12
    ensures var r := Findings(image, verifies);
      && |r| == 12 && r[id - 1].id == id
      && (r[id - 1].ok <==> if id == 12 then SignatureRule(image, verifies) else Rule(id, image))
  {
  }

  method CheckHeader(h: Header, size: nat) returns (r: seq<Finding>)
    requires WellSized(h)
    ensures r == HeaderFindings(h, size)
  {
    var nul := FirstNul(h.version);
    PaddedFromTheFirstNul(h.version, nul);
    var padded := nul.Some? && forall i :: nul.value <= i < 8 ==> h.version[i] == 0;
    r := [Finding(1, h.magic == MAGIC), Finding(2, h.version[0] != 0xff), Finding(3, h.version[0] != 0),
          Finding(4, h.timestamp[0] < 0x40), Finding(5, h.length >= MIN_LEN), Finding(6, h.length < MAX_LEN),
          Finding(7, h.pubkey < KNOWN_PUBKEYS), Finding(8, h.length % ERASE_UNIT == 0), Finding(9, size == h.length),
          Finding(10, h.version[1] != DOT || DigitOrZero(h.version[0]) >= 3), Finding(11, padded)];
  }

  /** `check`. */
  method Check(image: seq<byte>, verifies: bool) returns (r: seq<Finding>)
    ensures r == Findings(image, verifies)
  {
    if |image| < HDR_END {
      return [Finding(1, false)];
    }
    var h := HeaderOf(image);
    r := CheckHeader(h, |image|);
    r := r + [Finding(12, HashedRange(image).Some? && h.pubkey == 0 && verifies)];
  }
}
