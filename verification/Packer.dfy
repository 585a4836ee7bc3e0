/** The packer: its layout arithmetic, the checks it makes of a signed image, and what those checks amount to. */
module Packer {
  import opened Wrappers
  import opened Utf8
  import opened Text
  import opened Firmware
  import opened Checker

  const SLOT_START: nat := 0x0802_3F80
  const SLOT_END: nat := 0x0802_4000
  const HW_COMPAT: nat := 0x28

  // ---- the header slot

  datatype Section = Section(name: string, address: nat, size: nat)

  predicate Covers(s: Section) {
    s.address < SLOT_END && s.address + s.size > SLOT_START
  }

  /** The sections that reach into the slot, in order. */
  method Covering(sections: seq<Section>) returns (covering: seq<Section>)
    ensures forall s :: s in covering <==> s in sections && Covers(s)
  {
    covering := [];
    for i := 0 to |sections|
      invariant forall s :: s in covering <==> s in sections[..i] && Covers(s)
    {
      assert sections[..i + 1] == sections[..i] + [sections[i]];
      if Covers(sections[i]) {
        covering := covering + [sections[i]];
      }
    }
    assert sections[..|sections|] == sections;
  }

  predicate HasByte(s: Section, a: nat) {
    s.address <= a < s.address + s.size
  }

  predicate InSlot(a: nat) {
    SLOT_START <= a < SLOT_END
  }

  /** A section that has bytes reaches into the slot exactly when one of its bytes lies there. */
  lemma CoversIffAByteIsInTheSlot(s: Section)
    requires s.size > 0
    ensures Covers(s) <==> exists a: nat :: HasByte(s, a) && InSlot(a)
  {
    if Covers(s) {
      var a := if s.address < SLOT_START then SLOT_START else s.address;
      assert HasByte(s, a) && InSlot(a);
    }
  }

  // ---- padding

  /** `(n + a - 1) & ~(a - 1)` for a power of two. */
  function AlignUp(n: nat, a: nat): nat
    requires a > 0
  {
    (n + a - 1) / a * a
  }

  function PaddedBody(body: nat): nat {
    AlignUp(AlignUp(body, 512), ERASE_UNIT)
  }

  function FirmwareLength(body: nat): nat {
    HDR_END + PaddedBody(body)
  }

  lemma HalfKilobytes(n: nat, m: nat)
    ensures AlignUp(n, 512) % 512 == 0 && n <= AlignUp(n, 512) < n + 512
    ensures m % 512 == 0 && n <= m ==> AlignUp(n, 512) <= m
  {
    if m % 512 == 0 && n <= m {
      assert m == m / 512 * 512;
    }
  }

  lemma EraseUnits(n: nat, m: nat)
    ensures AlignUp(n, ERASE_UNIT) % ERASE_UNIT == 0 && n <= AlignUp(n, ERASE_UNIT) < n + ERASE_UNIT
    ensures m % ERASE_UNIT == 0 && n <= m ==> AlignUp(n, ERASE_UNIT) <= m
  {
    if m % ERASE_UNIT == 0 && n <= m {
      assert m == m / 4096 * 4096;
    }
  }

  lemma EraseUnitsAreDigestUnits(n: nat)
    requires n % ERASE_UNIT == 0
    ensures n % DIGEST_ALIGN == 0
  {
    assert n == n / 4096 * 8 * 512;
  }

  /** Padding to 512 first changes nothing: the body ends on the first erase unit it fits in. */
  lemma PaddingIsLeast(body: nat, m: nat)
    ensures PaddedBody(body) % ERASE_UNIT == 0 && body <= PaddedBody(body) < body + ERASE_UNIT
    ensures m % ERASE_UNIT == 0 && body <= m ==> PaddedBody(body) <= m
    ensures PaddedBody(body) == AlignUp(body, ERASE_UNIT)
    ensures FirmwareLength(body) % ERASE_UNIT == 0
  {
    var a, direct := AlignUp(body, 512), AlignUp(body, ERASE_UNIT);
    HalfKilobytes(body, direct);
    EraseUnits(a, direct);
    EraseUnits(body, PaddedBody(body));
    EraseUnits(a, m);
    EraseUnits(body, m);
    EraseUnitsAreDigestUnits(direct);
  }

  // ---- the timestamp

  datatype When = When(year: nat, month: nat, day: nat, hour: nat, minute: nat, second: nat)

  predicate IsDate(w: When) {
    w.month < 100 && w.day < 100 && w.hour < 100 && w.minute < 100 && w.second < 100
  }

  /** `%y%m%d%H%M%S0000`. */
  function Digits(w: When): (s: string)
    requires IsDate(w)
    ensures |s| == 16 && AllDigits(s)
  {
    Decimal2(w.year % 100) + Decimal2(w.month) + Decimal2(w.day)
    + Decimal2(w.hour) + Decimal2(w.minute) + Decimal2(w.second) + "0000"
  }

  function Nibbles(s: string, i: nat): byte
    requires |s| == 16 && AllDigits(s) && i < 8
  {
    16 * DigitValue(s[2 * i]) + DigitValue(s[2 * i + 1])
  }

  /** `bcd_timestamp`: refused when the year's byte is one the bootloader would refuse. */
  function BcdTimestamp(w: When): (r: Option<seq<byte>>)
    requires IsDate(w)
    ensures r.Some? ==> |r.value| == 8 && r.value[0] < 0x40
  {
    var rv: seq<byte> := seq(8, i requires 0 <= i < 8 => Nibbles(Digits(w), i));
    if rv[0] >= 0x40 then None else Some(rv)
  }

  /** A stamp as `signit check` reads it back: two decimal digits a byte, in the twenty-first century. */
  function Stamp(ts: seq<byte>): When
    requires |ts| == 8
  {
    When(2000 + Bcd(ts[0]), Bcd(ts[1]), Bcd(ts[2]), Bcd(ts[3]), Bcd(ts[4]), Bcd(ts[5]))
  }

  function Bcd(b: byte): nat {
    b as int / 16 * 10 + b as int % 16
  }

  lemma NibblesOfDecimal2(n: nat, s: string, i: nat)
    requires n < 100 && |s| == 16 && AllDigits(s) && i < 8 && s[2 * i..2 * i + 2] == Decimal2(n)
    ensures Bcd(Nibbles(s, i)) == n && (Nibbles(s, i) < 0x40 <==> n < 40)
  {
    assert s[2 * i] == s[2 * i..2 * i + 2][0] && s[2 * i + 1] == s[2 * i..2 * i + 2][1];
  }

  lemma DigitsInOrder(w: When)
    requires IsDate(w)
    ensures var s := Digits(w);
      && s[0..2] == Decimal2(w.year % 100) && s[2..4] == Decimal2(w.month) && s[4..6] == Decimal2(w.day)
      && s[6..8] == Decimal2(w.hour) && s[8..10] == Decimal2(w.minute) && s[10..12] == Decimal2(w.second)
  {
  }

  /** A stamp exists for years ending below forty, and reads back as its date exactly in this century. */
  lemma StampIsTheDate(w: When)
    requires IsDate(w)
    ensures BcdTimestamp(w).Some? <==> w.year % 100 < 40
    ensures BcdTimestamp(w).Some? ==> (Stamp(BcdTimestamp(w).value) == w <==> 2000 <= w.year < 2040)
  {
    var s := Digits(w);
    DigitsInOrder(w);
    NibblesOfDecimal2(w.year % 100, s, 0);
    NibblesOfDecimal2(w.month, s, 1);
    NibblesOfDecimal2(w.day, s, 2);
    NibblesOfDecimal2(w.hour, s, 3);
    NibblesOfDecimal2(w.minute, s, 4);
    NibblesOfDecimal2(w.second, s, 5);
  }

  // ---- the artifact

  const BODY_FLOOR: nat := 0x4_0000

  /** The version, key number and timestamp a packing was asked for. */
  datatype Request = Request(version: Str, pubkey: nat, timestamp: seq<byte>)

  predicate Stamped(r: Request) {
    |r.timestamp| == 8 && r.timestamp[0] < 0x40
  }

  /** Fewer than eight characters, and no dotted version that starts below 3. */
  predicate VersionAllowed(v: Str) {
    CharCount(v) < 8 && !(SecondIsDot(v) && v[0] < ZERO + 3)
  }

  predicate SecondIsDot(v: Str) {
    v != [] && FirstLen(v) < |v| && v[FirstLen(v)] == DOT
  }

  function Repeat(b: byte, n: nat): (s: seq<byte>)
    ensures |s| == n && forall i :: 0 <= i < n ==> s[i] == b
  {
    seq(n, _ => b)
  }

  /** `ljust(8, NUL)`. */
  function Justified(v: seq<byte>): (j: seq<byte>)
    ensures |v| <= 8 ==> |j| == 8
  {
    if |v| <= 8 then v + Repeat(0, 8 - |v|) else v
  }

  /** The header asked for, around whatever signature comes back. */
  function Wanted(r: Request, body: nat, signature: seq<byte>): Header {
    Header(MAGIC, r.timestamp, Justified(r.version), r.pubkey, FirmwareLength(body),
           0, HW_COMPAT, Repeat(0, 8), Repeat(0, 20), signature)
  }

  predicate AllOnes(image: seq<byte>, lo: nat, hi: nat)
    requires hi <= |image|
  {
    forall i :: lo <= i < hi ==> image[i] == 0xff
  }

  /** Every check the packer makes of the signed image of `vec` vector bytes and `body` body bytes. */
  predicate Accepts(got: seq<byte>, r: Request, vec: nat, body: nat) {
    && VersionAllowed(r.version) && body >= BODY_FLOOR
    && |got| == FirmwareLength(body)
    && (var h := HeaderOf(got);
        && h == Wanted(r, body, h.signature)
        && h.signature != Repeat(0xff, SIG_LEN) && h.signature != Repeat(0, SIG_LEN))
    && AllOnes(got, vec, HDR_OFF)
    && AllOnes(got, HDR_END + body, FirmwareLength(body))
  }

  method IsAllOnes(image: seq<byte>, lo: nat, hi: nat) returns (ok: bool)
    requires hi <= |image|
    ensures ok <==> AllOnes(image, lo, hi)
  {
    var i := lo;
    while i < hi
      invariant lo <= i
      invariant AllOnes(image, lo, if i < hi then i else hi)
    {
      if image[i] != 0xff {
        return false;
      }
      i := i + 1;
    }
    ok := true;
  }

  /** The packer's checks of its arguments and of the artifact, one after another. */
  method Verify(got: seq<byte>, r: Request, vec: nat, body: nat) returns (ok: bool)
    ensures ok <==> Accepts(got, r, vec, body)
  {
    if !VersionAllowed(r.version) || body < BODY_FLOOR || |got| != FirmwareLength(body) {
      return false;
    }
    PaddingIsLeast(body, 0);
    var h := HeaderOf(got);
    if h != Wanted(r, body, h.signature) || h.signature == Repeat(0xff, SIG_LEN) || h.signature == Repeat(0, SIG_LEN) {
      return false;
    }
    var vectors := IsAllOnes(got, vec, HDR_OFF);
    if !vectors {
      return false;
    }
    ok := IsAllOnes(got, HDR_END + body, FirmwareLength(body));
  }

  // ---- what acceptance is worth

  /** The two spans the packer hashes are the checker's, and 64 bytes short of the declared length. */
  lemma DigestsTheSameSpans(got: seq<byte>, r: Request, vec: nat, body: nat)
    requires Accepts(got, r, vec, body)
    ensures HashedRange(got) == Some(got[..SIG_OFF] + got[HDR_END..FirmwareLength(body)])
    ensures |HashedRange(got).value| == FirmwareLength(body) - SIG_LEN
  {
    PaddingIsLeast(body, 0);
    assert got[HDR_OFF..HDR_END][24..28] == got[HDR_OFF + 24..HDR_OFF + 28];
    assert U32At(got, HDR_OFF + 24) == HeaderOf(got).length;
    EraseUnitsAreDigestUnits(FirmwareLength(body));
  }

  /**
   A version the checker will read as one: some text, no NUL inside it, seven bytes or fewer, and a major of 3
   or more where it is dotted.
   */
  predicate VersionReads(v: seq<byte>) {
    && v != [] && v[0] != 0
    && (|v| >= 2 && v[1] == DOT ==> ZERO + 3 <= v[0] < ZERO + 10)
    && exists n: nat :: n < 8 && TextThenZeros(v, n)
  }

  /** Padding with zeros neither adds text nor takes any away. */
  lemma TextEndsAlike(v: seq<byte>, n: nat)
    requires |v| <= 8 && n < 8
    ensures TextThenZeros(v, n) <==> TextThenZeros(Justified(v), n)
  {
    var j := Justified(v);
    assert forall i :: 0 <= i < |v| ==> j[i] == v[i];
    assert forall i :: |v| <= i < 8 ==> j[i] == 0;
    if n > |v| {
      assert j[|v|] == 0;
    }
  }

  lemma VersionRules(v: Str)
    requires |v| <= 8
    ensures Justified(v)[0] != 0xff
    ensures Justified(v)[0] != 0 && MajorOk(Justified(v)) && NulPadded(Justified(v)) <==> VersionReads(v)
  {
    var j := Justified(v);
    assert v != [] ==> j[0] == v[0] && FirstLen(v) > 0;
    if NulPadded(j) {
      var n: nat :| n < 8 && TextThenZeros(j, n);
      TextEndsAlike(v, n);
      assert TextThenZeros(v, n);
    }
    if n: nat :| n < 8 && TextThenZeros(v, n) {
      TextEndsAlike(v, n);
    }
  }

  /**
   The packer's checks imply the checker's, rule for rule, exactly for the requests that also meet what
   only the checker asks: a version that reads as one, an image under the ceiling, a known key number.
   */
  lemma AcceptedPassesIff(got: seq<byte>, r: Request, vec: nat, body: nat)
    requires Stamped(r) && Accepts(got, r, vec, body)
    ensures (forall id: nat :: 1 <= id <= 11 ==> Rule(id, got)) <==>
      VersionReads(r.version) && FirmwareLength(body) < MAX_LEN && r.pubkey < KNOWN_PUBKEYS
  {
    PaddingIsLeast(body, 0);
    VersionRules(r.version);
    assert Rule(6, got) <==> FirmwareLength(body) < MAX_LEN;
    assert Rule(7, got) <==> r.pubkey < KNOWN_PUBKEYS;
    assert Rule(3, got) && Rule(10, got) && Rule(11, got) <==> VersionReads(r.version);
  }

  /** The image a request stands for. */
  function Built(r: Request, vectors: seq<byte>, body: seq<byte>, signature: seq<byte>): seq<byte>
    requires |r.timestamp| == 8 && |r.version| <= 8 && r.pubkey < U32 && FirmwareLength(|body|) < U32
    requires |vectors| <= HDR_OFF && |signature| == SIG_LEN
  {
    PaddingIsLeast(|body|, 0);
    vectors + Repeat(0xff, HDR_OFF - |vectors|) + Pack(Wanted(r, |body|, signature))
    + body + Repeat(0xff, PaddedBody(|body|) - |body|)
  }

  lemma InFive(s: seq<byte>, a: nat, b: nat, c: nat, d: nat)
    requires a <= b <= c <= d <= |s|
    ensures s == s[..a] + s[a..b] + s[b..c] + s[c..d] + s[d..]
  {
    assert s[..b] == s[..a] + s[a..b];
    assert s[..c] == s[..b] + s[b..c];
    assert s[..d] == s[..c] + s[c..d];
    assert s == s[..d] + s[d..];
  }

  /** What the packer accepts is exactly such an image, under any signature but a blank one. */
  lemma AcceptedIsBuilt(got: seq<byte>, r: Request, vec: nat, body: nat)
    requires |r.timestamp| == 8 && vec <= HDR_OFF && Accepts(got, r, vec, body)
    ensures |r.version| <= 8 && r.pubkey < U32 && FirmwareLength(body) < U32
      && HDR_END + body <= |got|
    ensures got == Built(r, got[..vec], got[HDR_END..HDR_END + body], got[SIG_OFF..HDR_END])
  {
    PaddingIsLeast(body, 0);
    var h := HeaderOf(got);
    PackInvertsUnpack(got[HDR_OFF..HDR_END]);
    assert got[SIG_OFF..HDR_END] == h.signature;
    assert got[vec..HDR_OFF] == Repeat(0xff, HDR_OFF - vec);
    assert got[HDR_END + body..] == Repeat(0xff, PaddedBody(body) - body);
    InFive(got, vec, HDR_OFF, HDR_END, HDR_END + body);
  }

  lemma BuiltIsAccepted(r: Request, vectors: seq<byte>, body: seq<byte>, signature: seq<byte>)
    requires VersionAllowed(r.version) && |r.version| <= 8 && r.pubkey < U32 && |r.timestamp| == 8
    requires |body| >= BODY_FLOOR && FirmwareLength(|body|) < U32 && |vectors| <= HDR_OFF
    requires |signature| == SIG_LEN && signature != Repeat(0xff, SIG_LEN) && signature != Repeat(0, SIG_LEN)
    ensures Accepts(Built(r, vectors, body, signature), r, |vectors|, |body|)
  {
    var got := Built(r, vectors, body, signature);
    PaddingIsLeast(|body|, 0);
    UnpackInvertsPack(Wanted(r, |body|, signature));
    assert got[HDR_OFF..HDR_END] == Pack(Wanted(r, |body|, signature));
  }

  /** The version's bytes begin with something and a dot. */
  predicate IsDotted(v: seq<byte>) {
    |v| >= 2 && v[1] == 0x2E
  }

  lemma SecondIsDotIff(v: Str)
    ensures SecondIsDot(v) && v[0] < 0x33 <==> IsDotted(v) && v[0] < 0x33
  {
  }

  /** The packer's gate, on bytes: at most seven characters, and nothing below 3 before the first dot. */
  lemma VersionAllowedIff(v: Str)
    ensures VersionAllowed(v) <==> CharCount(v) <= 7 && !(IsDotted(v) && v[0] < 0x33)
  {
    SecondIsDotIff(v);
  }

  /** What the packer's gate and the checker's disagree on is exactly a dotted version led by more than a digit. */
  lemma GatesDifferIff(v: Str)
    requires |v| <= 8 && CharCount(v) <= 7
    ensures MajorOk(Justified(v)) ==> VersionAllowed(v)
    ensures VersionAllowed(v) && !MajorOk(Justified(v)) <==> IsDotted(v) && v[0] > 0x39
  {
    var j := Justified(v);
    VersionAllowedIff(v);
    assert forall i :: 0 <= i < |v| ==> j[i] == v[i];
    assert forall i :: |v| <= i < 8 ==> j[i] == 0;
  }

  predicate IsLetterByte(b: byte) {
    0x41 <= b <= 0x5A || 0x61 <= b <= 0x7A
  }

  /** The two gates differ: every dotted version led by a letter, if short enough, is packed and then refused. */
  lemma LetterLedVersionIsPackedAndRefused(v: Str)
    requires 2 <= |v| <= 8 && IsLetterByte(v[0]) && v[1] == DOT
    ensures VersionAllowed(v) <==> CharCount(v) < 8
    ensures !MajorOk(Justified(v)) && !VersionReads(v)
  {
    assert FirstLen(v) == 1;
    assert Justified(v)[0] == v[0] && Justified(v)[1] == v[1];
  }
}
