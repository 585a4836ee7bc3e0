/** The length-prefixed hash preimage behind the device's three derivations. */
module Tagged {
  import opened Utf8

  /** Four little-endian bytes of a `u32`; a longer number wraps, as `as u32` does. */
  function Le32(n: nat): (b: seq<byte>)
    ensures |b| == 4
  {
    [n % 256, n / 256 % 256, n / 65536 % 256, n / 16777216 % 256]
  }

  function FromLe32(b: seq<byte>): nat
    requires |b| == 4
  {
    b[0] as int + 256 * b[1] as int + 65536 * b[2] as int + 16777216 * b[3] as int
  }

  lemma Le32RoundTrip(n: nat)
    requires n < 0x1_0000_0000
    ensures FromLe32(Le32(n)) == n
  {
    var a, b, c := n / 256, n / 65536, n / 16777216;
    assert b == a / 256 && c == b / 256;
    assert n == n % 256 + 256 * a;
    assert a == a % 256 + 256 * b;
    assert b == b % 256 + 256 * c;
  }

  function Ascii(s: string): (b: seq<byte>)
    requires forall i :: 0 <= i < |s| ==> s[i] as int < 128
    ensures |b| == |s| && forall i :: 0 <= i < |s| ==> b[i] == s[i] as int
  {
    seq(|s|, i requires 0 <= i < |s| => s[i] as int)
  }

  /** The bytes `tagged` hashes after the domain. */
  function Parts(parts: seq<seq<byte>>): seq<byte> {
    if parts == [] then [] else Le32(|parts[0]|) + parts[0] + Parts(parts[1..])
  }

  function Preimage(domain: seq<byte>, parts: seq<seq<byte>>): seq<byte> {
    domain + Parts(parts)
  }

  ghost predicate Short(parts: seq<seq<byte>>) {
    forall i :: 0 <= i < |parts| ==> |parts[i]| < 0x1_0000_0000
  }

  /** Equal byte runs split into the same parts, however many there are on either side. */
  lemma {:induction false} PartsInjective(p: seq<seq<byte>>, q: seq<seq<byte>>)
    requires Short(p) && Short(q)
    requires Parts(p) == Parts(q)
    ensures p == q
  {
    if p == [] || q == [] {
      assert p == q;
    } else {
      var s := Parts(p);
      assert s[..4] == Le32(|p[0]|) == Le32(|q[0]|);
      Le32RoundTrip(|p[0]|);
      Le32RoundTrip(|q[0]|);
      var n := |p[0]|;
      assert p[0] == s[4..4 + n] == q[0];
      assert Parts(p[1..]) == s[4 + n..] == Parts(q[1..]);
      PartsInjective(p[1..], q[1..]);
      assert p == [p[0]] + p[1..] && q == [q[0]] + q[1..];
    }
  }

  /** Domains neither of which begins the other keep whole preimages apart. */
  lemma PreimageInjective(d: seq<byte>, p: seq<seq<byte>>, e: seq<byte>, q: seq<seq<byte>>)
    requires Short(p) && Short(q)
    requires d == e || !(d <= e || e <= d)
    requires Preimage(d, p) == Preimage(e, q)
    ensures d == e && p == q
  {
    var s := Preimage(d, p);
    assert d == s[..|d|] && e == s[..|e|];
    assert d <= e || e <= d;
    assert Parts(p) == s[|d|..] == Parts(q);
    PartsInjective(p, q);
  }

  // ---- the three uses

  const SHARE_DOMAIN := "coldsnap/share-encryption/v1"
  const NONCE_DOMAIN := "coldsnap/nonce-seed/v1"
  const NAME_DOMAIN := "coldsnap/device-name/v1"

  /** One call of `tagged`, with the parts it is given. */
  datatype Derivation =
    | ShareKey(seed: seq<byte>, keyId: seq<byte>, structureId: seq<byte>, index: seq<byte>, coordKey: seq<byte>)
    | NonceSeed(seed: seq<byte>, stream: seq<byte>, counter: seq<byte>, material: seq<byte>)
    | NameTag(body: seq<byte>)

  function DomainOf(d: Derivation): seq<byte> {
    match d
    case ShareKey(_, _, _, _, _) => Ascii(SHARE_DOMAIN)
    case NonceSeed(_, _, _, _) => Ascii(NONCE_DOMAIN)
    case NameTag(_) => Ascii(NAME_DOMAIN)
  }

  function PartsOf(d: Derivation): seq<seq<byte>> {
    match d
    case ShareKey(seed, keyId, structureId, index, coordKey) => [seed, keyId, structureId, index, coordKey]
    case NonceSeed(seed, stream, counter, material) => [seed, stream, counter, material]
    case NameTag(body) => [body]
  }

  function DerivationBytes(d: Derivation): seq<byte> {
    Preimage(DomainOf(d), PartsOf(d))
  }

  lemma DomainsApart(d: Derivation, e: Derivation)
    ensures DomainOf(d) == DomainOf(e) || !(DomainOf(d) <= DomainOf(e) || DomainOf(e) <= DomainOf(d))
    ensures DomainOf(d) == DomainOf(e) ==> (d.ShareKey? == e.ShareKey? && d.NonceSeed? == e.NonceSeed?)
  {
    assert Ascii(SHARE_DOMAIN)[9] == 's' as int && Ascii(NONCE_DOMAIN)[9] == 'n' as int
        && Ascii(NAME_DOMAIN)[9] == 'd' as int;
  }

  /** No two different inputs of the three derivations are ever hashed from the same bytes. */
  lemma DerivationsNeverCollide(d: Derivation, e: Derivation)
    requires Short(PartsOf(d)) && Short(PartsOf(e))
    requires DerivationBytes(d) == DerivationBytes(e)
    ensures d == e
  {
    DomainsApart(d, e);
    PreimageInjective(DomainOf(d), PartsOf(d), DomainOf(e), PartsOf(e));
    var p, q := PartsOf(d), PartsOf(e);
    match d {
      case ShareKey(a, b, c, x, y) =>
        assert p[0] == q[0] && p[1] == q[1] && p[2] == q[2] && p[3] == q[3] && p[4] == q[4];
      case NonceSeed(a, b, c, x) =>
        assert p[0] == q[0] && p[1] == q[1] && p[2] == q[2] && p[3] == q[3];
      case NameTag(a) =>
        assert p[0] == q[0];
    }
  }
}
