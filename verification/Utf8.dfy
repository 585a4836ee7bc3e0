/** Byte strings and the well-formed UTF-8 among them (sections 3 and 4 of RFC 3629). */
module Utf8 {

  type byte = x: int | 0 <= x < 256

  /** A `String`: bytes that are always well-formed UTF-8. */
  type Str = s: seq<byte> | Valid(s) witness []

  predicate IsContinuation(b: byte) {
    0x80 <= b < 0xC0
  }

  /** Length of the well-formed character `s` starts with, or 0 when there is none. */
  function FirstLen(s: seq<byte>): (n: nat)
    ensures n <= 4 && n <= |s|
  {
    if s == [] then 0
    else if s[0] < 0x80 then 1
    else if 0xC2 <= s[0] < 0xE0 && |s| >= 2 && IsContinuation(s[1]) then 2
    else if 0xE0 <= s[0] < 0xF0 && |s| >= 3 && SecondOk(s[0], s[1]) && IsContinuation(s[2]) then 3
    else if 0xF0 <= s[0] < 0xF5 && |s| >= 4 && SecondOk(s[0], s[1])
            && IsContinuation(s[2]) && IsContinuation(s[3]) then 4
    else 0
  }

  /** The narrowed second-byte ranges: no overlong form, no surrogate, nothing past U+10FFFF. */
  predicate SecondOk(lead: byte, second: byte) {
    && IsContinuation(second)
    && (lead == 0xE0 ==> 0xA0 <= second)
    && (lead == 0xED ==> second < 0xA0)
    && (lead == 0xF0 ==> 0x90 <= second)
    && (lead == 0xF4 ==> second < 0x90)
  }

  predicate Valid(s: seq<byte>) {
    s == [] || (FirstLen(s) > 0 && Valid(s[FirstLen(s)..]))
  }

  /** `s.chars().count()`. */
  function CharCount(s: Str): nat {
    if s == [] then 0 else 1 + CharCount(s[FirstLen(s)..])
  }

  /** `s.chars().take(n).collect()`. */
  function TakeChars(s: Str, n: nat): (r: Str)
    ensures r <= s && CharCount(r) == if CharCount(s) <= n then CharCount(s) else n
    ensures CharCount(s) <= n ==> r == s
  {
    if s == [] || n == 0 then []
    else
      var k := FirstLen(s);
      var rest := TakeChars(s[k..], n - 1);
      var r := s[..k] + rest;
      FirstLenOfPrefix(s, |r|);
      assert r == s[..|r|];
      assert r[k..] == rest;
      r
  }

  /** Rust's `is_char_boundary`: not inside a character. */
  predicate IsCharBoundary(s: seq<byte>, i: nat) {
    i == 0 || i == |s| || (i < |s| && !IsContinuation(s[i]))
  }

  lemma FirstLenOfPrefix(s: seq<byte>, i: nat)
    requires FirstLen(s) <= i <= |s|
    ensures FirstLen(s) > 0 ==> FirstLen(s[..i]) == FirstLen(s)
  {
  }

  /** The bytes after the first of a character are all continuation bytes, and no lead byte is. */
  lemma FirstCharShape(s: seq<byte>)
    requires FirstLen(s) > 0
    ensures !IsContinuation(s[0])
    ensures forall j :: 0 < j < FirstLen(s) ==> IsContinuation(s[j])
  {
  }

  /** A well-formed string never starts, after any whole number of characters, inside a character. */
  lemma ValidStartsOnALead(s: seq<byte>)
    requires Valid(s) && s != []
    ensures !IsContinuation(s[0])
  {
  }

  /** A character boundary is exactly a place where a prefix is well-formed by itself. */
  lemma {:induction false} BoundaryIffPrefixValid(s: seq<byte>, i: nat)
    requires Valid(s) && i <= |s|
    ensures IsCharBoundary(s, i) <==> Valid(s[..i])
    decreases |s|
  {
    if i == 0 {
    } else {
      var k := FirstLen(s);
      if i < k {
        FirstCharShape(s);
        ShortPrefixInvalid(s, i);
      } else {
        FirstLenOfPrefix(s, i);
        assert s[..i][k..] == s[k..][..i - k];
        BoundaryIffPrefixValid(s[k..], i - k);
        if i == k && i < |s| {
          ValidStartsOnALead(s[k..]);
          assert s[k..][0] == s[i];
        }
      }
    }
  }

  lemma ShortPrefixInvalid(s: seq<byte>, i: nat)
    requires 0 < i < FirstLen(s)
    ensures !Valid(s[..i])
  {
    assert s[..i][0] == s[0];
    assert FirstLen(s[..i]) == 0;
  }

  /** A boundary is never more than three bytes away. */
  lemma {:induction false} BoundaryWithinThree(s: seq<byte>, i: nat)
    requires Valid(s) && i <= |s|
    ensures exists j: nat :: i <= j + 3 && j <= i && IsCharBoundary(s, j)
    decreases |s|
  {
    if s == [] {
      assert IsCharBoundary(s, i);
    } else if i < FirstLen(s) {
      assert IsCharBoundary(s, 0);
    } else {
      var k := FirstLen(s);
      BoundaryWithinThree(s[k..], i - k);
      var j: nat :| i - k <= j + 3 && j <= i - k && IsCharBoundary(s[k..], j);
      if 0 < j < |s[k..]| {
        assert s[k..][j] == s[j + k];
      } else if j == 0 && k < |s| {
        ValidStartsOnALead(s[k..]);
        assert s[k..][0] == s[k];
      }
      assert IsCharBoundary(s, j + k);
    }
  }

  /** At most four bytes to a character. */
  lemma {:induction false} FourBytesPerChar(s: Str)
    ensures |s| <= 4 * CharCount(s)
    decreases |s|
  {
    if s != [] {
      FourBytesPerChar(s[FirstLen(s)..]);
    }
  }

  /** The byte of a glyph; a character past ASCII, which no glyph is, becomes the missing one. */
  function GlyphByte(c: char): (b: byte)
    ensures b < 0x80
  {
    if c < 128 as char then c as int else 0x7F
  }

  /** Text read off the glass, as bytes. */
  function GlyphBytes(s: string): (r: Str)
    ensures |r| == |s| && forall i :: 0 <= i < |s| ==> r[i] == GlyphByte(s[i])
  {
    if s == [] then []
    else
      var rest := GlyphBytes(s[1..]);
      var r: seq<byte> := [GlyphByte(s[0])] + rest;
      assert FirstLen(r) == 1 && r[1..] == rest;
      r
  }
}
