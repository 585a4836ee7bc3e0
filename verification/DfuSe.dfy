/** The DfuSe container: finding the element that lands at the flash base, and what was skipped to get there. */
module DfuSe {
  import opened Wrappers
  import opened Utf8
  import opened Tagged
  import opened Firmware

  const FLASH_BASE: nat := 0x0802_0000
  const COUNT_AT: nat := 281
  const FIRST_ELEMENT: nat := 285
  /** `DfuSe`. */
  const SIGNATURE: seq<byte> := [0x44, 0x66, 0x75, 0x53, 0x65]

  datatype Element = Element(address: nat, data: seq<byte>)

  /** The slice of the file that is the image. */
  datatype Found = Whole | At(start: nat, size: nat)

  datatype ContainerFault =
    | TruncatedPrefix | HeaderPastEnd(at: nat) | BodyPastEnd(address: nat) | NoImage(seen: seq<nat>)

  // ---- the format

  function Encoded(e: Element): seq<byte> {
    Le32(e.address) + Le32(|e.data|) + e.data
  }

  function EncodedAll(elements: seq<Element>): seq<byte> {
    if elements == [] then [] else Encoded(elements[0]) + EncodedAll(elements[1..])
  }

  predicate Encodable(elements: seq<Element>) {
    |elements| < U32
    && forall i :: 0 <= i < |elements| ==> elements[i].address < U32 && |elements[i].data| < U32
  }

  /** A DfuSe file: 281 bytes of prefix, the count, and the elements end to end; a suffix may follow. */
  function File(prefix: seq<byte>, elements: seq<Element>, suffix: seq<byte>): seq<byte>
    requires |prefix| == COUNT_AT
  {
    prefix + Le32(|elements|) + EncodedAll(elements) + suffix
  }

  // ---- reading it

  function AddressAt(raw: seq<byte>, at: nat): nat
    requires at + 8 <= |raw|
  {
    U32At(raw, at)
  }

  function SizeAt(raw: seq<byte>, at: nat): nat
    requires at + 8 <= |raw|
  {
    U32At(raw, at + 4)
  }

  /** `locate_image`, from some element on. */
  function LocateFrom(raw: seq<byte>, at: nat, left: nat, seen: seq<nat>): Result<Found, ContainerFault>
    decreases left
  {
    if left == 0 then Failure(NoImage(seen))
    else if at + 8 > |raw| then Failure(HeaderPastEnd(at))
    else
      var address, size := AddressAt(raw, at), SizeAt(raw, at);
      if at + 8 + size > |raw| then Failure(BodyPastEnd(address))
      else if address == FLASH_BASE then Success(At(at + 8, size))
      else LocateFrom(raw, at + 8 + size, left - 1, seen + [address])
  }

  function Locate(raw: seq<byte>): Result<Found, ContainerFault> {
    if !(SIGNATURE <= raw) then Success(Whole)
    else if |raw| < FIRST_ELEMENT then Failure(TruncatedPrefix)
    else LocateFrom(raw, FIRST_ELEMENT, U32At(raw, COUNT_AT), [])
  }

  method LocateImage(raw: seq<byte>) returns (r: Result<Found, ContainerFault>)
    ensures r == Locate(raw)
  {
    if !(SIGNATURE <= raw) {
      return Success(Whole);
    }
    if |raw| < FIRST_ELEMENT {
      return Failure(TruncatedPrefix);
    }
    var count := U32At(raw, COUNT_AT);
    var at: nat := FIRST_ELEMENT;
    var seen: seq<nat> := [];
    for i := 0 to count
      invariant Locate(raw) == LocateFrom(raw, at, count - i, seen)
    {
      if at + 8 > |raw| {
        return Failure(HeaderPastEnd(at));
      }
      var address, size := AddressAt(raw, at), SizeAt(raw, at);
      if at + 8 + size > |raw| {
        return Failure(BodyPastEnd(address));
      }
      if address == FLASH_BASE {
        return Success(At(at + 8, size));
      }
      seen := seen + [address];
      at := at + 8 + size;
    }
    r := Failure(NoImage(seen));
  }

  // ---- what it finds

  /** The addresses of the elements before the first at the flash base. */
  function Addresses(elements: seq<Element>): seq<nat> {
    if elements == [] then [] else [elements[0].address] + Addresses(elements[1..])
  }

  predicate Skipped(elements: seq<Element>) {
    forall i :: 0 <= i < |elements| ==> elements[i].address != FLASH_BASE
  }

  /** A file holds some bytes at a place. */
  predicate HoldsAt(raw: seq<byte>, at: nat, bytes: seq<byte>) {
    at + |bytes| <= |raw| && raw[at..at + |bytes|] == bytes
  }

  lemma HoldsBoth(raw: seq<byte>, at: nat, a: seq<byte>, b: seq<byte>)
    requires HoldsAt(raw, at, a + b)
    ensures HoldsAt(raw, at, a) && HoldsAt(raw, at + |a|, b)
  {
    assert a == (a + b)[..|a|] && b == (a + b)[|a|..];
  }

  lemma ElementReadsBack(raw: seq<byte>, at: nat, e: Element)
    requires HoldsAt(raw, at, Encoded(e)) && e.address < U32 && |e.data| < U32
    ensures at + 8 + |e.data| <= |raw|
    ensures AddressAt(raw, at) == e.address && SizeAt(raw, at) == |e.data|
    ensures raw[at + 8..at + 8 + |e.data|] == e.data
  {
    var head := Le32(e.address) + Le32(|e.data|);
    HoldsBoth(raw, at, head, e.data);
    HoldsBoth(raw, at, Le32(e.address), Le32(|e.data|));
    Le32RoundTrip(e.address);
    Le32RoundTrip(|e.data|);
  }

  lemma SeenInOrder(seen: seq<nat>, address: nat, rest: seq<nat>)
    ensures (seen + [address]) + rest == seen + ([address] + rest)
    ensures seen + [] == seen
  {
  }

  /** Elements lie end to end, each header where the one before it ended. */
  predicate ElementsAt(raw: seq<byte>, at: nat, elements: seq<Element>)
    decreases |elements|
  {
    elements == [] ||
    (var e := elements[0];
     && at + 8 + |e.data| <= |raw| && AddressAt(raw, at) == e.address && SizeAt(raw, at) == |e.data|
     && ElementsAt(raw, at + 8 + |e.data|, elements[1..]))
  }

  function Span(elements: seq<Element>): nat
    decreases |elements|
  {
    if elements == [] then 0 else 8 + |elements[0].data| + Span(elements[1..])
  }

  lemma {:induction false} EncodedIsLaid(raw: seq<byte>, at: nat, elements: seq<Element>)
    requires HoldsAt(raw, at, EncodedAll(elements)) && Encodable(elements)
    ensures ElementsAt(raw, at, elements) && Span(elements) == |EncodedAll(elements)|
    decreases |elements|
  {
    if elements != [] {
      var e, rest := elements[0], elements[1..];
      HoldsBoth(raw, at, Encoded(e), EncodedAll(rest));
      ElementReadsBack(raw, at, e);
      EncodedIsLaid(raw, at + 8 + |e.data|, rest);
    }
  }

  /** Elements that do not land at the base are walked over one by one. */
  lemma {:induction false} WalksOver(raw: seq<byte>, at: nat, elements: seq<Element>, left: nat, seen: seq<nat>,
                                     seenPast: seq<nat>)
    requires ElementsAt(raw, at, elements) && Skipped(elements) && |elements| <= left
    requires seenPast == seen + Addresses(elements)
    ensures LocateFrom(raw, at, left, seen)
         == LocateFrom(raw, at + Span(elements), left - |elements|, seenPast)
    decreases |elements|
  {
    if elements == [] {
      SeenInOrder(seen, 0, []);
    } else {
      var e, rest := elements[0], elements[1..];
      SeenInOrder(seen, e.address, Addresses(rest));
      WalksOver(raw, at + 8 + |e.data|, rest, left - 1, seen + [e.address], seenPast);
    }
  }

  lemma FileStarts(prefix: seq<byte>, elements: seq<Element>, suffix: seq<byte>)
    requires |prefix| == COUNT_AT && SIGNATURE <= prefix && Encodable(elements)
    ensures var raw := File(prefix, elements, suffix);
      && SIGNATURE <= raw && |raw| >= FIRST_ELEMENT && U32At(raw, COUNT_AT) == |elements|
      && HoldsAt(raw, FIRST_ELEMENT, EncodedAll(elements))
  {
    var raw := File(prefix, elements, suffix);
    assert raw[COUNT_AT..COUNT_AT + 4] == Le32(|elements|);
    Le32RoundTrip(|elements|);
  }

  /** Where an element's data lies in a file. */
  function DataAt(elements: seq<Element>, i: nat): nat
    requires i < |elements|
  {
    FIRST_ELEMENT + |EncodedAll(elements[..i])| + 8
  }

  /** The image of a file is the data of its first element at the flash base. */
  lemma FirstAtTheBaseIsFound(prefix: seq<byte>, elements: seq<Element>, suffix: seq<byte>, i: nat)
    requires |prefix| == COUNT_AT && SIGNATURE <= prefix && Encodable(elements)
    requires i < |elements| && elements[i].address == FLASH_BASE && Skipped(elements[..i])
    ensures var raw := File(prefix, elements, suffix); var start := DataAt(elements, i);
      && Locate(raw) == Success(At(start, |elements[i].data|))
      && start + |elements[i].data| <= |raw| && raw[start..start + |elements[i].data|] == elements[i].data
  {
    var raw := File(prefix, elements, suffix);
    var first, e, rest := elements[..i], elements[i], elements[i + 1..];
    FileStarts(prefix, elements, suffix);
    EncodedAround(elements, i);
    HoldsBoth(raw, FIRST_ELEMENT, EncodedAll(first), Encoded(e) + EncodedAll(rest));
    EncodedIsLaid(raw, FIRST_ELEMENT, first);
    WalksOver(raw, FIRST_ELEMENT, first, |elements|, [], [] + Addresses(first));
    var at := FIRST_ELEMENT + |EncodedAll(first)|;
    HoldsBoth(raw, at, Encoded(e), EncodedAll(rest));
    ElementReadsBack(raw, at, e);
  }

  lemma Regroup(a: seq<byte>, b: seq<byte>, c: seq<byte>)
    ensures a + (b + c) == (a + b) + c
  {
  }

  lemma {:induction false} EncodedAround(elements: seq<Element>, i: nat)
    requires i < |elements|
    ensures EncodedAll(elements) == EncodedAll(elements[..i]) + (Encoded(elements[i]) + EncodedAll(elements[i + 1..]))
    decreases i
  {
    if i == 0 {
      assert EncodedAll(elements[..0]) == [];
    } else {
      EncodedAround(elements[1..], i - 1);
      assert elements[1..][..i - 1] == elements[..i][1..];
      assert elements[1..][i..] == elements[i + 1..];
      Regroup(Encoded(elements[0]), EncodedAll(elements[..i][1..]),
          Encoded(elements[i]) + EncodedAll(elements[i + 1..]));
    }
  }

  /** A file with no element at the base has no image, and the refusal names every address it has. */
  lemma NoneAtTheBaseIsRefused(prefix: seq<byte>, elements: seq<Element>, suffix: seq<byte>)
    requires |prefix| == COUNT_AT && SIGNATURE <= prefix && Encodable(elements) && Skipped(elements)
    ensures Locate(File(prefix, elements, suffix)) == Failure(NoImage(Addresses(elements)))
  {
    FileStarts(prefix, elements, suffix);
    EncodedIsLaid(File(prefix, elements, suffix), FIRST_ELEMENT, elements);
    AllSkipped(File(prefix, elements, suffix), FIRST_ELEMENT, elements);
  }

  lemma AllSkipped(raw: seq<byte>, at: nat, elements: seq<Element>)
    requires ElementsAt(raw, at, elements) && Skipped(elements)
    ensures LocateFrom(raw, at, |elements|, []) == Failure(NoImage(Addresses(elements)))
  {
    var seen := Addresses(elements);
    assert seen == [] + seen;
    WalksOver(raw, at, elements, |elements|, [], seen);
  }

  // ---- whatever the bytes

  /** The walk from `from` to `to` steps over whole elements, none of which lands at the base. */
  ghost predicate LaidEndToEnd(raw: seq<byte>, from: nat, to: nat, steps: nat)
    decreases steps
  {
    if steps == 0 then from == to
    else
      && from + 8 <= |raw|
      && AddressAt(raw, from) != FLASH_BASE
      && from + 8 + SizeAt(raw, from) <= |raw|
      && LaidEndToEnd(raw, from + 8 + SizeAt(raw, from), to, steps - 1)
  }

  /** The element whose data starts at `start` is reached in so many steps. */
  ghost predicate Reaches(raw: seq<byte>, from: nat, start: nat, steps: nat) {
    start >= 8 && LaidEndToEnd(raw, from, start - 8, steps)
  }

  lemma {:induction false} FoundIsReached(raw: seq<byte>, at: nat, left: nat, seen: seq<nat>)
    requires LocateFrom(raw, at, left, seen).Success?
    ensures var f := LocateFrom(raw, at, left, seen).value;
      f.At? && f.start >= 8 && f.start + f.size <= |raw|
      && AddressAt(raw, f.start - 8) == FLASH_BASE && SizeAt(raw, f.start - 8) == f.size
      && exists steps: nat :: steps < left && Reaches(raw, at, f.start, steps)
    decreases left
  {
    var f := LocateFrom(raw, at, left, seen).value;
    if AddressAt(raw, at) == FLASH_BASE {
      assert Reaches(raw, at, f.start, 0);
    } else {
      var next := at + 8 + SizeAt(raw, at);
      FoundIsReached(raw, next, left - 1, seen + [AddressAt(raw, at)]);
      var steps: nat :| steps < left - 1 && Reaches(raw, next, f.start, steps);
      assert Reaches(raw, at, f.start, steps + 1);
    }
  }

  /**
   Of arbitrary bytes: an image found in a container is a slice of them, headed by an element header for
   the flash base that states its size, reached from the first element over whole elements laid end to
   end, fewer of them than the count says. Anything but a container is the image itself.
   */
  lemma FoundIsInBounds(raw: seq<byte>)
    requires Locate(raw).Success?
    ensures !(SIGNATURE <= raw) ==> Locate(raw).value == Whole
    ensures SIGNATURE <= raw ==>
      var f := Locate(raw).value;
      && f.At? && f.start >= 8 && f.start + f.size <= |raw|
      && AddressAt(raw, f.start - 8) == FLASH_BASE && SizeAt(raw, f.start - 8) == f.size
      && exists steps: nat :: steps < U32At(raw, COUNT_AT) && Reaches(raw, FIRST_ELEMENT, f.start, steps)
  {
    if SIGNATURE <= raw {
      FoundIsReached(raw, FIRST_ELEMENT, U32At(raw, COUNT_AT), []);
    }
  }
}
