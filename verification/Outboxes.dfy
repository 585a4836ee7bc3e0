/** The outbox: bodies become frames on `Push`, under the framing caps. */
module Outboxes {
  import opened Wrappers
  import opened Utf8
  import opened Wire

  const DEBUG_MESSAGE_LIMIT: nat := 256
  const FRAME_LIMIT: nat := 4096

  /** `encode_frame` for one device: a whole frame of at most `FRAME_LIMIT` bytes, or an error. */
  type Encoder = e: imap<Body, Result<seq<byte>, CommsError>> |
    forall b :: b in e && (e[b].Success? ==> 0 < |e[b].value| <= FRAME_LIMIT)
    ghost witness imap b: Body :: Failure(EncodeFailed)

  /** The frames one body is meant to become: a nonce reply is split, a debug line is cut. */
  function Frames(body: Body): (frames: seq<Body>) {
    match body
    case FromCore(NonceResponse(segments)) =>
      if |segments| > 1 then seq(|segments|, i requires 0 <= i < |segments| => OneSegment(segments[i]))
      else [body]
    case Debug(text) => [Debug(TruncatedDebug(text))]
    case _ => [body]
  }

  function OneSegment(segment: Segment): Body {
    FromCore(NonceResponse([segment]))
  }

  /** The longest well-formed prefix within the limit, by its length. */
  function DebugCut(text: Str, end: nat): (n: nat)
    requires end <= |text|
    ensures n <= end && IsCharBoundary(text, n)
    ensures forall m: nat :: n < m <= end ==> !IsCharBoundary(text, m)
  {
    if IsCharBoundary(text, end) then end else DebugCut(text, end - 1)
  }

  function TruncatedDebug(text: Str): (r: Str)
    ensures r <= text && |r| <= DEBUG_MESSAGE_LIMIT
  {
    if |text| <= DEBUG_MESSAGE_LIMIT then text
    else
      var n := DebugCut(text, DEBUG_MESSAGE_LIMIT);
      BoundaryIffPrefixValid(text, n);
      text[..n]
  }

  /** The longest well-formed prefix of at most the limit, and never more than three bytes short of it. */
  lemma DebugTextIsLongestPrefix(text: Str)
    ensures |text| <= DEBUG_MESSAGE_LIMIT ==> TruncatedDebug(text) == text
    ensures |text| > DEBUG_MESSAGE_LIMIT ==> DEBUG_MESSAGE_LIMIT <= |TruncatedDebug(text)| + 3
    ensures forall p: seq<byte> :: p <= text && Valid(p) && |p| <= DEBUG_MESSAGE_LIMIT ==> p <= TruncatedDebug(text)
  {
    if |text| > DEBUG_MESSAGE_LIMIT {
      var n := DebugCut(text, DEBUG_MESSAGE_LIMIT);
      BoundaryWithinThree(text, DEBUG_MESSAGE_LIMIT);
      forall p: seq<byte> | p <= text && Valid(p) && |p| <= DEBUG_MESSAGE_LIMIT
        ensures p <= TruncatedDebug(text)
      {
        assert p == text[..|p|];
        BoundaryIffPrefixValid(text, |p|);
      }
    }
  }

  /** `truncate_debug`: step back from the limit to a character boundary. */
  method TruncateDebug(message: Str) returns (cut: Str)
    ensures cut == TruncatedDebug(message)
  {
    if |message| <= DEBUG_MESSAGE_LIMIT {
      return message;
    }
    var end := DEBUG_MESSAGE_LIMIT;
    while !IsCharBoundary(message, end)
      invariant 0 <= end <= DEBUG_MESSAGE_LIMIT
      invariant DebugCut(message, end) == DebugCut(message, DEBUG_MESSAGE_LIMIT)
      decreases end
    {
      end := end - 1;
    }
    BoundaryIffPrefixValid(message, end);
    cut := message[..end];
  }

  // ---- the frames a push appends

  /** How many of `frames` encode before the first that does not. */
  function Accepted(encode: Encoder, frames: seq<Body>): (n: nat)
    ensures n <= |frames|
    ensures forall i :: 0 <= i < n ==> encode[frames[i]].Success?
    ensures n < |frames| ==> encode[frames[n]].Failure?
  {
    if frames == [] || encode[frames[0]].Failure? then 0
    else 1 + Accepted(encode, frames[1..])
  }

  lemma AcceptedIs(encode: Encoder, frames: seq<Body>, n: nat)
    requires n <= |frames|
    requires forall i :: 0 <= i < n ==> encode[frames[i]].Success?
    requires n < |frames| ==> encode[frames[n]].Failure?
    ensures Accepted(encode, frames) == n
  {
  }

  /** The frames `Push(body)` leaves behind. */
  function Pushed(encode: Encoder, body: Body): seq<Body> {
    Frames(body)[..Accepted(encode, Frames(body))]
  }

  /** What `Push(body)` answers. */
  function PushResult(encode: Encoder, body: Body): Result<(), CommsError> {
    var n := Accepted(encode, Frames(body));
    if n == |Frames(body)| then Success(()) else Failure(encode[Frames(body)[n]].error)
  }

  /** Cap (a): every segment in its own frame, in order; a failure leaves a proper prefix of them. */
  lemma NonceReplyIsSplit(encode: Encoder, segments: seq<Segment>)
    requires |segments| >= 1
    ensures var pushed := Pushed(encode, FromCore(NonceResponse(segments)));
      && |pushed| <= |segments|
      && (forall i :: 0 <= i < |pushed| ==> pushed[i] == OneSegment(segments[i]))
      && (PushResult(encode, FromCore(NonceResponse(segments))).Success? <==> |pushed| == |segments|)
  {
    if |segments| == 1 {
      assert segments == [segments[0]];
    }
  }

  /** Every other body is one frame or nothing. */
  lemma OtherBodiesAreWhole(encode: Encoder, body: Body)
    requires body.FromCore? && body.message.NonceResponse? ==> |body.message.segments| <= 1
    ensures |Pushed(encode, body)| == if PushResult(encode, body).Success? then 1 else 0
    ensures PushResult(encode, body).Success? && !body.Debug? ==> Pushed(encode, body) == [body]
    ensures PushResult(encode, body).Success? && body.Debug?
            ==> Pushed(encode, body) == [Debug(TruncatedDebug(body.text))]
  {
    assert |Frames(body)| == 1;
  }

  lemma WholeFrame(encode: Encoder, body: Body)
    requires |Frames(body)| == 1
    ensures encode[Frames(body)[0]].Success?
            ==> Pushed(encode, body) == Frames(body) && PushResult(encode, body) == Success(())
    ensures encode[Frames(body)[0]].Failure?
            ==> Pushed(encode, body) == [] && PushResult(encode, body) == Failure(encode[Frames(body)[0]].error)
  {
    AcceptedIs(encode, Frames(body), if encode[Frames(body)[0]].Success? then 1 else 0);
  }

  // ---- the byte stream

  /** The bytes of a run of frames. */
  function Stream(encode: Encoder, frames: seq<Body>): seq<byte>
    requires forall i :: 0 <= i < |frames| ==> encode[frames[i]].Success?
  {
    if frames == [] then [] else encode[frames[0]].value + Stream(encode, frames[1..])
  }

  lemma {:induction false} StreamAppend(encode: Encoder, a: seq<Body>, b: seq<Body>)
    requires forall i :: 0 <= i < |a| ==> encode[a[i]].Success?
    requires forall i :: 0 <= i < |b| ==> encode[b[i]].Success?
    ensures forall i :: 0 <= i < |a + b| ==> encode[(a + b)[i]].Success?
    ensures Stream(encode, a + b) == Stream(encode, a) + Stream(encode, b)
  {
    if a == [] {
      assert a + b == b;
    } else {
      StreamAppend(encode, a[1..], b);
      assert (a + b)[1..] == a[1..] + b;
    }
  }

  /** The wire has no length prefix: what lets a reader cut it is that no frame begins another. */
  ghost predicate SelfDelimiting(encode: Encoder) {
    forall b, c :: encode[b].Success? && encode[c].Success? && encode[b].value <= encode[c].value ==> b == c
  }

  /** Under a self-delimiting encoding the buffered bytes determine the frames. */
  lemma {:induction false} StreamIsUniquelyCut(encode: Encoder, a: seq<Body>, b: seq<Body>)
    requires SelfDelimiting(encode)
    requires forall i :: 0 <= i < |a| ==> encode[a[i]].Success?
    requires forall i :: 0 <= i < |b| ==> encode[b[i]].Success?
    requires Stream(encode, a) == Stream(encode, b)
    ensures a == b
  {
    if a == [] || b == [] {
    } else {
      var x, y := encode[a[0]].value, encode[b[0]].value;
      var rest := Stream(encode, a);
      assert x == rest[..|x|] && y == rest[..|y|];
      assert x <= y || y <= x;
      assert a[0] == b[0];
      assert Stream(encode, a[1..]) == rest[|x|..] == Stream(encode, b[1..]);
      StreamIsUniquelyCut(encode, a[1..], b[1..]);
    }
  }

  /** `bytes` is exactly the encodings of `sent`, one after another. */
  ghost predicate Holding(encode: Encoder, bytes: seq<byte>, frames: nat, sent: seq<Body>) {
    && (forall i :: 0 <= i < |sent| ==> encode[sent[i]].Success?)
    && bytes == Stream(encode, sent)
    && frames == |sent|
  }

  /** Encoded frames waiting to go out. `sent` is the ghost list of the bodies the bytes encode. */
  class Outbox {
    const encode: Encoder
    var bytes: seq<byte>
    var frames: nat
    ghost var sent: seq<Body>

    ghost predicate Valid()
      reads this
    {
      Holding(encode, bytes, frames, sent)
    }

    constructor (encode: Encoder)
      ensures Valid() && this.encode == encode && sent == []
    {
      this.encode := encode;
      bytes := [];
      frames := 0;
      sent := [];
    }

    /** Hand over the buffered bytes and reset. */
    method Take() returns (taken: seq<byte>)
      requires Valid()
      modifies this
      ensures Valid() && sent == []
      ensures taken == Stream(encode, old(sent))
    {
      taken := bytes;
      frames := 0;
      bytes := [];
      sent := [];
    }

    method Push(body: Body) returns (r: Result<(), CommsError>)
      requires Valid()
      modifies this
      ensures Valid()
      ensures sent == old(sent) + Pushed(encode, body)
      ensures r == PushResult(encode, body)
      decreases if body.FromCore? && body.message.NonceResponse? then |body.message.segments| else 0
    {
      match body {
        case FromCore(NonceResponse(segments)) =>
          if |segments| > 1 {
            r := PushEach(segments);
          } else {
            WholeFrame(encode, body);
            r := Encode(body);
          }
        case Debug(text) =>
          WholeFrame(encode, body);
          var cut := TruncateDebug(text);
          r := Encode(Debug(cut));
        case _ =>
          WholeFrame(encode, body);
          r := Encode(body);
      }
    }

    /** Cap (a): one push per segment. */
    method PushEach(segments: seq<Segment>) returns (r: Result<(), CommsError>)
      requires Valid() && |segments| > 1
      modifies this
      ensures Valid()
      ensures sent == old(sent) + Pushed(encode, FromCore(NonceResponse(segments)))
      ensures r == PushResult(encode, FromCore(NonceResponse(segments)))
      decreases |segments|, 0
    {
      ghost var frames := Frames(FromCore(NonceResponse(segments)));
      for i := 0 to |segments|
        invariant Valid()
        invariant forall j :: 0 <= j < i ==> encode[frames[j]].Success?
        invariant sent == old(sent) + frames[..i]
      {
        WholeFrame(encode, OneSegment(segments[i]));
        r := Push(FromCore(NonceResponse([segments[i]])));
        if r.Failure? {
          AcceptedIs(encode, frames, i);
          return;
        }
        assert frames[..i + 1] == frames[..i] + [frames[i]];
      }
      AcceptedIs(encode, frames, |segments|);
      assert frames[..|segments|] == frames;
      r := Success(());
    }

    /** One body, one frame: nothing is left behind when it does not encode. */
    method Encode(body: Body) returns (r: Result<(), CommsError>)
      requires Valid()
      modifies this
      ensures Valid()
      ensures encode[body].Success? ==> r == Success(()) && sent == old(sent) + [body]
      ensures encode[body].Failure? ==> r == Failure(encode[body].error) && sent == old(sent)
      ensures encode[body].Failure? ==> bytes == old(bytes) && frames == old(frames)
    {
      match encode[body] {
        case Failure(error) => r := Failure(error);
        case Success(frame) =>
          StreamAppend(encode, sent, [body]);
          assert Stream(encode, [body]) == frame;
          bytes := bytes + frame;
          frames := frames + 1;
          sent := sent + [body];
          r := Success(());
      }
    }
  }
}
