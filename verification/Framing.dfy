/** The frames of the host-child link and their payloads (include/zen/isolation/protocol.hpp):
    [u32 length][u8 op][payload], little-endian. */
module Framing {
  import opened Bytes
  import opened Wire

  const MAX_FRAME: nat := 64 * 1024 * 1024

  const OP_HELLO: byte := 1
  const OP_EMIT: byte := 2
  const OP_SNAPSHOT: byte := 3
  const OP_DELIVER: byte := 16
  const OP_REVIVE: byte := 17
  const OP_SHUTDOWN: byte := 18

  datatype Frame = Frame(op: byte, payload: bytes)

  /** A frame as it is written; the length is cut to 32 bits. */
  function FrameText(f: Frame): bytes { PutLE(|f.payload|, 4) + ([f.op] + f.payload) }

  function Stream(fs: seq<Frame>): bytes {
    if fs == [] then [] else FrameText(fs[0]) + Stream(fs[1..])
  }

  predicate Fit(fs: seq<Frame>) { forall i :: 0 <= i < |fs| ==> |fs[i].payload| <= MAX_FRAME }

  // ---- reading frames back ------------------------------------------------------------------

  /** What the front of a buffer holds. */
  datatype Next = Incomplete | TooLong | Whole(frame: Frame, rest: bytes)

  function NextFrame(b: bytes): (r: Next)
    ensures r.Whole? ==> |r.rest| + 5 + |r.frame.payload| == |b|
  {
    if |b| < 5 then Incomplete
    else
      var len := FromLE(b[..4]);
      if len > MAX_FRAME then TooLong
      else if |b| < 5 + len then Incomplete
      else Whole(Frame(b[4], b[5..5 + len]), b[5 + len..])
  }

  /** The complete frames of a buffer, what is left, and whether no length was over the cap. */
  datatype Parsed = Parsed(frames: seq<Frame>, rest: bytes, ok: bool)

  function Deframe(b: bytes): Parsed
    decreases |b|
  {
    match NextFrame(b)
    case Incomplete => Parsed([], b, true)
    case TooLong => Parsed([], b, false)
    case Whole(f, rest) => Ahead(f, Deframe(rest))
  }

  function Ahead(f: Frame, p: Parsed): Parsed { Parsed([f] + p.frames, p.rest, p.ok) }

  /** A whole frame is read back, whatever follows; and it is read only from its own text. */
  lemma NextOfFrame(f: Frame, rest: bytes)
    requires |f.payload| <= MAX_FRAME
    ensures NextFrame(FrameText(f) + rest) == Whole(f, rest)
  {
    hide PutLE, FromLE;
    var b := FrameText(f) + rest;
    var len := PutLE(|f.payload|, 4);
    Widths();
    FromPutLE(|f.payload|, 4);
    assert b[..4] == len;
    assert b[5..5 + |f.payload|] == f.payload && b[5 + |f.payload|..] == rest;
  }

  lemma FrameOfNext(b: bytes)
    requires NextFrame(b).Whole?
    ensures var n := NextFrame(b); b == FrameText(n.frame) + n.rest && |n.frame.payload| <= MAX_FRAME
  {
    hide PutLE, FromLE;
    var len := FromLE(b[..4]);
    PutFromLE(b[..4]);
    assert b == b[..4] + ([b[4]] + b[5..5 + len]) + b[5 + len..];
  }

  /** Frames in front of a buffer come out first. */
  lemma {:induction false} DeframeOfStream(fs: seq<Frame>, rest: bytes)
    requires Fit(fs)
    ensures Deframe(Stream(fs) + rest) == Parsed(fs + Deframe(rest).frames, Deframe(rest).rest, Deframe(rest).ok)
    decreases |fs|
  {
    hide NextFrame, FrameText;
    var p := Deframe(rest);
    if fs == [] {
      assert [] + rest == rest && [] + p.frames == p.frames;
    } else {
      Assoc(FrameText(fs[0]), Stream(fs[1..]), rest);
      NextOfFrame(fs[0], Stream(fs[1..]) + rest);
      DeframeOfStream(fs[1..], rest);
      assert [fs[0]] + (fs[1..] + p.frames) == fs + p.frames;
    }
  }

  /** Deframing a buffer reads exactly the text of its frames and leaves the rest. */
  lemma {:induction false} StreamOfDeframe(b: bytes)
    ensures var p := Deframe(b); Fit(p.frames) && b == Stream(p.frames) + p.rest
    ensures var p := Deframe(b); Deframe(p.rest) == Parsed([], p.rest, p.ok)
    decreases |b|
  {
    hide FrameText;
    match NextFrame(b)
    case Whole(f, rest) =>
      hide NextFrame;
      FrameOfNext(b);
      StreamOfDeframe(rest);
      var p := Deframe(rest);
      assert ([f] + p.frames)[1..] == p.frames;
      Assoc(FrameText(f), Stream(p.frames), p.rest);
    case _ =>
      assert b == [] + b;
  }

  /** However a stream is cut, deframing what has arrived and then the rest is deframing it all. */
  lemma DeframeAppend(a: bytes, b: bytes)
    ensures var p := Deframe(a); var q := Deframe(p.rest + b);
            Deframe(a + b) == Parsed(p.frames + q.frames, q.rest, q.ok)
  {
    hide Deframe, Stream;
    var p := Deframe(a);
    StreamOfDeframe(a);
    Assoc(Stream(p.frames), p.rest, b);
    DeframeOfStream(p.frames, p.rest + b);
  }

  /** A length over the cap stays over the cap. */
  lemma TooLongStays(a: bytes, b: bytes)
    requires NextFrame(a).TooLong?
    ensures NextFrame(a + b).TooLong?
  {
    assert (a + b)[..4] == a[..4];
  }

  // ---- payloads -----------------------------------------------------------------------------

  /** A child's output: no field for a sender. */
  datatype Emitted = Emitted(kind: byte, target: u64, replyTo: u64, correlation: u64, value: bytes)

  function EmitPayload(e: Emitted): bytes {
    [e.kind] + (PutLE(e.target, 8) + (PutLE(e.replyTo, 8) + (PutLE(e.correlation, 8) + e.value)))
  }

  datatype Delivery = Delivery(sender: u64, replyTo: u64, correlation: u64, value: bytes)

  function DeliverPayload(d: Delivery): bytes {
    PutLE(d.sender, 8) + (PutLE(d.replyTo, 8) + (PutLE(d.correlation, 8) + d.value))
  }

  function ReadDelivery(b: bytes): Option<Delivery> {
    match ReadLE(b, 8)
    case Refused => None
    case Got(sender, b1) =>
      match ReadLE(b1, 8)
      case Refused => None
      case Got(replyTo, b2) =>
        match ReadLE(b2, 8)
        case Refused => None
        case Got(correlation, value) =>
          Widths(); ReadLEIsPut(b, 8); ReadLEIsPut(b1, 8); ReadLEIsPut(b2, 8);
          Some(Delivery(sender, replyTo, correlation, value))
  }

  function ReadEmitted(b: bytes): Option<Emitted> {
    if b == [] then None
    else
      match ReadDelivery(b[1..])
      case None => None
      case Some(d) => Some(Emitted(b[0], d.sender, d.replyTo, d.correlation, d.value))
  }

  /** Payloads and their readers are inverse, on all bytes. */
  lemma DeliveryIsExact(b: bytes, d: Delivery)
    ensures ReadDelivery(b) == Some(d) <==> b == DeliverPayload(d)
  {
    hide PutLE, ReadLE;
    Widths();
    var t2 := PutLE(d.correlation, 8) + d.value;
    var t1 := PutLE(d.replyTo, 8) + t2;
    ReadPutLE(d.sender, 8, t1);
    ReadPutLE(d.replyTo, 8, t2);
    ReadPutLE(d.correlation, 8, d.value);
    if ReadDelivery(b) == Some(d) {
      ReadLEIsPut(b, 8);
      ReadLEIsPut(ReadLE(b, 8).rest, 8);
      ReadLEIsPut(ReadLE(ReadLE(b, 8).rest, 8).rest, 8);
    }
  }

  lemma EmittedIsExact(b: bytes, e: Emitted)
    ensures ReadEmitted(b) == Some(e) <==> b == EmitPayload(e)
  {
    hide PutLE, ReadDelivery;
    var d := Delivery(e.target, e.replyTo, e.correlation, e.value);
    if b != [] {
      assert b == [b[0]] + b[1..];
      DeliveryIsExact(b[1..], d);
    }
    assert EmitPayload(e)[1..] == DeliverPayload(d);
  }

  /** Three length-prefixed strings: manifest, policy, snapshot. What follows is ignored. */
  function Sized(s: bytes): bytes { PutLE(|s|, 4) + s }

  function HelloPayload(manifest: bytes, policy: bytes, snapshot: bytes): bytes {
    Sized(manifest) + (Sized(policy) + Sized(snapshot))
  }

  function ReadSized(b: bytes): Read<bytes> {
    match ReadLE(b, 4)
    case Refused => Refused
    case Got(n, left) => if |left| < n then Refused else Got(left[..n], left[n..])
  }

  datatype Hello = Hello(manifest: bytes, policy: bytes, snapshot: bytes)

  function ReadHello(b: bytes): Option<Hello> {
    match ReadSized(b)
    case Refused => None
    case Got(m, b1) =>
      match ReadSized(b1)
      case Refused => None
      case Got(p, b2) =>
        match ReadSized(b2)
        case Refused => None
        case Got(s, _) => Some(Hello(m, p, s))
  }

  lemma SizedReadsBack(s: bytes, rest: bytes)
    requires |s| < TWO_32
    ensures ReadSized(Sized(s) + rest) == Got(s, rest)
  {
    hide PutLE, ReadLE;
    Widths();
    Assoc(PutLE(|s|, 4), s, rest);
    ReadPutLE(|s|, 4, s + rest);
    assert (s + rest)[..|s|] == s && (s + rest)[|s|..] == rest;
  }

  /** A handshake is read back as it was sent. */
  lemma HelloReadsBack(m: bytes, p: bytes, s: bytes)
    requires |m| < TWO_32 && |p| < TWO_32 && |s| < TWO_32
    ensures ReadHello(HelloPayload(m, p, s)) == Some(Hello(m, p, s))
  {
    hide Sized, ReadSized;
    SizedReadsBack(m, Sized(p) + Sized(s));
    SizedReadsBack(p, Sized(s));
    SizedReadsBack(s, []);
    assert Sized(s) + [] == Sized(s);
  }
}
