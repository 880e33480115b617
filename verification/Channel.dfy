/** The framed channel (src/isolation/channel.cpp) and the child's end of it
    (src/isolation/shard_host_main.cpp). The socket is an adversary: it takes and gives
    however many octets it likes, blocks, interrupts, closes and breaks. */
module Channel {
  import opened Bytes
  import opened Wire
  import opened Framing

  const MAX_BACKLOG: nat := 64 * 1024 * 1024

  /** What one send() or recv() came back with; a list that ends means "would block". */
  datatype SendResult = Sent(n: nat) | SendAgain | SendInterrupted | SendBroken
  datatype RecvResult = Chunk(data: bytes) | RecvAgain | RecvInterrupted | RecvBroken

  datatype Chan = Chan(outbox: bytes, outPos: nat, inbox: bytes, failed: bool, eof: bool)

  const NEW_CHAN: Chan := Chan([], 0, [], false, false)

  predicate Sound(c: Chan) { c.outPos <= |c.outbox| && (!c.failed ==> |c.outbox| - c.outPos <= MAX_BACKLOG && |c.inbox| <= MAX_BACKLOG) }

  type SoundChan = c: Chan | Sound(c) witness NEW_CHAN

  /** The octets queued and not yet taken by the socket. */
  function Unsent(c: Chan): bytes
    requires Sound(c)
  {
    c.outbox[c.outPos..]
  }

  // ---- the socket, by its answers alone ----------------------------------------------------------

  function Least(a: nat, b: nat): nat { if a < b then a else b }

  /** What the socket accepts of the octets offered, send by send. */
  function Accepted(rs: seq<SendResult>, offered: bytes): bytes {
    if offered == [] || rs == [] || rs[0].SendAgain? then []
    else if rs[0].SendInterrupted? then Accepted(rs[1..], offered)
    else if rs[0].Sent? && rs[0].n > 0 then
      var n := Least(rs[0].n, |offered|);
      offered[..n] + Accepted(rs[1..], offered[n..])
    else []
  }

  /** A send broke while octets were still to go. */
  predicate Refused(rs: seq<SendResult>, offered: nat) {
    offered > 0 && rs != [] && !rs[0].SendAgain? &&
    if rs[0].SendInterrupted? then Refused(rs[1..], offered)
    else if rs[0].Sent? && rs[0].n > 0 then Refused(rs[1..], offered - Least(rs[0].n, offered))
    else true
  }

  /** Why a run of receives was over: nothing more for now, a break, the end of the stream, or more
      octets than there was room for. */
  datatype Ending = Blocked | Broken | Ended | Overfull

  predicate Stops(r: RecvResult) { r.RecvAgain? || r.RecvBroken? || (r.Chunk? && r.data == []) }

  /** The octets the socket hands over before the receives are over. */
  function Given(rs: seq<RecvResult>, room: int): bytes {
    if rs == [] || Stops(rs[0]) then []
    else if rs[0].RecvInterrupted? then Given(rs[1..], room)
    else if |rs[0].data| > room then rs[0].data
    else rs[0].data + Given(rs[1..], room - |rs[0].data|)
  }

  function EndOf(rs: seq<RecvResult>, room: int): Ending {
    if rs == [] then Blocked
    else if Stops(rs[0]) then (if rs[0].RecvAgain? then Blocked else if rs[0].RecvBroken? then Broken else Ended)
    else if rs[0].RecvInterrupted? then EndOf(rs[1..], room)
    else if |rs[0].data| > room then Overfull
    else EndOf(rs[1..], room - |rs[0].data|)
  }

  function Room(c: Chan): int { MAX_BACKLOG - |c.inbox| }

  // ---- the three operations -------------------------------------------------------------------

  function Queue(c: Chan, f: Frame): Chan {
    if c.failed then c
    else if |f.payload| > MAX_FRAME then c.(failed := true)
    else
      var out := c.outbox + FrameText(f);
      c.(outbox := out, failed := |out| - c.outPos > MAX_BACKLOG)
  }

  /** flush's loop. */
  function Drain(c: Chan, rs: seq<SendResult>): Chan
    requires Sound(c)
    decreases |rs|
  {
    if c.outPos == |c.outbox| then c.(outbox := [], outPos := 0)
    else if rs == [] || rs[0].SendAgain? then c
    else if rs[0].SendInterrupted? then Drain(c, rs[1..])
    else if rs[0].Sent? && rs[0].n > 0 then Drain(c.(outPos := c.outPos + Least(rs[0].n, |c.outbox| - c.outPos)), rs[1..])
    else c.(failed := true)
  }

  function Flush(c: Chan, rs: seq<SendResult>): Chan
    requires Sound(c)
  {
    if c.failed then c else Drain(c, rs)
  }

  /** poll's receive loop. */
  function Fill(c: Chan, rs: seq<RecvResult>): Chan
    decreases |rs|
  {
    if rs == [] || rs[0].RecvAgain? then c
    else if rs[0].RecvInterrupted? then Fill(c, rs[1..])
    else if rs[0].RecvBroken? then c.(failed := true)
    else if rs[0].data == [] then c.(eof := true)
    else
      var d := c.(inbox := c.inbox + rs[0].data);
      if |d.inbox| > MAX_BACKLOG then d.(failed := true) else Fill(d, rs[1..])
  }

  /** poll: the channel after, and the complete frames. */
  function Poll(c: Chan, rs: seq<RecvResult>): (Chan, seq<Frame>) {
    if c.failed then (c, [])
    else
      var d := Fill(c, rs);
      if d.failed then (d, [])
      else
        var p := Deframe(d.inbox);
        (d.(inbox := p.rest, failed := !p.ok), p.frames)
  }

  // ---- what each does ---------------------------------------------------------------------------

  /** A frame gets through the sender's door exactly when, with its header, it fits the backlog:
      the frame cap alone does not decide, so a payload within four octets of it never fits. */
  lemma QueueFits(c: Chan, f: Frame)
    requires Sound(c) && !c.failed
    ensures Sound(Queue(c, f))
    ensures !Queue(c, f).failed <==> |Unsent(c)| + 5 + |f.payload| <= MAX_BACKLOG
    ensures !Queue(c, f).failed ==> Unsent(Queue(c, f)) == Unsent(c) + FrameText(f)
    ensures |f.payload| > MAX_FRAME - 5 ==> Queue(c, f).failed
  {
    hide PutLE;
    if |f.payload| <= MAX_FRAME {
      assert (c.outbox + FrameText(f))[c.outPos..] == Unsent(c) + FrameText(f);
    }
  }

  lemma QueueIsSound(c: Chan, f: Frame)
    requires Sound(c)
    ensures Sound(Queue(c, f))
  {
    hide FrameText;
  }

  lemma {:induction false} DrainIsExact(c: Chan, rs: seq<SendResult>)
    requires Sound(c) && !c.failed
    ensures var d := Drain(c, rs);
            && Sound(d) && d.inbox == c.inbox && d.eof == c.eof
            && Unsent(c) == Accepted(rs, Unsent(c)) + Unsent(d)
            && (d.failed <==> Refused(rs, |Unsent(c)|))
            && (Unsent(d) == [] ==> d.outbox == [])
    decreases |rs|
  {
    if c.outPos == |c.outbox| || rs == [] || rs[0].SendAgain? {
    } else if rs[0].SendInterrupted? {
      DrainIsExact(c, rs[1..]);
    } else if rs[0].Sent? && rs[0].n > 0 {
      var u, n := Unsent(c), Least(rs[0].n, |Unsent(c)|);
      var c1 := c.(outPos := c.outPos + n);
      SentSome(c, n);
      DrainIsExact(c1, rs[1..]);
      hide Unsent, Sound;
      Assoc(u[..n], Accepted(rs[1..], Unsent(c1)), Unsent(Drain(c1, rs[1..])));
    }
  }

  lemma SentSome(c: Chan, n: nat)
    requires Sound(c) && n <= |Unsent(c)|
    ensures var d := c.(outPos := c.outPos + n);
            Sound(d) && Unsent(d) == Unsent(c)[n..] && Unsent(c) == Unsent(c)[..n] + Unsent(d)
  {
  }

  /** A flush parts with precisely what the socket accepted, from the front and in order, and fails
      precisely when the socket broke with octets still to go; the receiving side stays as it was. */
  lemma FlushIsExact(c: Chan, rs: seq<SendResult>)
    requires Sound(c)
    ensures var d := Flush(c, rs);
            && Sound(d) && d.inbox == c.inbox && d.eof == c.eof
            && (c.failed ==> d == c)
            && (!c.failed ==>
                  && Unsent(c) == Accepted(rs, Unsent(c)) + Unsent(d)
                  && (d.failed <==> Refused(rs, |Unsent(c)|))
                  && (Unsent(d) == [] ==> d.outbox == []))
  {
    hide Drain;
    if !c.failed {
      DrainIsExact(c, rs);
    }
  }

  lemma {:induction false} FillIsExact(c: Chan, rs: seq<RecvResult>)
    requires Sound(c) && !c.failed
    ensures var d := Fill(c, rs); var end := EndOf(rs, Room(c));
            && Sound(d) && d.outbox == c.outbox && d.outPos == c.outPos
            && d.inbox == c.inbox + Given(rs, Room(c))
            && (d.failed <==> end.Broken? || end.Overfull?)
            && (d.eof <==> c.eof || end.Ended?)
    decreases |rs|
  {
    if rs != [] && !Stops(rs[0]) {
      if rs[0].RecvInterrupted? {
        FillIsExact(c, rs[1..]);
      } else if |c.inbox + rs[0].data| <= MAX_BACKLOG {
        var d := c.(inbox := c.inbox + rs[0].data);
        FillIsExact(d, rs[1..]);
        Assoc(c.inbox, rs[0].data, Given(rs[1..], Room(d)));
      }
    }
  }

  /** A poll delivers precisely the frames completed by what the socket gave, and keeps the rest; it
      fails precisely when the socket broke, gave more than the backlog holds, or sent a length over
      the cap; it sees the end of the stream when the socket shows it; the sending side stays as it
      was. */
  lemma PollIsExact(c: Chan, rs: seq<RecvResult>)
    requires Sound(c)
    ensures var (d, frames) := Poll(c, rs);
            && Sound(d) && d.outbox == c.outbox && d.outPos == c.outPos
            && (c.failed ==> d == c && frames == [])
            && (!c.failed ==>
                  var end := EndOf(rs, Room(c)); var p := Deframe(c.inbox + Given(rs, Room(c)));
                  && (d.eof <==> c.eof || end.Ended?)
                  && (d.failed <==> end.Broken? || end.Overfull? || !p.ok)
                  && (if end.Broken? || end.Overfull? then frames == [] else frames == p.frames && d.inbox == p.rest))
  {
    hide Deframe, Fill, Given, EndOf;
    if !c.failed {
      FillIsExact(c, rs);
      StreamOfDeframe(Fill(c, rs).inbox);
    }
  }

  // ---- one direction of a link --------------------------------------------------------------------

  /** A sending channel, the octets in flight, a receiving channel; and what happened so far:
      every frame queue() was called with, those it took, and every frame delivered. */
  datatype Link = Link(
    sender: Chan, wire: bytes, receiver: Chan,
    queued: seq<Frame>, taken: seq<Frame>, received: bytes, delivered: seq<Frame>)

  const NEW_LINK: Link := Link(NEW_CHAN, [], NEW_CHAN, [], [], [], [])

  datatype Step = DoQueue(f: Frame) | DoFlush(sends: seq<SendResult>) | DoPoll(recvs: seq<RecvResult>)

  /** What leaves the wire for a channel that polls: a failed one no longer asks. */
  function Taken(c: Chan, rs: seq<RecvResult>): bytes { if c.failed then [] else Given(rs, Room(c)) }

  /** The socket gives only octets that are in flight, in order. */
  predicate Enabled(l: Link, s: Step) {
    && Sound(l.sender) && Sound(l.receiver)
    && (s.DoPoll? ==> Taken(l.receiver, s.recvs) <= l.wire)
  }

  function Apply(l: Link, s: Step): Link
    requires Enabled(l, s)
  {
    match s
    case DoQueue(f) =>
      var c := Queue(l.sender, f);
      l.(sender := c, queued := l.queued + [f], taken := if c.failed then l.taken else l.taken + [f])
    case DoFlush(rs) =>
      var sent := if l.sender.failed then [] else Accepted(rs, Unsent(l.sender));
      l.(sender := Flush(l.sender, rs), wire := l.wire + sent)
    case DoPoll(rs) =>
      var (c, frames) := Poll(l.receiver, rs);
      var bs := Taken(l.receiver, rs);
      l.(receiver := c, wire := l.wire[|bs|..], received := l.received + bs, delivered := l.delivered + frames)
  }

  ghost predicate IsRun(l: Link, steps: seq<Step>)
    decreases |steps|
  {
    steps == [] || (Enabled(l, steps[0]) && IsRun(Apply(l, steps[0]), steps[1..]))
  }

  function Run(l: Link, steps: seq<Step>): Link
    requires IsRun(l, steps)
    decreases |steps|
  {
    if steps == [] then l else Run(Apply(l, steps[0]), steps[1..])
  }

  /** Every octet of every frame taken is received, in flight or unsent, in that order; what was
      delivered is what the received octets spell. */
  ghost predicate Inv(l: Link) {
    && Sound(l.sender) && Sound(l.receiver)
    && l.taken <= l.queued && Fit(l.taken)
    && (!l.sender.failed ==> l.taken == l.queued)
    && Carried(l)
    && l.delivered <= Deframe(l.received).frames
    && (!l.receiver.failed ==> Deframe(l.received) == Parsed(l.delivered, l.receiver.inbox, true))
  }

  /** A sender that failed on an oversized backlog has octets of the refused frame behind the
      taken ones, which it will never send. */
  ghost predicate Carried(l: Link)
    requires Sound(l.sender)
  {
    if l.sender.failed then
      l.received + l.wire <= Stream(l.taken)
    else
      Stream(l.taken) == l.received + (l.wire + Unsent(l.sender))
  }

  lemma {:induction false} StreamAppend(fs: seq<Frame>, f: Frame)
    ensures Stream(fs + [f]) == Stream(fs) + FrameText(f)
  {
    hide FrameText;
    if fs == [] {
      assert fs + [f] == [f] && [f][1..] == [];
      assert FrameText(f) + [] == FrameText(f) == [] + FrameText(f);
    } else {
      assert (fs + [f])[1..] == fs[1..] + [f];
      StreamAppend(fs[1..], f);
      Assoc(FrameText(fs[0]), Stream(fs[1..]), FrameText(f));
    }
  }

  lemma QueueKeeps(l: Link, f: Frame)
    requires Inv(l)
    ensures Inv(Apply(l, DoQueue(f)))
  {
    hide FrameText, Deframe, Stream;
    var m := Apply(l, DoQueue(f));
    if !l.sender.failed {
      QueueFits(l.sender, f);
      var r, w, u := l.received, l.wire, Unsent(l.sender);
      if !m.sender.failed {
        StreamAppend(l.taken, f);
        Assoc(w, u, FrameText(f));
        Assoc(r, w + u, FrameText(f));
      } else {
        Assoc(r, w, u);
      }
    }
  }

  lemma FlushKeeps(l: Link, rs: seq<SendResult>)
    requires Inv(l)
    ensures Inv(Apply(l, DoFlush(rs)))
  {
    hide Deframe, Stream, Drain, Accepted, Refused;
    FlushIsExact(l.sender, rs);
    if !l.sender.failed {
      var c, sent := Drain(l.sender, rs), Accepted(rs, Unsent(l.sender));
      Assoc(l.wire, sent, Unsent(c));
      Assoc(l.received, l.wire + sent, Unsent(c));
    } else {
      assert l.wire + [] == l.wire;
    }
  }

  lemma PollKeeps(l: Link, rs: seq<RecvResult>)
    requires Inv(l) && Enabled(l, DoPoll(rs))
    ensures Inv(Apply(l, DoPoll(rs)))
  {
    hide Deframe, Stream, Poll, Given, EndOf;
    PollIsExact(l.receiver, rs);
    if !l.receiver.failed {
      var bs := Given(rs, Room(l.receiver));
      var m := Apply(l, DoPoll(rs));
      assert l.wire == bs + m.wire;
      Assoc(l.received, bs, m.wire);
      if !l.sender.failed {
        Assoc(bs, m.wire, Unsent(l.sender));
        Assoc(l.received, bs, m.wire + Unsent(l.sender));
      }
      DeframeAppend(l.received, bs);
    } else {
      assert l.received + [] == l.received && l.delivered + [] == l.delivered && l.wire[0..] == l.wire;
    }
  }

  lemma StepKeeps(l: Link, s: Step)
    requires Inv(l) && Enabled(l, s)
    ensures Inv(Apply(l, s))
  {
    hide Inv;
    match s
    case DoQueue(f) => QueueKeeps(l, f);
    case DoFlush(rs) => FlushKeeps(l, rs);
    case DoPoll(rs) => PollKeeps(l, rs);
  }

  lemma {:induction false} RunKeeps(l: Link, steps: seq<Step>)
    requires Inv(l) && IsRun(l, steps)
    ensures Inv(Run(l, steps))
    decreases |steps|
  {
    hide Inv, Apply;
    if steps != [] {
      StepKeeps(l, steps[0]);
      RunKeeps(Apply(l, steps[0]), steps[1..]);
    }
  }

  lemma NewLinkHolds()
    ensures Inv(NEW_LINK)
  {
    assert Deframe([]) == Parsed([], [], true);
  }

  /** Exactly once and in order, over any interleaving and any cutting of the stream: what was
      delivered is a prefix of what was queued, even after a failure; while neither end has failed,
      the frames delivered and those still spelled by inbox, wire and outbox are together the frames
      queued, with no octet left over; and once nothing is in flight or unsent, every frame queued
      was delivered. */
  lemma FramesArriveOnceInOrder(steps: seq<Step>)
    requires IsRun(NEW_LINK, steps)
    ensures var l := Run(NEW_LINK, steps);
            && l.delivered <= l.queued
            && Sound(l.sender)
            && (!l.sender.failed && !l.receiver.failed ==>
                  && Deframe(l.receiver.inbox + (l.wire + Unsent(l.sender))) == Parsed(l.queued[|l.delivered|..], [], true)
                  && (l.wire + Unsent(l.sender) == [] ==> l.delivered == l.queued && l.receiver.inbox == []))
  {
    hide Deframe, Stream, Run, IsRun;
    NewLinkHolds();
    RunKeeps(NEW_LINK, steps);
    var l := Run(NEW_LINK, steps);
    var rest := if l.sender.failed then Stream(l.taken)[|l.received|..] else l.wire + Unsent(l.sender);
    assert Stream(l.taken) == l.received + rest by {
      if l.sender.failed {
        var s, head := Stream(l.taken), l.received + l.wire;
        assert head[..|l.received|] == s[..|l.received|] == l.received;
      }
    }
    WholeStream(l.taken);
    DeframeAppend(l.received, rest);
    assert Deframe(l.received).frames <= l.taken;
    assert l.delivered <= l.taken <= l.queued;
    if !l.sender.failed && !l.receiver.failed {
      var q := Deframe(l.receiver.inbox + rest);
      assert l.queued == l.delivered + q.frames;
      if rest == [] {
        assert l.receiver.inbox + rest == l.receiver.inbox && l.received + rest == l.received;
        assert q == Parsed([], l.receiver.inbox, true) by { StreamOfDeframe(l.received); }
      }
    }
  }

  lemma WholeStream(fs: seq<Frame>)
    requires Fit(fs)
    ensures Deframe(Stream(fs)) == Parsed(fs, [], true)
  {
    hide Stream;
    DeframeOfStream(fs, []);
    assert Stream(fs) + [] == Stream(fs);
    assert Deframe([]) == Parsed([], [], true);
  }

  /** A receiver never meets an oversized length on a link: it fails only when the socket breaks
      or more than the backlog arrives before it is read. */
  lemma LengthsAreHonest(steps: seq<Step>, rs: seq<RecvResult>)
    requires IsRun(NEW_LINK, steps)
    requires var l := Run(NEW_LINK, steps); Enabled(l, DoPoll(rs)) && !l.receiver.failed
    ensures var l := Run(NEW_LINK, steps); var end := EndOf(rs, Room(l.receiver));
            Poll(l.receiver, rs).0.failed <==> end.Broken? || end.Overfull?
  {
    hide Deframe, Stream, Run, IsRun, Poll, Given, EndOf;
    NewLinkHolds();
    RunKeeps(NEW_LINK, steps);
    var l := Run(NEW_LINK, steps);
    PollKeeps(l, rs);
    PollIsExact(l.receiver, rs);
    var m := Apply(l, DoPoll(rs));
    DeframeAppend(l.received, Given(rs, Room(l.receiver)));
    var all := Stream(m.taken);
    var rest := all[|m.received|..];
    assert all == m.received + rest by {
      if m.sender.failed {
        var head := m.received + m.wire;
        assert head[..|m.received|] == all[..|m.received|] == m.received;
      }
    }
    WholeStream(m.taken);
    if !Deframe(m.received).ok {
      StreamOfDeframe(m.received);
      DeframeAppend(m.received, rest);
      NotOkStays(Deframe(m.received).rest, rest);
    }
  }

  lemma NotOkStays(b: bytes, more: bytes)
    requires Deframe(b) == Parsed([], b, false)
    ensures !Deframe(b + more).ok
  {
    TooLongStays(b, more);
  }

  // ---- the channel as it runs -----------------------------------------------------------------------

  class Channel {
    var outbox: bytes
    var outPos: nat
    var inbox: bytes
    var failed: bool
    var eof: bool

    constructor ()
      ensures State() == NEW_CHAN
    {
      outbox, outPos, inbox, failed, eof := [], 0, [], false, false;
    }

    function State(): Chan
      reads this
    {
      Chan(outbox, outPos, inbox, failed, eof)
    }

    method QueueFrame(op: byte, payload: bytes)
      modifies this
      ensures State() == Queue(old(State()), Frame(op, payload))
    {
      if failed {
        return;
      }
      if |payload| > MAX_FRAME {
        failed := true;
        return;
      }
      outbox := outbox + (PutLE(|payload|, 4) + ([op] + payload));
      if |outbox| - outPos > MAX_BACKLOG {
        failed := true;
      }
    }

    method FlushTo(results: seq<SendResult>)
      requires Sound(State())
      modifies this
      ensures State() == Flush(old(State()), results)
    {
      if failed {
        return;
      }
      ghost var start := State();
      assert results[0..] == results;
      var i := 0;
      while outPos < |outbox|
        invariant i <= |results| && Sound(State()) && !failed
        invariant Drain(start, results) == Drain(State(), results[i..])
        decreases |results| - i
      {
        ghost var more := results[i..];
        if i == |results| {
          break;
        }
        var r := results[i];
        assert more[0] == r && more[1..] == results[i + 1..];
        i := i + 1;
        if r.Sent? && r.n > 0 {
          outPos := outPos + if r.n < |outbox| - outPos then r.n else |outbox| - outPos;
        } else if r.SendAgain? {
          break;
        } else if !r.SendInterrupted? {
          failed := true;
          return;
        }
      }
      if outPos == |outbox| {
        outbox := [];
        outPos := 0;
      }
    }

    method PollFrom(results: seq<RecvResult>) returns (frames: seq<Frame>)
      modifies this
      ensures (State(), frames) == Poll(old(State()), results)
    {
      hide Deframe, NextFrame, FromLE;
      frames := [];
      if failed {
        return;
      }
      Receive(results);
      if failed {
        return;
      }
      frames := SplitFrames();
    }

    /** Every complete frame of the inbox; an oversized length fails the channel. */
    method SplitFrames() returns (frames: seq<Frame>)
      requires !failed
      modifies this
      ensures var p := Deframe(old(inbox));
              frames == p.frames && State() == old(State()).(inbox := p.rest, failed := !p.ok)
    {
      hide Deframe, NextFrame, FromLE;
      frames := [];
      ghost var filled := State();
      ghost var whole := Deframe(inbox);
      var pos: nat := 0;
      assert inbox[0..] == inbox && [] + whole.frames == whole.frames;
      while |inbox| - pos >= 5
        invariant pos <= |inbox| && State() == filled
        invariant whole == Parsed(frames + Deframe(inbox[pos..]).frames, Deframe(inbox[pos..]).rest, Deframe(inbox[pos..]).ok)
        decreases |inbox| - pos
      {
        ghost var b := inbox[pos..];
        DeframeUnfolds(b);
        NextUnfolds(b);
        var len := FromLE(inbox[pos..pos + 4]);
        Suffix(inbox, pos, 0, 4);
        var op := inbox[pos + 4];
        if len > MAX_FRAME {
          failed := true;
          break;
        }
        if |inbox| - pos < 5 + len {
          break;
        }
        Suffix(inbox, pos, 5, 5 + len);
        ghost var after := Deframe(inbox[pos + 5 + len..]);
        assert frames + ([Frame(op, inbox[pos + 5..pos + 5 + len])] + after.frames) ==
               (frames + [Frame(op, inbox[pos + 5..pos + 5 + len])]) + after.frames;
        frames := frames + [Frame(op, inbox[pos + 5..pos + 5 + len])];
        pos := pos + 5 + len;
      }
      ghost var left := inbox[pos..];
      DeframeUnfolds(left);
      NextUnfolds(left);
      assert frames + [] == frames && (pos == 0 ==> left == inbox);
      if pos > 0 {
        inbox := inbox[pos..];
      }
    }

    method Receive(results: seq<RecvResult>)
      requires !failed
      modifies this
      ensures State() == Fill(old(State()), results)
    {
      ghost var start := State();
      assert results[0..] == results;
      var i := 0;
      while i < |results|
        invariant i <= |results| && !failed
        invariant Fill(start, results) == Fill(State(), results[i..])
      {
        var r := results[i];
        assert results[i..][0] == r && results[i..][1..] == results[i + 1..];
        if r.Chunk? && r.data != [] {
          inbox := inbox + r.data;
          if |inbox| > MAX_BACKLOG {
            failed := true;
            return;
          }
        } else if r.Chunk? {
          eof := true;
          return;
        } else if r.RecvAgain? {
          return;
        } else if r.RecvBroken? {
          failed := true;
          return;
        }
        i := i + 1;
      }
    }
  }

  lemma Suffix(s: bytes, at: nat, i: nat, j: nat)
    requires i <= j && at + j <= |s|
    ensures s[at..][i..j] == s[at + i..at + j] && s[at..][j..] == s[at + j..]
  {
  }

  lemma DeframeUnfolds(b: bytes)
    ensures Deframe(b) ==
            match NextFrame(b)
            case Incomplete => Parsed([], b, true)
            case TooLong => Parsed([], b, false)
            case Whole(f, rest) => Parsed([f] + Deframe(rest).frames, Deframe(rest).rest, Deframe(rest).ok)
  {
    hide NextFrame;
  }

  lemma NextUnfolds(b: bytes)
    ensures |b| < 5 ==> NextFrame(b) == Incomplete
    ensures |b| >= 5 ==>
              var len := FromLE(b[..4]);
              NextFrame(b) == if len > MAX_FRAME then TooLong
                              else if |b| < 5 + len then Incomplete
                              else Whole(Frame(b[4], b[5..5 + len]), b[5 + len..])
  {
    hide FromLE;
  }

  // ---- the child's end ----------------------------------------------------------------------------------

  /** A blocking socket: everything that will arrive before the parent closes, and how the kernel
      will cut it. A receive returns nothing only at the end. */
  class BlockingSocket {
    var incoming: bytes
    var cuts: seq<nat>
    var outgoing: bytes
    var room: nat

    constructor (incoming: bytes, cuts: seq<nat>, room: nat)
      ensures this.incoming == incoming && outgoing == [] && this.room == room
    {
      this.incoming, this.cuts, this.outgoing, this.room := incoming, cuts, [], room;
    }

    method Recv(most: nat) returns (data: bytes)
      requires most > 0
      modifies this`incoming, this`cuts
      ensures |data| <= most && old(incoming) == data + incoming
      ensures data == [] <==> old(incoming) == []
    {
      var n := if cuts == [] || cuts[0] == 0 then 1 else cuts[0];
      cuts := if cuts == [] then [] else cuts[1..];
      n := Least(Least(n, most), |incoming|);
      data := incoming[..n];
      incoming := incoming[n..];
    }

    /** Takes what fits before the parent is gone; then the send fails. */
    method SendSome(data: bytes) returns (n: nat)
      requires data != []
      modifies this`outgoing, this`room
      ensures n <= |data| && outgoing == old(outgoing) + data[..n]
      ensures room == old(room) - n && (n == 0 <==> old(room) == 0)
    {
      n := Least(|data|, room);
      outgoing := outgoing + data[..n];
      room := room - n;
    }

    method ReadExact(n: nat) returns (ok: bool, data: bytes)
      modifies this`incoming, this`cuts
      ensures ok == (|old(incoming)| >= n)
      ensures ok ==> |data| == n && old(incoming) == data + incoming
    {
      data := [];
      while |data| < n
        invariant |data| <= n && old(incoming) == data + incoming
        decreases n - |data|
      {
        ghost var before := incoming;
        var more := Recv(n - |data|);
        if more == [] {
          return false, data;
        }
        Assoc(data, more, incoming);
        data := data + more;
      }
      ok := true;
    }

    /** read_frame: blocking, one frame at a time, agrees with the buffered deframer. */
    method ReadFrame() returns (r: Option<Frame>)
      modifies this`incoming, this`cuts
      ensures r.Some? <==> NextFrame(old(incoming)).Whole?
      ensures r.Some? ==> NextFrame(old(incoming)) == Whole(r.value, incoming)
    {
      hide FromLE;
      ghost var b := incoming;
      var ok, header := ReadExact(5);
      if !ok {
        return None;
      }
      var len := FromLE(header[..4]);
      assert header[..4] == b[..4] && header[4] == b[4];
      if len > MAX_FRAME {
        return None;
      }
      ghost var left := incoming;
      assert left == b[5..];
      var payload: bytes := [];
      if len > 0 {
        ok, payload := ReadExact(len);
        if !ok {
          return None;
        }
      } else {
        assert [] + incoming == incoming;
      }
      assert left == payload + incoming;
      assert b[5..5 + len] == payload && b[5 + len..] == incoming;
      r := Some(Frame(header[4], payload));
    }

    /** send_frame: the whole frame, or as much of it as the parent lived to take. */
    method SendFrame(f: Frame)
      modifies this`outgoing, this`room
      ensures var text := FrameText(f);
              outgoing == old(outgoing) + text[..Least(|text|, old(room))]
    {
      hide PutLE;
      var frame := PutLE(|f.payload|, 4) + ([f.op] + f.payload);
      var off := 0;
      while off < |frame|
        invariant off <= |frame| && outgoing == old(outgoing) + frame[..off] && room == old(room) - off
        decreases |frame| - off
      {
        var n := SendSome(frame[off..]);
        assert frame[..off] + frame[off..][..n] == frame[..off + n];
        if n == 0 {
          return;
        }
        off := off + n;
      }
      assert frame[..off] == frame;
    }
  }
}
