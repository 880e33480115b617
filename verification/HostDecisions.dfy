/** What the isolation host does with what its children say, what it hands to them, and whom it
    hosts (src/isolation/host.cpp). */
module HostDecisions {
  import opened Bytes
  import opened Model
  import opened Gate
  import opened Admission
  import opened Registry
  import opened Grant
  import opened SchemaCodec
  import opened SchemaTransport
  import opened Framing
  import opened Supervisor
  import opened SupervisorRuns
  import opened SupervisorGuarantees
  import C = Channel
  import B = Bus
  import BusRuns
  import BusDecisions
  import BusGuarantees

  // ---- one frame ----------------------------------------------------------------------------------

  /** A snapshot frame changes the link if and only if it is admitted under the link's state schema;
      then the host's copy is exactly that value and those bytes, and nothing else of the link or
      the bus changes. A frame of any other kind leaves the link alone, and only an emission
      touches the bus. */
  lemma FrameDecides(b: B.Bus, l: Link, f: Frame)
    ensures var (c, m) := HandleFrame(b, l, f);
            if f.op == OP_SNAPSHOT then
              var a := B.AdmitBytes(f.payload, l.stateSchema);
              && c == b
              && (a.Rejected? ==> m == l)
              && (a.Accepted? ==>
                    && m == l.(snapshot := m.snapshot, snapshotBytes := m.snapshotBytes)
                    && m.snapshot == a.value && m.snapshotBytes == f.payload)
            else m == l && c == if f.op == OP_EMIT then HandleEmit(b, l.id, f.payload) else b
  {
    hide B.AdmitBytes, HandleEmit;
  }

  /** An emission is put on the bus if and only if it is one, and its value is admitted under a
      published schema: sent or published as it says, under the connection's id, gated. */
  lemma EmissionDecides(b: B.Bus, l: Link, f: Frame)
    requires f.op == OP_EMIT
    ensures var c := HandleFrame(b, l, f).0;
            && (forall e: Emitted, v: Value ::
                  f.payload == EmitPayload(e) && AdmitNamed(Parse(e.value), b.registry, false, B.NoFloatText()) == Accepted(v) ==>
                    var msg := B.Message(v, l.id, e.replyTo, e.correlation);
                    c == if e.kind == 1 then B.EnqueueAll(b, msg, B.Recipients(b, B.ShapeOf(v), 1), true, B.Host(l.id))
                         else B.Enqueue(b, msg, e.target, true, B.Host(l.id)))
            && ((forall e: Emitted, v: Value ::
                   f.payload == EmitPayload(e) ==> AdmitNamed(Parse(e.value), b.registry, false, B.NoFloatText()) != Accepted(v)) ==>
                  c == b)
  {
    hide AdmitNamed, Parse, ReadEmitted, EmitPayload, B.EnqueueAll, B.Enqueue, B.Recipients;
    forall e: Emitted | f.payload == EmitPayload(e) ensures ReadEmitted(f.payload) == Some(e) {
      EmittedIsExact(f.payload, e);
    }
    if ReadEmitted(f.payload).Some? {
      EmittedIsExact(f.payload, ReadEmitted(f.payload).value);
    }
  }

  // ---- the host's copy of the state -----------------------------------------------------------------

  /** The last snapshot among the frames that was admitted, or `first` if none was. */
  function LastAdmitted(first: bytes, fs: seq<Frame>, door: Schema): bytes {
    if fs == [] then first
    else
      var last := fs[|fs| - 1];
      if last.op == OP_SNAPSHOT && B.AdmitBytes(last.payload, door).Accepted? then last.payload
      else LastAdmitted(first, fs[..|fs| - 1], door)
  }

  lemma {:induction false} LastAdmittedOn(first: bytes, es: seq<Frame>, fs: seq<Frame>, door: Schema)
    ensures LastAdmitted(first, es + fs, door) == LastAdmitted(LastAdmitted(first, es, door), fs, door)
    decreases |fs|
  {
    hide B.AdmitBytes;
    var all := es + fs;
    if fs == [] {
      assert all == es;
    } else {
      assert all[..|all| - 1] == es + fs[..|fs| - 1] && all[|all| - 1] == fs[|fs| - 1];
      LastAdmittedOn(first, es, fs[..|fs| - 1], door);
    }
  }

  lemma LastOfOne(first: bytes, f: Frame, door: Schema)
    ensures LastAdmitted(first, [f], door) ==
            if f.op == OP_SNAPSHOT && B.AdmitBytes(f.payload, door).Accepted? then f.payload else first
  {
    hide B.AdmitBytes;
    assert [f][..0] == [];
  }

  /** The emissions among the frames put on the bus one after the other. */
  function EmitEach(b: B.Bus, id: B.ShardId, fs: seq<Frame>): B.Bus
    decreases |fs|
  {
    if fs == [] then b else EmitEach(if fs[0].op == OP_EMIT then HandleEmit(b, id, fs[0].payload) else b, id, fs[1..])
  }

  /** Every frame is handled, in order: each emission reaches the bus, and the copy becomes the last
      admitted snapshot. */
  lemma {:induction false} FramesDecide(b: B.Bus, l: Link, fs: seq<Frame>)
    ensures HandleFrames(b, l, fs).0 == EmitEach(b, l.id, fs)
    ensures var m := HandleFrames(b, l, fs).1;
            && m == l.(snapshot := m.snapshot, snapshotBytes := m.snapshotBytes)
            && m.snapshotBytes == LastAdmitted(l.snapshotBytes, fs, l.stateSchema)
    decreases |fs|
  {
    hide HandleFrame, HandleEmit, LastAdmitted, B.AdmitBytes;
    if fs == [] {
      assert LastAdmitted(l.snapshotBytes, [], l.stateSchema) == l.snapshotBytes by { LastOfNone(l.snapshotBytes, l.stateSchema); }
    } else {
      FrameDecides(b, l, fs[0]);
      var (c, m) := HandleFrame(b, l, fs[0]);
      FramesDecide(c, m, fs[1..]);
      LastOfOne(l.snapshotBytes, fs[0], l.stateSchema);
      LastAdmittedOn(l.snapshotBytes, [fs[0]], fs[1..], l.stateSchema);
      assert [fs[0]] + fs[1..] == fs;
    }
  }

  lemma LastOfNone(first: bytes, door: Schema)
    ensures LastAdmitted(first, [], door) == first
  {
  }

  /** The link's copy is the last admitted snapshot it heard of since its mount. */
  predicate Current(l: Link) { l.snapshotBytes == LastAdmitted(l.first, l.heard, l.stateSchema) }

  predicate AllCurrent(h: Host) { forall i :: 0 <= i < |h.links| ==> Current(h.links[i]) }

  /** What one link does in the exchange of a step, and what it heard. */
  lemma ExchangeDecides(b: B.Bus, l: Link, w: Weather)
    ensures var m := Exchange(b, l, w).1;
            && m == l.(channel := m.channel, snapshot := m.snapshot, snapshotBytes := m.snapshotBytes, heard := m.heard)
            && (l.channel.None? ==> m == l)
            && (l.channel.Some? ==>
                  var c := C.Poll(C.Flush(l.channel.value, w.sends), w.recvs);
                  m.channel == Some(c.0) && m.heard == l.heard + c.1)
            && (Current(l) ==> Current(m))
  {
    hide C.Flush, C.Poll, C.Sound, LastAdmitted, HandleFrames;
    if l.channel.Some? {
      C.FlushIsExact(l.channel.value, w.sends);
      var flushed := C.Flush(l.channel.value, w.sends);
      C.PollIsExact(flushed, w.recvs);
      var (c, frames) := C.Poll(flushed, w.recvs);
      FramesDecide(b, l.(channel := Some(c)), frames);
      LastAdmittedOn(l.first, l.heard, frames, l.stateSchema);
    }
  }

  lemma {:induction false} ExchangeAllDecides(h: Host, ws: seq<Weather>, i: nat)
    requires i <= |h.links| == |ws| && AllCurrent(h)
    ensures AllCurrent(ExchangeAll(h, ws, i)) && |ExchangeAll(h, ws, i).links| == |h.links|
    decreases |h.links| - i
  {
    hide Exchange, Current;
    if i < |h.links| {
      ExchangeDecides(h.bus, h.links[i], ws[i]);
      var (b, l) := Exchange(h.bus, h.links[i], ws[i]);
      ExchangeAllDecides(h.(bus := b, links := h.links[i := l]), ws, i + 1);
    }
  }

  lemma ShippingIsCurrent(h: Host, op: B.Op)
    requires AllCurrent(h)
    ensures AllCurrent(OnBus(h, op)) && |OnBus(h, op).links| == |h.links|
  {
    hide ShipAll, B.Apply, LastAdmitted;
    var m := OnBus(h, op);
    var es := if |h.bus.handled| <= |m.bus.handled| then m.bus.handled[|h.bus.handled|..] else [];
    forall i | 0 <= i < |m.links| ensures Current(m.links[i]) {
      assert Current(h.links[i]) && m.links[i] == ShipAll(h.links[i], es);
      ShipsTouchChannel(h.links[i], es);
    }
  }

  lemma SuperviseIsCurrent(b: B.Bus, l: Link, spawn: SpawnOutcome)
    requires Current(l)
    ensures Current(Supervise(b, l, spawn).1)
  {
    hide B.Kill, B.Reload, Respawn, LastAdmitted;
    forall m: Link, state ensures var n := Respawn(m, spawn, state);
        n == m.(attempts := n.attempts, spawned := n.spawned, channel := n.channel)
    {
      RespawnShape(m, spawn, state);
    }
  }

  lemma {:induction false} SuperviseAllIsCurrent(h: Host, ws: seq<Weather>, i: nat)
    requires i <= |h.links| == |ws| && AllCurrent(h)
    ensures AllCurrent(SuperviseAll(h, ws, i))
    decreases |h.links| - i
  {
    hide Supervise, Current;
    if i < |h.links| {
      SuperviseIsCurrent(h.bus, h.links[i], ws[i].spawn);
      var (b, l) := Supervise(h.bus, h.links[i], ws[i].spawn);
      SuperviseAllIsCurrent(h.(bus := b, links := h.links[i := l]), ws, i + 1);
    }
  }

  lemma ApplyIsCurrent(h: Host, op: HostOp)
    requires AllCurrent(h) && Enabled(h, op)
    ensures AllCurrent(Apply(h, op))
  {
    hide ExchangeAll, SuperviseAll, OnBus, Insert, Handshake, B.RegisterShard, B.UnregisterShard, Current;
    match op
    case DoMount(name, spawn, grant) => MountIsCurrent(h, name, spawn, grant);
    case DoUnmount(name) =>
      var i := Place(h.links, name);
      if i < |h.links| {
        assert forall j :: 0 <= j < |h.links| - 1 ==> Unmount(h, name).links[j] == h.links[if j < i then j else j + 1];
      }
    case DoStep(ws, script) =>
      ExchangeAllDecides(h, ws, 0);
      var h1 := ExchangeAll(h, ws, 0);
      ShippingIsCurrent(h1, B.OpPump(script));
      SuperviseAllIsCurrent(OnBus(h1, B.OpPump(script)), ws, 0);
    case DoBus(op) => ShippingIsCurrent(h, op);
  }

  lemma MountIsCurrent(h: Host, name: bytes, spawn: SpawnOutcome, grant: seq<SendRule>)
    requires AllCurrent(h)
    ensures AllCurrent(Mount(h, name, spawn, grant))
  {
    hide Insert, Handshake, B.RegisterShard, LastAdmitted;
    if !Mounted(h, name) && spawn.Child? {
      var cached := Handshake(spawn.hello, h.registry).1;
      if cached.Some? {
        var (accept, state, policy, snapshot, bs) := cached.value;
        var (b, id) := B.RegisterShard(h.bus, accept, snapshot, grant);
        if id.Some? {
          var l := Link(name, id.value, state, policy, snapshot, bs, Some(spawn.channel), false, false, false, 1, 1, bs, []);
          LastOfNone(bs, state);
          InsertIsExact(h.links, l);
          var i :| 0 <= i <= |h.links| && Insert(h.links, l) == h.links[..i] + [l] + h.links[i..];
        }
      }
    }
  }

  lemma {:induction false} RunIsCurrent(h: Host, ops: seq<HostOp>)
    requires AllCurrent(h) && IsRun(h, ops)
    ensures AllCurrent(Run(h, ops))
    decreases |ops|
  {
    hide AllCurrent, Apply;
    if ops != [] {
      ApplyIsCurrent(h, ops[0]);
      RunIsCurrent(Apply(h, ops[0]), ops[1..]);
    }
  }

  /** The child of the link is gone, and its shard's policy still allows a revival. */
  predicate MayRevive(b: B.Bus, l: Link) {
    && !l.quarantined && l.channel.Some? && Done(l.channel.value)
    && l.id in b.shards && Conforms(l.policy, B.PolicySchema()) && b.shards[l.id].reloadsUsed < B.PolicyOf(l.policy).maxReloads
  }

  /** Supervision with a new child at c hands precisely this state to revive, keeps it as
      last-known-good, and queues precisely its bytes for the child. */
  predicate HandsOver(b: B.Bus, l: Link, c: C.SoundChan, hello: bytes, state: Value, bs: bytes) {
    var (d, m) := Supervise(b, l, Child(c, hello));
    && d.restored == b.restored + [(l.id, state)]
    && l.id in d.shards && d.shards[l.id].lastKnownGood == state
    && m.channel == Some(C.Queue(c, Frame(OP_REVIVE, bs)))
  }

  /** Over every run the host's copy of a hosted shard's state is the last snapshot its children
      sent, since the mount, that was admitted - or the one of the handshake if none was; and when
      the child is found gone with a revival left and another comes up, precisely that value is handed
      to revive, and precisely those bytes are the first thing queued for the new child. */
  lemma RevivalHandsOverTheLast(ops: seq<HostOp>, i: nat, c: C.SoundChan, hello: bytes)
    requires IsRun(NEW_HOST, ops) && i < |Run(NEW_HOST, ops).links|
    ensures var h := Run(NEW_HOST, ops); var l := h.links[i]; var last := LastAdmitted(l.first, l.heard, l.stateSchema);
            && l.snapshotBytes == last && Serialize(l.snapshot) == Some(last)
            && (MayRevive(h.bus, l) ==> HandsOver(h.bus, l, c, hello, l.snapshot, last))
  {
    hide Run, IsRun, LastAdmitted, MayRevive, HandsOver, Serialize, HostInv, LinkInv, ViewOf;
    var h := HostOf(ops);
    RunIsCurrent(NEW_HOST, ops);
    var l := h.links[i];
    HostHas(h, i);
    LinkFacts(h.bus, l);
    assert Current(l);
    if MayRevive(h.bus, l) {
      RevivedWith(h.bus, l, c, hello);
    }
  }

  lemma LinkFacts(b: B.Bus, l: Link)
    requires LinkInv(l, ViewOf(b, l.id))
    ensures l.id in b.shards && b.shards[l.id].stateSchema == l.stateSchema
    ensures Conforms(l.policy, B.PolicySchema()) && Revivable(l) && Serialize(l.snapshot) == Some(l.snapshotBytes)
    ensures !l.quarantined ==> l.channel.Some? && !l.dead && !l.deathSignaled
  {
    hide Conforms, B.PolicySchema, Serialize, B.AdmitBytes, Deaths, NeverFellBack;
  }

  lemma RevivedWith(b: B.Bus, l: Link, c: C.SoundChan, hello: bytes)
    requires LinkInv(l, ViewOf(b, l.id)) && MayRevive(b, l)
    ensures Serialize(l.snapshot) == Some(l.snapshotBytes) && HandsOver(b, l, c, hello, l.snapshot, l.snapshotBytes)
  {
    hide Serialize, B.AdmitBytes, B.PolicySchema, B.PolicyOf, Conforms, LinkInv, ViewOf, C.Queue, B.Reload, B.Kill, Done;
    LinkFacts(b, l);
    var b1, l1 := B.Kill(b, l.id), l.(dead := true, deathSignaled := true);
    BusDecisions.KillDecides(b, l.id);
    ReloadFromHost(b1, l1);
    BusDecisions.ReloadDecides(b1, l.id, l.policy, l.snapshotBytes);
    C.QueueIsSound(c, Frame(OP_REVIVE, Serialize(l.snapshot).value));
  }

  // ---- what is shipped to the children -----------------------------------------------------------------

  /** The frame a handled envelope becomes; None where serialize throws. */
  function Shipment(e: B.Envelope): Option<Frame> {
    match Serialize(e.msg.payload)
    case None => None
    case Some(bs) =>
      Some(Frame(OP_DELIVER, DeliverPayload(Delivery(e.msg.sender % TWO_64, e.msg.replyTo % TWO_64, e.msg.correlation, bs))))
  }

  /** The frames of the envelopes handled by id, in order. */
  function Shipped(es: seq<B.Envelope>, id: B.ShardId): seq<Frame>
    decreases |es|
  {
    if es == [] then []
    else (if es[0].target == id && Shipment(es[0]).Some? then [Shipment(es[0]).value] else []) + Shipped(es[1..], id)
  }

  function QueueAll(c: C.SoundChan, fs: seq<Frame>): C.SoundChan
    decreases |fs|
  {
    if fs == [] then c
    else
      C.QueueIsSound(c, fs[0]);
      QueueAll(C.Queue(c, fs[0]), fs[1..])
  }

  lemma {:induction false} QueueAllText(c: C.SoundChan, fs: seq<Frame>)
    ensures var d := QueueAll(c, fs);
            && (c.failed ==> d == c)
            && (!d.failed ==> C.Unsent(d) == C.Unsent(c) + Stream(fs))
            && (!c.failed ==> (!d.failed <==> |C.Unsent(c)| + |Stream(fs)| <= C.MAX_BACKLOG))
    decreases |fs|
  {
    hide C.Queue, FrameText;
    if fs == [] {
      assert Stream([]) == [];
    } else {
      C.QueueIsSound(c, fs[0]);
      var c1 := C.Queue(c, fs[0]);
      if c.failed {
        FailedStays(c, fs[0]);
      } else {
        C.QueueFits(c, fs[0]);
        FrameSize(fs[0]);
        Assoc(C.Unsent(c), FrameText(fs[0]), Stream(fs[1..]));
      }
      QueueAllText(c1, fs[1..]);
    }
  }

  lemma FailedStays(c: C.SoundChan, f: Frame)
    requires c.failed
    ensures C.Queue(c, f) == c
  {
  }

  lemma FrameSize(f: Frame)
    ensures |FrameText(f)| == 5 + |f.payload|
  {
  }

  lemma {:induction false} ShipAllQueues(l: Link, es: seq<B.Envelope>)
    requires l.channel.Some?
    ensures ShipAll(l, es) == l.(channel := Some(QueueAll(l.channel.value, Shipped(es, l.id))))
    decreases |es|
  {
    hide C.Queue, Serialize, DeliverPayload;
    if es != [] {
      var m := if es[0].target == l.id then Ship(l, es[0]) else l;
      var fs := Shipped(es, l.id);
      ShipTouchesChannel(l, es[0]);
      ShipAllQueues(m, es[1..]);
      if es[0].target == l.id && Shipment(es[0]).Some? {
        assert fs[0] == Shipment(es[0]).value && fs[1..] == Shipped(es[1..], l.id);
        C.QueueIsSound(l.channel.value, fs[0]);
        assert m == l.(channel := Some(C.Queue(l.channel.value, fs[0])));
      } else {
        assert [] + Shipped(es[1..], l.id) == Shipped(es[1..], l.id);
      }
    }
  }

  /** Whatever happens on the bus, each link with a child queues for it precisely the deliveries its
      shard handled, in order, behind what was unsent; it fails exactly when they do not fit. No
      other part of any link changes, and a link without a child drops them. */
  lemma DeliveriesAreShipped(h: Host, op: B.Op, i: nat)
    requires i < |h.links| && BusRuns.Reachable(h.bus)
    ensures h.bus.handled <= B.Apply(h.bus, op).handled
    ensures var m := OnBus(h, op); var fs := Shipped(m.bus.handled[|h.bus.handled|..], h.links[i].id); var l := h.links[i];
            && m.bus == B.Apply(h.bus, op) && |m.links| == |h.links| && m.links[i] == l.(channel := m.links[i].channel)
            && (l.channel.None? ==> m.links[i].channel.None?)
            && (l.channel.Some? ==>
                  m.links[i].channel.Some? &&
                  var c, d := l.channel.value, m.links[i].channel.value;
                  && (!d.failed ==> C.Unsent(d) == C.Unsent(c) + Stream(fs))
                  && (!c.failed ==> (!d.failed <==> |C.Unsent(c)| + |Stream(fs)| <= C.MAX_BACKLOG)))
  {
    hide B.Apply, ShipAll, Shipped, QueueAll, Stream, BusRuns.Inv;
    var m := OnBus(h, op);
    BusGuarantees.ApplyLater(h.bus, op);
    var es := m.bus.handled[|h.bus.handled|..];
    ShipsTouchChannel(h.links[i], es);
    if h.links[i].channel.Some? {
      ShipAllQueues(h.links[i], es);
      QueueAllText(h.links[i].channel.value, Shipped(es, h.links[i].id));
    }
  }

  /** The child reads a shipment back as the sender, the address for replies, the correlation and the
      value of the message handled. */
  lemma ShipmentReads(e: B.Envelope)
    requires Shipment(e).Some? && e.msg.sender < TWO_64 && e.msg.replyTo < TWO_64
    ensures var d := ReadDelivery(Shipment(e).value.payload);
            && d.Some? && d.value.sender == e.msg.sender && d.value.replyTo == e.msg.replyTo
            && d.value.correlation == e.msg.correlation && Serialize(e.msg.payload) == Some(d.value.value)
  {
    hide Serialize, DeliverPayload, ReadDelivery;
    var d := Delivery(e.msg.sender, e.msg.replyTo, e.msg.correlation, Serialize(e.msg.payload).value);
    DeliveryIsExact(DeliverPayload(d), d);
  }

  // ---- mounting and unmounting -------------------------------------------------------------------------

  /** What a handshake yields: each of its three parts admitted under the schema it must be of, the
      snapshot under the state schema the manifest describes. */
  lemma HandshakeDecides(hello: bytes, m: Schemas, accept: seq<Schema>, state: Schema, policy: Value, snapshot: Value, bs: bytes)
    ensures Handshake(hello, m).1 == Some((accept, state, policy, snapshot, bs)) <==>
            && ReadHello(hello).Some? && bs == ReadHello(hello).value.snapshot
            && B.AdmitBytes(ReadHello(hello).value.policy, B.PolicySchema()) == Accepted(policy)
            && B.AdmitBytes(bs, state) == Accepted(snapshot)
            && var a := B.AdmitBytes(ReadHello(hello).value.manifest, ManifestSchema());
               a.Accepted? && Conforms(a.value, ManifestSchema()) && Reconstruct(a.value, m).1 == Some((accept, state))
  {
    hide ReadHello, B.AdmitBytes, Reconstruct, B.PolicySchema, ManifestSchema, Conforms;
    if ReadHello(hello).Some? {
      BusRuns.AdmittedBytes(ReadHello(hello).value.manifest, ManifestSchema());
    }
  }

  function FreshLink(name: bytes, id: B.ShardId, c: C.SoundChan, state: Schema, policy: Value, snapshot: Value, bs: bytes): Link {
    Link(name, id, state, policy, snapshot, bs, Some(c), false, false, false, 1, 1, bs, [])
  }

  /** The links of h and this one. */
  ghost predicate OneMoreLink(h: Host, m: Host, l: Link) {
    exists k :: 0 <= k <= |h.links| && m.links == h.links[..k] + [l] + h.links[k..]
  }

  /** A mount goes through exactly when the name is free, a child came up, its handshake was accepted
      and none of its schemas is in conflict with the bus; then there is one more link, of this name,
      child, policy and state, whose shard is on the bus with the grant offered; every other link,
      and every other shard, is as it was. Otherwise no link and no shard changes. */
  lemma MountDecides(h: Host, name: bytes, spawn: SpawnOutcome, grant: seq<SendRule>)
    requires HostInv(h)
    ensures var m := Mount(h, name, spawn, grant);
            if Mounted(h, name) || spawn.NoChild? || Handshake(spawn.hello, h.registry).1.None? then
              m.links == h.links && m.bus == h.bus
            else
              var (accept, state, policy, snapshot, bs) := Handshake(spawn.hello, h.registry).1.value;
              var id := h.bus.nextShard;
              if !BusDecisions.NoConflict(h.bus.registry, accept + [state]) then
                m.links == h.links && m.bus.shards == h.bus.shards
              else
                && OneMoreLink(h, m, FreshLink(name, id, spawn.channel, state, policy, snapshot, bs))
                && Enlisted(h.bus, m.bus, accept, state, snapshot, grant)
  {
    hide HostInv, B.RegisterShard, Handshake, Insert, BusDecisions.NoConflict, OneMoreLink, Enlisted;
    if !Mounted(h, name) && spawn.Child? && Handshake(spawn.hello, h.registry).1.Some? {
      var (accept, state, policy, snapshot, bs) := Handshake(spawn.hello, h.registry).1.value;
      HandshakeDecides(spawn.hello, h.registry, accept, state, policy, snapshot, bs);
      HostBus(h);
      EnlistDecides(h.bus, accept, state, snapshot, bs, grant);
      var l := FreshLink(name, h.bus.nextShard, spawn.channel, state, policy, snapshot, bs);
      InsertedOne(h, h.(links := Insert(h.links, l)), l);
      InsertedOne(h, Mount(h, name, spawn, grant), l);
    }
  }

  lemma InsertedOne(h: Host, m: Host, l: Link)
    ensures m.links == Insert(h.links, l) ==> OneMoreLink(h, m, l)
  {
    hide Insert;
    InsertIsExact(h.links, l);
  }

  lemma HostBus(h: Host)
    requires HostInv(h)
    ensures BusRuns.Reachable(h.bus)
  {
    hide BusRuns.Inv, LinkInv, ViewOf;
  }

  /** The bus with one more shard: live, with this grant, accept-set, state schema and state. */
  ghost predicate Enlisted(b: B.Bus, c: B.Bus, accept: seq<Schema>, state: Schema, snapshot: Value, grant: seq<SendRule>) {
    var id := b.nextShard;
    && c.nextShard == id + 1 && id !in b.shards && c.shards.Keys == b.shards.Keys + {id}
    && (forall i :: i in b.shards ==> c.shards[i] == b.shards[i])
    && var r := c.shards[id];
       && r == B.Record(r.accept, state, snapshot, grant, 0, true) && |r.accept| == |accept|
       && forall i :: 0 <= i < |accept| ==> KeyOf(r.accept[i]) == KeyOf(accept[i]) && r.accept[i].id == accept[i].id
  }

  lemma EnlistDecides(b: B.Bus, accept: seq<Schema>, state: Schema, snapshot: Value, bs: bytes, grant: seq<SendRule>)
    requires BusRuns.Reachable(b) && B.AdmitBytes(bs, state) == Accepted(snapshot)
    ensures var r := B.RegisterShard(b, accept, snapshot, grant);
            && (r.1.Some? <==> BusDecisions.NoConflict(b.registry, accept + [state]))
            && (r.1.None? ==> r.0.shards == b.shards)
            && (r.1.Some? ==> r.1.value == b.nextShard && Enlisted(b, r.0, accept, state, snapshot, grant))
  {
    hide BusRuns.Inv, B.RegisterShard, BusDecisions.NoConflict, Conforms, B.AdmitBytes;
    BusRuns.AdmittedBytes(bs, state);
    BusDecisions.RegisterDecides(b, accept, snapshot, grant);
  }

  lemma SameNameSameLink(h: Host, i: nat, l: Link)
    requires HostInv(h) && i < |h.links| && l in h.links && l.name == h.links[i].name
    ensures l == h.links[i]
  {
    hide BusRuns.Inv, LinkInv, ViewOf;
  }

  /** An unmount forgets the one link of the name and takes its shard off the bus; every other link
      and shard stays. */
  lemma UnmountDecides(h: Host, name: bytes)
    requires HostInv(h)
    ensures var m := Unmount(h, name);
            && !Mounted(m, name)
            && (!Mounted(h, name) ==> m == h)
            && (forall l :: l in h.links && l.name != name ==> l in m.links && l.id !in h.bus.shards.Keys - m.bus.shards.Keys)
            && (forall l :: l in m.links ==> l in h.links)
            && (forall l :: l in h.links && l.name == name ==> l.id !in m.bus.shards && m.bus == B.UnregisterShard(h.bus, l.id))
  {
    hide BusRuns.Inv, LinkInv, ViewOf, B.UnregisterShard;
    var i := Place(h.links, name);
    var m := Unmount(h, name);
    if i < |h.links| {
      BusDecisions.UnregisterDecides(h.bus, h.links[i].id);
      forall j | 0 <= j < |m.links| ensures m.links[j] == h.links[if j < i then j else j + 1] && m.links[j].name != name {
        IdsDiffer(h, i, if j < i then j else j + 1);
      }
      forall l | l in h.links && l.name != name ensures l in m.links && l.id != h.links[i].id {
        var k :| 0 <= k < |h.links| && h.links[k] == l;
        IdsDiffer(h, i, k);
        assert m.links[if k < i then k else k - 1] == l;
      }
      forall l | l in h.links && l.name == name ensures l == h.links[i] {
        SameNameSameLink(h, i, l);
      }
    }
  }

  // ---- one step of the host ----------------------------------------------------------------------------

  /** The channel once it was flushed and polled, and the frames that came. */
  function Polled(c: C.SoundChan, w: Weather): (C.SoundChan, seq<Frame>) {
    C.FlushIsExact(c, w.sends);
    C.PollIsExact(C.Flush(c, w.sends), w.recvs);
    C.Poll(C.Flush(c, w.sends), w.recvs)
  }

  /** What the exchange made of one link: its channel flushed and polled, the frames that came heard. */
  predicate Exchanged(l: Link, m: Link, w: Weather) {
    && m == l.(channel := m.channel, snapshot := m.snapshot, snapshotBytes := m.snapshotBytes, heard := m.heard)
    && (l.channel.None? ==> m == l)
    && (l.channel.Some? ==>
          var c := Polled(l.channel.value, w); m.channel == Some(c.0) && m.heard == l.heard + c.1)
  }

  lemma {:induction false} ExchangeReaches(h: Host, ws: seq<Weather>, i: nat, k: nat)
    requires HostInv(h) && i <= |h.links| == |ws| && k < |h.links|
    ensures var m := ExchangeAll(h, ws, i);
            && |m.links| == |h.links| && m.bus.shards == h.bus.shards && m.bus.log == h.bus.log
            && (k < i ==> m.links[k] == h.links[k]) && (i <= k ==> Exchanged(h.links[k], m.links[k], ws[k]))
    decreases |h.links| - i
  {
    hide BusRuns.Inv, HostInv, LinkInv, Exchange, ViewOf, Exchanged;
    if i < |h.links| {
      HostHas(h, i);
      ExchangeKeeps(h.bus, h.links[i], ws[i]);
      OneExchanged(h.bus, h.links[i], ws[i]);
      var (b, l) := Exchange(h.bus, h.links[i], ws[i]);
      forall id ensures ViewOf(b, id) == ViewOf(h.bus, id) {
        SameView(h.bus, b, id);
      }
      ReplaceKeeps(h, i, b, l);
      ExchangeReaches(h.(bus := b, links := h.links[i := l]), ws, i + 1, k);
    }
  }

  lemma OneExchanged(b: B.Bus, l: Link, w: Weather)
    ensures Exchanged(l, Exchange(b, l, w).1, w)
  {
    hide Exchange, C.Flush, C.Poll;
    ExchangeDecides(b, l, w);
    if l.channel.Some? {
      C.FlushIsExact(l.channel.value, w.sends);
    }
  }

  /** Supervision comes to every link once, on a bus that shows its shard as it was. */
  lemma {:induction false} SuperviseReaches(h: Host, ws: seq<Weather>, i: nat, k: nat) returns (b: B.Bus)
    requires HostInv(h) && i <= k < |h.links| == |ws|
    ensures var l, m := h.links[k], SuperviseAll(h, ws, i);
            && ViewOf(b, l.id) == ViewOf(h.bus, l.id) && |m.links| == |h.links|
            && m.links[k] == Supervise(b, l, ws[k].spawn).1
            && ViewOf(m.bus, l.id) == ViewOf(Supervise(b, l, ws[k].spawn).0, l.id)
    decreases |h.links| - i
  {
    hide BusRuns.Inv, HostInv, LinkInv, Supervise, ViewOf;
    HostHas(h, i);
    SuperviseKeeps(h.bus, h.links[i], ws[i].spawn);
    var (c, l) := Supervise(h.bus, h.links[i], ws[i].spawn);
    ReplaceKeeps(h, i, c, l);
    var h1 := h.(bus := c, links := h.links[i := l]);
    if i == k {
      b := h.bus;
      SuperviseLeaves(h1, ws, i + 1, k);
    } else {
      IdsDiffer(h, i, k);
      b := SuperviseReaches(h1, ws, i + 1, k);
    }
  }

  lemma {:induction false} SuperviseLeaves(h: Host, ws: seq<Weather>, i: nat, k: nat)
    requires HostInv(h) && k < i <= |h.links| == |ws|
    ensures var m := SuperviseAll(h, ws, i);
            |m.links| == |h.links| && m.links[k] == h.links[k] && ViewOf(m.bus, h.links[k].id) == ViewOf(h.bus, h.links[k].id)
    decreases |h.links| - i
  {
    hide BusRuns.Inv, HostInv, LinkInv, Supervise, ViewOf;
    if i < |h.links| {
      HostHas(h, i);
      SuperviseKeeps(h.bus, h.links[i], ws[i].spawn);
      var (c, l) := Supervise(h.bus, h.links[i], ws[i].spawn);
      IdsDiffer(h, i, k);
      ReplaceKeeps(h, i, c, l);
      SuperviseLeaves(h.(bus := c, links := h.links[i := l]), ws, i + 1, k);
    }
  }

  /** What the pump of a step handled. */
  function PumpHandles(h: Host, ws: seq<Weather>, script: seq<seq<B.Action>>): seq<B.Envelope>
    requires |ws| == |h.links|
  {
    var b := ExchangeAll(h, ws, 0).bus;
    var c := B.Apply(b, B.OpPump(script));
    if |b.handled| <= |c.handled| then c.handled[|b.handled|..] else []
  }

  /** The channel of a live link as supervision finds it: flushed, polled, and loaded with what its
      shard handled. */
  function FoundBySupervision(h: Host, ws: seq<Weather>, script: seq<seq<B.Action>>, k: nat): C.SoundChan
    requires |ws| == |h.links| && k < |h.links| && h.links[k].channel.Some?
  {
    QueueAll(Polled(h.links[k].channel.value, ws[k]).0, Shipped(PumpHandles(h, ws, script), h.links[k].id))
  }

  /** The host as supervision finds it. */
  function BeforeSupervision(h: Host, ws: seq<Weather>, script: seq<seq<B.Action>>): Host
    requires |ws| == |h.links|
  {
    OnBus(ExchangeAll(h, ws, 0), B.OpPump(script))
  }

  predicate FoundAs(h: Host, h2: Host, ws: seq<Weather>, script: seq<seq<B.Action>>, k: nat)
    requires |ws| == |h.links| == |h2.links| && k < |h.links|
  {
    var l, l2 := h.links[k], h2.links[k];
    && l2.id == l.id && l2.name == l.name && l2.policy == l.policy && l2.quarantined == l.quarantined && l.channel.Some?
    && l2.channel == Some(FoundBySupervision(h, ws, script, k))
    && l2.heard == l.heard + Polled(l.channel.value, ws[k]).1
  }

  lemma FoundDecides(h: Host, ws: seq<Weather>, script: seq<seq<B.Action>>, k: nat)
    requires HostInv(h) && |ws| == |h.links| && k < |h.links| && h.links[k].channel.Some? && h.links[k].id in h.bus.shards
    ensures var h2 := BeforeSupervision(h, ws, script);
            && HostInv(h2) && |h2.links| == |h.links| && FoundAs(h, h2, ws, script, k)
            && ViewOf(h2.bus, h.links[k].id) == ViewOf(h.bus, h.links[k].id)
  {
    hide HostInv, ViewOf, ExchangeAll, B.Apply, Exchanged, Polled, QueueAll, Shipped, ShipAll;
    var l := h.links[k];
    ExchangeAllKeeps(h, ws, 0);
    ExchangeReaches(h, ws, 0, k);
    var h1 := ExchangeAll(h, ws, 0);
    ExchangedFacts(l, h1.links[k], ws[k]);
    SameView(h.bus, h1.bus, l.id);
    OnBusKeeps(h1, B.OpPump(script));
    ShipAllQueues(h1.links[k], PumpHandles(h, ws, script));
    PumpShows(h1, script, l.id);
  }

  /** What a step of the host makes of a live link, from the link and the weather alone: it hears what
      the socket brings; if its channel still works once its deliveries are queued it is kept so; and
      otherwise its shard dies once more and is respawned, or quarantined when no child came up or no
      revival was left. */
  lemma StepDecides(h: Host, ws: seq<Weather>, script: seq<seq<B.Action>>, k: nat)
    requires HostInv(h) && |ws| == |h.links| && k < |h.links| && !h.links[k].quarantined
    ensures var l := h.links[k]; l.channel.Some? && l.id in h.bus.shards && Conforms(l.policy, B.PolicySchema())
    ensures |StepHost(h, ws, script).links| == |h.links|
    ensures var l := h.links[k]; var m := StepHost(h, ws, script); var n := m.links[k];
            var d := FoundBySupervision(h, ws, script, k);
            && n.id == l.id && n.name == l.name && n.heard == l.heard + Polled(l.channel.value, ws[k]).1
            && if !Done(d) then
                 n.channel == Some(d) && !n.quarantined && Deaths(m.bus.log, l.id) == Deaths(h.bus.log, l.id)
               else
                 && Deaths(m.bus.log, l.id) == Deaths(h.bus.log, l.id) + 1
                 && (n.quarantined <==>
                       ws[k].spawn.NoChild? || h.bus.shards[l.id].reloadsUsed >= B.PolicyOf(l.policy).maxReloads)
  {
    hide HostInv, LinkInv, ExchangeAll, SuperviseAll, OnBus, Supervise, Polled, B.PolicySchema, B.PolicyOf, Conforms,
         FoundBySupervision, Deaths, NeverFellBack, Done;
    var l := h.links[k];
    HostHas(h, k);
    LinkFacts(h.bus, l);
    FoundDecides(h, ws, script, k);
    var h2 := BeforeSupervision(h, ws, script);
    HostHas(h2, k);
    var b := SuperviseReaches(h2, ws, 0, k);
    SuperviseTells(h.bus, b, h2.links[k], ws[k].spawn);
  }

  lemma ExchangedFacts(l: Link, m: Link, w: Weather)
    requires Exchanged(l, m, w) && l.channel.Some?
    ensures m.channel == Some(Polled(l.channel.value, w).0) && m.heard == l.heard + Polled(l.channel.value, w).1
    ensures m.id == l.id && m.name == l.name && m.policy == l.policy && m.quarantined == l.quarantined
  {
    hide Polled;
  }

  lemma PumpShows(h: Host, script: seq<seq<B.Action>>, id: B.ShardId)
    requires HostInv(h) && id in h.bus.shards
    ensures ViewOf(OnBus(h, B.OpPump(script)).bus, id) == ViewOf(h.bus, id)
  {
    hide HostInv, ViewOf, B.Apply, ShipAll;
    HostBus(h);
    OpShowsNothing(h.bus, B.OpPump(script), id);
  }

  /** What one round of supervision shows of the shard, told from any bus that shows it alike. */
  lemma SuperviseTells(b0: B.Bus, b: B.Bus, l: Link, spawn: SpawnOutcome)
    requires LinkInv(l, ViewOf(b0, l.id)) && !l.quarantined && ViewOf(b, l.id) == ViewOf(b0, l.id)
    ensures l.channel.Some? && l.id in b0.shards && Conforms(l.policy, B.PolicySchema())
    ensures var (c, m) := Supervise(b, l, spawn);
            && m.id == l.id && m.name == l.name && m.heard == l.heard
            && if !Done(l.channel.value) then
                 m.channel == l.channel && !m.quarantined && ViewOf(c, l.id) == ViewOf(b0, l.id)
               else
                 && ViewOf(c, l.id).deaths == Deaths(b0.log, l.id) + 1
                 && (m.quarantined <==> spawn.NoChild? || b0.shards[l.id].reloadsUsed >= B.PolicyOf(l.policy).maxReloads)
  {
    hide LinkInv, Supervise, Conforms, B.PolicySchema, B.PolicyOf, Deaths, NeverFellBack, Done;
    LinkFacts(b0, l);
    SuperviseDecides(b, l, spawn);
    SupervisedIsSame(b, l, spawn);
    SuperviseHears(b, l, spawn);
  }

  lemma SuperviseHears(b: B.Bus, l: Link, spawn: SpawnOutcome)
    ensures Supervise(b, l, spawn).1.heard == l.heard
  {
    hide B.Kill, B.Reload, Respawn;
    forall m: Link, state ensures Respawn(m, spawn, state).heard == m.heard {
      RespawnShape(m, spawn, state);
    }
  }
}
