/** The isolation host (src/isolation/host.cpp): child processes behind bus shards, supervised.
    Spawning, the sockets and the children are adversaries; the bus is module Bus. */
module Supervisor {
  import opened Bytes
  import opened Model
  import opened Gate
  import opened Admission
  import opened Registry
  import opened Grant
  import opened Framing
  import opened SchemaCodec
  import opened SchemaTransport
  import C = Channel
  import B = Bus
  import AdmissionRun
  import BusRuns

  /** One hosted shard. The snapshot and the policy are the host's own copies. */
  datatype Link = Link(
    name: bytes,
    id: B.ShardId,
    stateSchema: Schema,
    policy: Value,
    snapshot: Value,
    snapshotBytes: bytes,
    channel: Option<C.SoundChan>,
    dead: bool,
    deathSignaled: bool,
    quarantined: bool,
    // ---- history -----------------------------------------------------------------
    attempts: nat,    // calls of spawn_and_handshake
    spawned: nat,     // those that succeeded
    first: bytes,     // the snapshot of the first handshake
    heard: seq<Frame>)  // every frame its children sent since

  datatype Host = Host(bus: B.Bus, registry: Schemas, links: seq<Link>)

  const NEW_HOST: Host := Host(B.NEW_BUS, map[], [])

  // ---- talking to the child ---------------------------------------------------------------------

  function Say(l: Link, op: byte, payload: bytes): Link {
    if l.channel.None? then l
    else
      C.QueueIsSound(l.channel.value, Frame(op, payload));
      l.(channel := Some(C.Queue(l.channel.value, Frame(op, payload))))
  }

  /** ship_deliver: without a child the delivery is dropped. A payload that cannot be serialized
      throws, which is not modelled. */
  function Ship(l: Link, e: B.Envelope): Link {
    match Serialize(e.msg.payload)
    case None => l
    case Some(bs) =>
      Say(l, OP_DELIVER, DeliverPayload(Delivery(e.msg.sender % TWO_64, e.msg.replyTo % TWO_64, e.msg.correlation, bs)))
  }

  function ShipAll(l: Link, es: seq<B.Envelope>): Link
    decreases |es|
  {
    if es == [] then l else ShipAll(if es[0].target == l.id then Ship(l, es[0]) else l, es[1..])
  }

  /** handle_child_frame: the bus and the link after. */
  function HandleFrame(b: B.Bus, l: Link, f: Frame): (B.Bus, Link) {
    if f.op == OP_EMIT then (HandleEmit(b, l.id, f.payload), l)
    else if f.op == OP_SNAPSHOT then
      var a := B.AdmitBytes(f.payload, l.stateSchema);
      (b, if a.Accepted? then l.(snapshot := a.value, snapshotBytes := f.payload) else l)
    else (b, l)
  }

  function HandleEmit(b: B.Bus, id: B.ShardId, payload: bytes): B.Bus {
    match ReadEmitted(payload)
    case None => b
    case Some(e) =>
      var a := AdmitNamed(Parse(e.value), b.registry, false, B.NoFloatText());
      if a.Rejected? then b
      else
        var msg := B.Message(a.value, 0, e.replyTo, e.correlation);
        if e.kind == 1 then B.PublishAs(b, id, msg, B.Host(id)) else B.SendAs(b, id, e.target, msg, B.Host(id))
  }

  function HandleFrames(b: B.Bus, l: Link, fs: seq<Frame>): (B.Bus, Link)
    decreases |fs|
  {
    if fs == [] then (b, l)
    else
      var (c, m) := HandleFrame(b, l, fs[0]);
      HandleFrames(c, m, fs[1..])
  }

  // ---- one iteration of the host loop --------------------------------------------------------------

  datatype SpawnOutcome = NoChild | Child(channel: C.SoundChan, hello: bytes)

  /** What the world does to one link in one iteration. */
  datatype Weather = Weather(sends: seq<C.SendResult>, recvs: seq<C.RecvResult>, spawn: SpawnOutcome)

  /** Flush, poll, and handle what arrived. */
  function Exchange(b: B.Bus, l: Link, w: Weather): (B.Bus, Link) {
    if l.channel.None? then (b, l)
    else
      var flushed := C.Flush(l.channel.value, w.sends);
      C.FlushIsExact(l.channel.value, w.sends);
      var (c, frames) := C.Poll(flushed, w.recvs);
      C.PollIsExact(flushed, w.recvs);
      var (b1, m) := HandleFrames(b, l.(channel := Some(c)), frames);
      (b1, m.(heard := l.heard + frames))
  }

  predicate Done(c: C.SoundChan) { c.failed || c.eof }

  /** respawn_and_revive */
  function Respawn(l: Link, spawn: SpawnOutcome, state: Value): Link {
    var l1 := l.(attempts := l.attempts + 1);
    match spawn
    case NoChild => l1.(channel := None)
    case Child(c, _) =>
      var l2 := l1.(channel := Some(c), spawned := l.spawned + 1);
      (match Serialize(state) case None => l2 case Some(bs) => Say(l2, OP_REVIVE, bs))
  }

  predicate IsRevived(out: B.ReviveOutcome) { out.RevivedFresh? || out.RevivedLastGood? }

  /** recover: tear down, reload on the shard's budget, and quarantine what did not come back. */
  function Recover(b: B.Bus, l: Link, spawn: SpawnOutcome): (B.Bus, Link) {
    var l1 := l.(channel := None);
    var (c, out) := B.Reload(b, l.id, l.policy, l.snapshotBytes);
    var l2 :=
      if IsRevived(out) && l.id in c.shards then Respawn(l1, spawn, c.shards[l.id].lastKnownGood) else l1;
    if IsRevived(out) && l2.channel.Some? then (c, l2.(dead := false, deathSignaled := false))
    else (c, l2.(quarantined := true, dead := true, channel := None))
  }

  /** The supervision of one link. */
  function Supervise(b: B.Bus, l: Link, spawn: SpawnOutcome): (B.Bus, Link) {
    if l.quarantined then (b, l)
    else
      var deadNow := l.channel.None? || Done(l.channel.value);
      var (b1, l1) :=
        if deadNow && !l.deathSignaled then (B.Kill(b, l.id), l.(dead := true, deathSignaled := true)) else (b, l);
      if l1.dead then Recover(b1, l1, spawn) else (b1, l1)
  }

  /** The loops of step() over the links, from the i-th on. */
  function ExchangeAll(h: Host, ws: seq<Weather>, i: nat): Host
    requires i <= |h.links| == |ws|
    decreases |h.links| - i
  {
    if i == |h.links| then h
    else
      var (b, l) := Exchange(h.bus, h.links[i], ws[i]);
      ExchangeAll(h.(bus := b, links := h.links[i := l]), ws, i + 1)
  }

  function SuperviseAll(h: Host, ws: seq<Weather>, i: nat): Host
    requires i <= |h.links| == |ws|
    decreases |h.links| - i
  {
    if i == |h.links| then h
    else
      var (b, l) := Supervise(h.bus, h.links[i], ws[i].spawn);
      SuperviseAll(h.(bus := b, links := h.links[i := l]), ws, i + 1)
  }

  /** A bus operation, with what its deliveries ship to the children. */
  function OnBus(h: Host, op: B.Op): Host {
    var b := B.Apply(h.bus, op);
    var new' := if |h.bus.handled| <= |b.handled| then b.handled[|h.bus.handled|..] else [];
    h.(bus := b, links := seq(|h.links|, i requires 0 <= i < |h.links| => ShipAll(h.links[i], new')))
  }

  /** step() */
  function StepHost(h: Host, ws: seq<Weather>, script: seq<seq<B.Action>>): Host
    requires |ws| == |h.links|
  {
    var h1 := ExchangeAll(h, ws, 0);
    ExchangeKeepsCount(h, ws, 0);
    var h2 := OnBus(h1, B.OpPump(script));
    SuperviseAll(h2, ws, 0)
  }

  lemma {:induction false} ExchangeKeepsCount(h: Host, ws: seq<Weather>, i: nat)
    requires i <= |h.links| == |ws|
    ensures |ExchangeAll(h, ws, i).links| == |h.links|
    decreases |h.links| - i
  {
    hide Exchange;
    if i < |h.links| {
      var (b, l) := Exchange(h.bus, h.links[i], ws[i]);
      ExchangeKeepsCount(h.(bus := b, links := h.links[i := l]), ws, i + 1);
    }
  }

  // ---- mounting and unmounting -------------------------------------------------------------------------

  /** Octet order, as std::string compares. */
  predicate Less(a: bytes, b: bytes) {
    b != [] && (a == [] || a[0] < b[0] || (a[0] == b[0] && Less(a[1..], b[1..])))
  }

  function Insert(ls: seq<Link>, l: Link): seq<Link> {
    if ls == [] || Less(l.name, ls[0].name) then [l] + ls else [ls[0]] + Insert(ls[1..], l)
  }

  predicate Mounted(h: Host, name: bytes) { exists i :: 0 <= i < |h.links| && h.links[i].name == name }

  /** reconstruct_and_cache: the registry after; accept-set, state schema, policy and snapshot, or
      None where it throws. */
  function Handshake(hello: bytes, m: Schemas): (Schemas, Option<(seq<Schema>, Schema, Value, Value, bytes)>) {
    match ReadHello(hello)
    case None => (m, None)
    case Some(Hello(manifest, policy, snapshot)) =>
      var am := B.AdmitBytes(manifest, ManifestSchema());
      if am.Rejected? then (m, None)
      else
        BusRuns.AdmittedBytes(manifest, ManifestSchema());
        var (n, schemas) := Reconstruct(am.value, m);
        if schemas.None? then (n, None)
        else
          var ap := B.AdmitBytes(policy, B.PolicySchema());
          if ap.Rejected? then (n, None)
          else
            var s := B.AdmitBytes(snapshot, schemas.value.1);
            if s.Rejected? then (n, None)
            else (n, Some((schemas.value.0, schemas.value.1, ap.value, s.value, snapshot)))
  }

  /** mount, past the capability resolution. */
  function Mount(h: Host, name: bytes, spawn: SpawnOutcome, grant: seq<SendRule>): Host {
    if Mounted(h, name) || spawn.NoChild? then h
    else
      var (m, cached) := Handshake(spawn.hello, h.registry);
      var h1 := h.(registry := m);
      if cached.None? then h1
      else
        var (accept, state, policy, snapshot, bs) := cached.value;
        var (b, id) := B.RegisterShard(h.bus, accept, snapshot, grant);
        if id.None? then h1.(bus := b)
        else
          var l := Link(name, id.value, state, policy, snapshot, bs, Some(spawn.channel), false, false, false, 1, 1, bs, []);
          h1.(bus := b, links := Insert(h.links, l))
  }

  /** The place of the link of this name, or |ls|. */
  function Place(ls: seq<Link>, name: bytes): (r: nat)
    ensures r <= |ls| && (r < |ls| ==> ls[r].name == name) && forall i :: 0 <= i < r ==> ls[i].name != name
  {
    if ls == [] || ls[0].name == name then 0 else 1 + Place(ls[1..], name)
  }

  function Unmount(h: Host, name: bytes): Host {
    var i := Place(h.links, name);
    if i == |h.links| then h
    else h.(bus := B.UnregisterShard(h.bus, h.links[i].id), links := h.links[..i] + h.links[i + 1..])
  }

  // ---- runs ------------------------------------------------------------------------------------------------

  datatype HostOp =
    | DoMount(name: bytes, spawn: SpawnOutcome, grant: seq<SendRule>)
    | DoUnmount(name: bytes)
    | DoStep(ws: seq<Weather>, script: seq<seq<B.Action>>)
    | DoBus(op: B.Op)

  /** Only the supervisor drives the lifecycle of what it hosts. */
  predicate HandsOff(h: Host, op: B.Op) {
    (op.OpKill? || op.OpReload? || op.OpSwap? || op.OpUnregister?) ==>
      forall i :: 0 <= i < |h.links| ==> h.links[i].id != op.id
  }

  predicate Enabled(h: Host, op: HostOp) {
    match op
    case DoStep(ws, _) => |ws| == |h.links|
    case DoBus(op) => HandsOff(h, op)
    case _ => true
  }

  function Apply(h: Host, op: HostOp): Host
    requires Enabled(h, op)
  {
    match op
    case DoMount(name, spawn, grant) => Mount(h, name, spawn, grant)
    case DoUnmount(name) => Unmount(h, name)
    case DoStep(ws, script) => StepHost(h, ws, script)
    case DoBus(op) => OnBus(h, op)
  }

  predicate IsRun(h: Host, ops: seq<HostOp>)
    decreases |ops|
  {
    ops == [] || (Enabled(h, ops[0]) && IsRun(Apply(h, ops[0]), ops[1..]))
  }

  function Run(h: Host, ops: seq<HostOp>): Host
    requires IsRun(h, ops)
    decreases |ops|
  {
    if ops == [] then h else Run(Apply(h, ops[0]), ops[1..])
  }
}
