/** The isolation host as it runs (src/isolation/host.cpp): links updated one by one, the bus and
    the registry in place, each method proved against module Supervisor. */
module IsolationHost {
  import opened Bytes
  import opened Model
  import opened Gate
  import opened Admission
  import opened AdmissionRun
  import opened Registry
  import opened Grant
  import opened Framing
  import FramingRun
  import opened SchemaId
  import opened SchemaCodec
  import opened SchemaCodecRun
  import opened ManifestRun
  import opened SchemaTransport
  import opened Supervisor
  import opened Switchboard
  import C = Channel
  import B = Bus
  import BusRuns
  import SupervisorRuns

  // ---- every schema in play was built ---------------------------------------------------------

  predicate BusWf(b: B.Bus) {
    && (forall k :: k in b.registry ==> WfSchema(b.registry[k]))
    && forall id :: id in b.shards ==> WfSchema(b.shards[id].stateSchema)
  }

  predicate HostWf(h: Host) { BusWf(h.bus) && forall i :: 0 <= i < |h.links| ==> WfSchema(h.links[i].stateSchema) }

  /** c knows the schemas b knows. */
  predicate SameSchemas(b: B.Bus, c: B.Bus) {
    && c.registry == b.registry && c.shards.Keys == b.shards.Keys
    && forall id :: id in b.shards ==> c.shards[id].stateSchema == b.shards[id].stateSchema
  }

  lemma {:induction false} QueueKeepsSchemas(b: B.Bus, msg: B.Message, targets: seq<B.ShardId>, gated: bool, who: B.Origin)
    ensures SameSchemas(b, B.EnqueueAll(b, msg, targets, gated, who))
    decreases |targets|
  {
    if targets != [] {
      QueueKeepsSchemas(B.Enqueue(b, msg, targets[0], gated, who), msg, targets[1..], gated, who);
    }
  }

  lemma FrameKeepsSchemas(b: B.Bus, l: Link, f: Frame)
    ensures var (c, m) := HandleFrame(b, l, f); SameSchemas(b, c) && m.stateSchema == l.stateSchema && m.id == l.id
  {
    hide AdmitNamed, Parse, B.EnqueueAll, B.Recipients, B.AdmitBytes, ReadEmitted;
    if f.op == OP_EMIT && ReadEmitted(f.payload).Some? {
      var e := ReadEmitted(f.payload).value;
      var a := AdmitNamed(Parse(e.value), b.registry, false, B.NoFloatText());
      if a.Accepted? {
        var msg := B.Message(a.value, l.id, e.replyTo, e.correlation);
        QueueKeepsSchemas(b, msg, B.Recipients(b, B.ShapeOf(msg.payload), 1), true, B.Host(l.id));
      }
    }
  }

  lemma {:induction false} ActsKeepSchemas(b: B.Bus, self: B.ShardId, acts: seq<B.Action>)
    ensures SameSchemas(b, B.ActAll(b, self, acts))
    decreases |acts|
  {
    hide B.EnqueueAll, B.Recipients;
    if acts != [] {
      if acts[0].PublishIt? {
        QueueKeepsSchemas(b, acts[0].msg.(sender := self), B.Recipients(b, B.ShapeOf(acts[0].msg.payload), 1), true, B.Handler(self));
      }
      ActsKeepSchemas(B.Act(b, self, acts[0]), self, acts[1..]);
    }
  }

  lemma {:induction false} DispatchKeepsSchemas(b: B.Bus, script: seq<seq<B.Action>>)
    ensures SameSchemas(b, B.Dispatch(b, script))
    decreases |script|
  {
    hide B.Judge, B.ActAll;
    if !(b.queue == [] || b.stopRequested) && script != [] {
      var c := b.(queue := b.queue[1..]);
      ActsKeepSchemas(c.(handled := c.handled + [b.queue[0]]), b.queue[0].target, script[0]);
      DispatchKeepsSchemas(B.Deliver(c, b.queue[0], script[0]), script[1..]);
    }
  }

  lemma SuperviseKeepsSchemas(b: B.Bus, l: Link, spawn: SpawnOutcome)
    ensures var (c, m) := Supervise(b, l, spawn); SameSchemas(b, c) && m.stateSchema == l.stateSchema && m.id == l.id
  {
    hide Recover, B.Kill, SameSchemas;
    var b1 := B.Kill(b, l.id);
    assert SameSchemas(b, b) && SameSchemas(b, b1) by { ReloadKeepsSchemas(b, l.id, l.policy, l.snapshotBytes); }
    RecoverKeepsSchemas(b, l, spawn);
    RecoverKeepsSchemas(b1, l.(dead := true, deathSignaled := true), spawn);
    var c := Recover(b1, l.(dead := true, deathSignaled := true), spawn).0;
    assert SameSchemas(b, c) by { SchemasTransitive(b, b1, c); }
  }

  lemma SchemasTransitive(b: B.Bus, c: B.Bus, d: B.Bus)
    requires SameSchemas(b, c) && SameSchemas(c, d)
    ensures SameSchemas(b, d)
  {
    forall id | id in b.shards ensures d.shards[id].stateSchema == b.shards[id].stateSchema {
      assert id in c.shards.Keys;
    }
  }

  lemma RecoverKeepsSchemas(b: B.Bus, l: Link, spawn: SpawnOutcome)
    ensures var (c, m) := Recover(b, l, spawn); SameSchemas(b, c) && m.stateSchema == l.stateSchema && m.id == l.id
  {
    hide Respawn, B.Reload, SameSchemas;
    assert SameSchemas(b, B.Reload(b, l.id, l.policy, l.snapshotBytes).0) by {
      ReloadKeepsSchemas(b, l.id, l.policy, l.snapshotBytes);
    }
    var c := B.Reload(b, l.id, l.policy, l.snapshotBytes).0;
    if l.id in c.shards {
      SupervisorRuns.RespawnShape(l.(channel := None), spawn, c.shards[l.id].lastKnownGood);
    }
  }

  lemma ReloadKeepsSchemas(b: B.Bus, id: B.ShardId, policy: Value, candidate: bytes)
    ensures SameSchemas(b, b) && SameSchemas(b, B.Reload(b, id, policy, candidate).0) && SameSchemas(b, B.Kill(b, id))
  {
    hide AdmitLive, B.AdmitBytes, B.PolicySchema, Conforms, B.PolicyOf, B.Restore, B.Emit, SameSchemas;
    SchemasAreTheirOwn(b);
    if id in b.shards {
      SayingKeepsSchemas(b, id);
      UpdatingKeepsSchemas(b, id);
      RestoringKeepsSchemas(b, id);
    }
  }

  lemma SchemasAreTheirOwn(b: B.Bus)
    ensures SameSchemas(b, b)
  {
  }

  lemma SayingKeepsSchemas(b: B.Bus, id: B.ShardId)
    requires id in b.shards
    ensures forall e :: SameSchemas(b, B.Emit(b, e))
  {
    hide SameSchemas;
    assert b.shards[id := b.shards[id]] == b.shards;
    forall e ensures SameSchemas(b, B.Emit(b, e)) {
      RecordKeepsSchemas(b, id, b.shards[id], b.log + [e], b.restored);
    }
  }

  lemma UpdatingKeepsSchemas(b: B.Bus, id: B.ShardId)
    requires id in b.shards
    ensures forall r: B.Record, e | r.stateSchema == b.shards[id].stateSchema :: SameSchemas(b, B.Emit(B.Update(b, id, r), e))
  {
    hide SameSchemas;
    forall r: B.Record, e | r.stateSchema == b.shards[id].stateSchema ensures SameSchemas(b, B.Emit(B.Update(b, id, r), e)) {
      RecordKeepsSchemas(b, id, r, b.log + [e], b.restored);
    }
  }

  lemma RestoringKeepsSchemas(b: B.Bus, id: B.ShardId)
    requires id in b.shards
    ensures forall v, n: nat, e :: SameSchemas(b, B.Emit(B.Restore(b, id, v, n), e))
  {
    hide SameSchemas;
    var r := b.shards[id];
    forall v, n: nat, e ensures SameSchemas(b, B.Emit(B.Restore(b, id, v, n), e)) {
      RecordKeepsSchemas(b, id, r.(lastKnownGood := v, reloadsUsed := r.reloadsUsed + n, alive := true), b.log + [e], b.restored + [(id, v)]);
    }
  }

  lemma RecordKeepsSchemas(b: B.Bus, id: B.ShardId, r: B.Record, log: seq<B.Event>, restored: seq<(B.ShardId, Value)>)
    requires id in b.shards && r.stateSchema == b.shards[id].stateSchema
    ensures SameSchemas(b, b.(shards := b.shards[id := r], log := log, restored := restored))
  {
  }

  class IsolationHost {
    const bus: Switchboard
    const registry: Registry
    var links: seq<Link>

    ghost predicate Valid()
      reads this
    {
      registry != bus.registry
    }

    ghost function State(): Host
      reads this, bus, bus.registry, registry
    {
      Host(bus.State(), registry.current, links)
    }

    constructor (bus: Switchboard)
      ensures Valid() && this.bus == bus && fresh(registry)
      ensures State() == Host(bus.State(), map[], [])
    {
      this.bus := bus;
      registry := new Registry();
      links := [];
    }

    // ---- one link ------------------------------------------------------------------------------

    method HandleChildFrame(i: nat, f: Frame)
      requires Valid() && i < |links| && WfSchema(links[i].stateSchema)
      requires forall k :: k in bus.registry.current ==> WfSchema(bus.registry.current[k])
      modifies this`links, bus
      ensures Valid() && |links| == |old(links)| && links[i].stateSchema == old(links[i].stateSchema)
      ensures var (b, l) := HandleFrame(old(bus.State()), old(links[i]), f);
              bus.State() == b && links == old(links)[i := l] && registry.current == old(registry.current)
    {
      hide AdmitNamed, Parse, ReadEmitted, Admit;
      var l := links[i];
      if f.op == OP_EMIT {
        var e := FramingRun.TakeEmitted(f.payload);
        if e.None? {
          return;
        }
        var u := ParseBytes(e.value.value);
        if u.Malformed? {
          AdmitUnfolds(u, bus.registry.current);
          return;
        }
        var door := bus.registry.Lookup(u.name, u.version);
        AdmitUnfolds(u, bus.registry.current);
        if door.None? {
          return;
        }
        var a := AdmitUnder(u, door.value, false, B.NoFloatText());
        if a.Rejected? {
          return;
        }
        var msg := B.Message(a.value, 0, e.value.replyTo, e.value.correlation);
        if e.value.kind == 1 {
          var recipients := bus.PublishAs(l.id, msg, B.Host(l.id));
        } else {
          var ticket := bus.SendAs(l.id, e.value.target, msg, B.Host(l.id));
        }
      } else if f.op == OP_SNAPSHOT {
        var a := GateBytes(f.payload, l.stateSchema);
        if a.Rejected? {
          return;
        }
        links := links[i := l.(snapshot := a.value, snapshotBytes := f.payload)];
      }
    }

    /** Flush, poll, and handle every frame that arrived. */
    method ExchangeLink(i: nat, w: Weather)
      requires Valid() && i < |links| && HostWf(State())
      modifies this`links, bus
      ensures Valid() && HostWf(State())
      ensures var (b, l) := Exchange(old(bus.State()), old(links[i]), w);
              bus.State() == b && links == old(links)[i := l] && registry.current == old(registry.current)
    {
      hide HandleFrame, C.Flush, C.Poll, C.Sound, WfSchema;
      if links[i].channel.None? {
        assert links == links[i := links[i]];
        return;
      }
      var before := links[i].heard;
      var c := links[i].channel.value;
      C.FlushIsExact(c, w.sends);
      var flushed := C.Flush(c, w.sends);
      C.PollIsExact(flushed, w.recvs);
      var (polled, frames) := C.Poll(flushed, w.recvs);
      links := links[i := links[i].(channel := Some(polled))];
      ghost var start, first := bus.State(), links[i];
      assert HostWf(State());
      var k := 0;
      while k < |frames|
        invariant 0 <= k <= |frames| && Valid() && i < |links| && HostWf(State())
        invariant links == old(links)[i := links[i]] && registry.current == old(registry.current)
        invariant HandleFrames(start, first, frames) == HandleFrames(bus.State(), links[i], frames[k..])
      {
        assert frames[k..][0] == frames[k] && frames[k..][1..] == frames[k + 1..];
        FrameKeepsSchemas(bus.State(), links[i], frames[k]);
        HandleChildFrame(i, frames[k]);
        k := k + 1;
      }
      links := links[i := links[i].(heard := before + frames)];
    }

    /** Tear down, reload, respawn on revival, quarantine otherwise. */
    method RecoverLink(i: nat, spawn: SpawnOutcome)
      requires Valid() && i < |links|
      requires links[i].id in bus.shards ==> WfSchema(bus.shards[links[i].id].stateSchema)
      modifies this`links, bus
      ensures var (b, l) := Recover(old(bus.State()), old(links[i]), spawn);
              bus.State() == b && links == old(links)[i := l]
    {
      hide B.Reload, Respawn;
      var l := links[i].(channel := None);
      var out := bus.Reload(l.id, l.policy, l.snapshotBytes);
      var revived := IsRevived(out);
      if revived && l.id in bus.shards {
        l := Respawn(l, spawn, bus.shards[l.id].lastKnownGood);
      }
      if revived && l.channel.Some? {
        l := l.(dead := false, deathSignaled := false);
      } else {
        l := l.(quarantined := true, dead := true, channel := None);
      }
      links := links[i := l];
    }

    method SuperviseLink(i: nat, spawn: SpawnOutcome)
      requires Valid() && i < |links|
      requires links[i].id in bus.shards ==> WfSchema(bus.shards[links[i].id].stateSchema)
      modifies this`links, bus
      ensures var (b, l) := Supervise(old(bus.State()), old(links[i]), spawn);
              bus.State() == b && links == old(links)[i := l]
    {
      hide Recover;
      var l := links[i];
      if l.quarantined {
        return;
      }
      var deadNow := l.channel.None? || Done(l.channel.value);
      if deadNow && !l.deathSignaled {
        l := l.(dead := true, deathSignaled := true);
        links := links[i := l];
        bus.Kill(l.id);
      }
      if l.dead {
        RecoverLink(i, spawn);
      }
    }

    // ---- the host loop ------------------------------------------------------------------------------

    method ExchangeLinks(ws: seq<Weather>)
      requires Valid() && |ws| == |links| && HostWf(State())
      modifies this`links, bus
      ensures Valid() && HostWf(State()) && State() == ExchangeAll(old(State()), ws, 0)
    {
      hide Exchange, WfSchema;
      ghost var start := State();
      var i := 0;
      while i < |links|
        invariant 0 <= i <= |links| == |ws| && Valid() && HostWf(State())
        invariant ExchangeAll(start, ws, 0) == ExchangeAll(State(), ws, i)
      {
        ExchangeLink(i, ws[i]);
        i := i + 1;
      }
    }

    /** Pump the bus; what the proxies are handed is queued for their children. */
    method PumpAndShip(script: seq<seq<B.Action>>)
      requires Valid() && HostWf(State())
      modifies this`links, bus
      ensures Valid() && HostWf(State()) && State() == OnBus(old(State()), B.OpPump(script))
    {
      hide ShipAll, B.Dispatch, WfSchema;
      ghost var h := State();
      var seen := |bus.handled|;
      bus.Pump(script);
      DispatchKeepsSchemas(h.bus.(inDispatch := true, stopRequested := false), script);
      assert BusWf(bus.State());
      var handed := if seen <= |bus.handled| then bus.handled[seen..] else [];
      ghost var b := bus.State();
      var i := 0;
      while i < |links|
        invariant 0 <= i <= |links| == |h.links| && Valid()
        invariant bus.State() == b && registry.current == h.registry
        invariant forall j :: 0 <= j < i ==> links[j] == ShipAll(h.links[j], handed)
        invariant forall j :: i <= j < |links| ==> links[j] == h.links[j]
      {
        links := links[i := ShipAll(links[i], handed)];
        i := i + 1;
      }
      forall j | 0 <= j < |links| ensures WfSchema(links[j].stateSchema) {
        SupervisorRuns.ShipsTouchChannel(h.links[j], handed);
      }
      assert links == OnBus(h, B.OpPump(script)).links;
    }

    method SuperviseLinks(ws: seq<Weather>)
      requires Valid() && |ws| == |links| && HostWf(State())
      modifies this`links, bus
      ensures Valid() && HostWf(State()) && State() == SuperviseAll(old(State()), ws, 0)
    {
      hide Supervise, WfSchema;
      ghost var start := State();
      var i := 0;
      while i < |links|
        invariant 0 <= i <= |links| == |ws| && Valid() && HostWf(State())
        invariant SuperviseAll(start, ws, 0) == SuperviseAll(State(), ws, i)
      {
        SuperviseKeepsSchemas(bus.State(), links[i], ws[i].spawn);
        assert links[i].id in bus.shards ==> WfSchema(bus.shards[links[i].id].stateSchema);
        SuperviseLink(i, ws[i].spawn);
        i := i + 1;
      }
    }

    /** step(): exchange with every child, pump, supervise every link. */
    method Step(ws: seq<Weather>, script: seq<seq<B.Action>>)
      requires Valid() && |ws| == |links| && HostWf(State())
      modifies this`links, bus
      ensures Valid() && HostWf(State()) && State() == StepHost(old(State()), ws, script)
    {
      hide ExchangeAll, SuperviseAll, OnBus, HostWf;
      ghost var h := State();
      ExchangeKeepsCount(h, ws, 0);
      ExchangeLinks(ws);
      ghost var h1 := State();
      PumpAndShip(script);
      assert |OnBus(h1, B.OpPump(script)).links| == |h1.links| by { OnBusCount(h1, B.OpPump(script)); }
      SuperviseLinks(ws);
    }

    // ---- mounting ---------------------------------------------------------------------------------

    /** reconstruct_and_cache: everything the child says about itself, through the gate. */
    method ReconstructAndCache(hello: bytes) returns (cached: Option<(seq<Schema>, Schema, Value, Value, bytes)>)
      requires Valid() && AllWf(registry.current)
      modifies registry
      ensures (registry.current, cached) == Handshake(hello, old(registry.current))
      ensures AllWf(registry.current) && (cached.Some? ==> WfSchema(cached.value.1))
    {
      hide B.AdmitBytes, ReadHello, Reconstruct, ManifestSchema, B.PolicySchema, Conforms, WfSchema;
      var h := FramingRun.TakeHello(hello);
      if h.None? {
        return None;
      }
      MetaAreWf();
      var am := GateBytes(h.value.manifest, ManifestSchema());
      if am.Rejected? {
        return None;
      }
      BusRuns.AdmittedBytes(h.value.manifest, ManifestSchema());
      ReconstructIsWf(am.value, registry.current);
      var schemas := ReconstructManifest(am.value, registry);
      if schemas.None? {
        return None;
      }
      var ap := GateBytes(h.value.policy, B.PolicySchema());
      if ap.Rejected? {
        return None;
      }
      var s := GateBytes(h.value.snapshot, schemas.value.1);
      if s.Rejected? {
        return None;
      }
      cached := Some((schemas.value.0, schemas.value.1, ap.value, s.value, h.value.snapshot));
    }

    /** mount, past the capability resolution. */
    method MountLink(name: bytes, spawn: SpawnOutcome, grant: seq<SendRule>) returns (ok: bool)
      requires Valid() && AllWf(registry.current)
      modifies this`links, bus, bus.registry, registry
      ensures Valid() && State() == Mount(old(State()), name, spawn, grant)
      ensures ok == (|links| > |old(links)|)
    {
      hide Handshake, B.RegisterShard, Insert;
      var i := 0;
      while i < |links|
        invariant 0 <= i <= |links| && forall j :: 0 <= j < i ==> links[j].name != name
      {
        if links[i].name == name {
          return false;
        }
        i := i + 1;
      }
      if spawn.NoChild? {
        return false;
      }
      var cached := ReconstructAndCache(spawn.hello);
      if cached.None? {
        return false;
      }
      var (accept, state, policy, snapshot, bs) := cached.value;
      var id := bus.RegisterShard(accept, snapshot, grant);
      if id.None? {
        return false;
      }
      var l := Link(name, id.value, state, policy, snapshot, bs, Some(spawn.channel), false, false, false, 1, 1, bs, []);
      SupervisorRuns.InsertIsExact(links, l);
      links := Insert(links, l);
      return true;
    }

    method UnmountLink(name: bytes)
      requires Valid()
      modifies this`links, bus
      ensures Valid() && State() == Unmount(old(State()), name)
    {
      var i := 0;
      while i < |links| && links[i].name != name
        invariant i <= |links| && i <= Place(links, name)
        invariant Place(links, name) == i + Place(links[i..], name)
      {
        i := i + 1;
      }
      if i == |links| {
        return;
      }
      var known := bus.UnregisterShard(links[i].id);
      links := links[..i] + links[i + 1..];
    }
  }

  lemma OnBusCount(h: Host, op: B.Op)
    ensures |OnBus(h, op).links| == |h.links|
  {
    hide B.Apply, ShipAll;
  }

  lemma MetaAreWf()
    ensures WfSchema(ManifestSchema()) && WfSchema(B.PolicySchema())
  {
    hide ContentId, WfSchema;
    MetaSchemasAreBuilt();
    BuiltIsWf(ManifestSchema());
    PolicyIsBuilt();
    BuiltIsWf(B.PolicySchema());
  }

  lemma PolicyIsBuilt()
    ensures Built(B.PolicySchema())
  {
    hide ContentId;
    assert |B.MAX_RELOADS| != |B.REVIVE_FROM_LAST_GOOD|;
  }

  lemma AdmitUnfolds(u: Unverified, m: Schemas)
    ensures AdmitNamed(u, m, false, B.NoFloatText()) ==
            if u.Malformed? then Rejected([Error(MalformedBytes, [])])
            else match Resolve(m, u.name, u.version)
                 case None => Rejected([Error(UnknownSchema, [])])
                 case Some(door) => Admit(u, door, false, B.NoFloatText())
  {
    hide AdmitAgainst;
  }
}
