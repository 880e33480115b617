/** The isolation host's promises, over every run in which only the supervisor drives the
    lifecycle of what it hosts. */
module SupervisorGuarantees {
  import opened Bytes
  import opened Model
  import opened Gate
  import opened Admission
  import opened Registry
  import opened Grant
  import opened Framing
  import opened SchemaCodec
  import opened SchemaTransport
  import opened Supervisor
  import opened SupervisorRuns
  import C = Channel
  import B = Bus
  import BusRuns

  lemma HostOf(ops: seq<HostOp>) returns (h: Host)
    requires IsRun(NEW_HOST, ops)
    ensures h == Run(NEW_HOST, ops) && HostInv(h)
  {
    hide BusRuns.Inv, Run, IsRun;
    BusRuns.NewIsReachable();
    EveryRunKeeps(NEW_HOST, ops);
    h := Run(NEW_HOST, ops);
  }

  /** A crash loop is bounded: with a policy of m reloads a child is spawned at most 1 + max(0, m)
      times, every death follows a spawn that succeeded, and each revival was paid for. */
  lemma CrashLoopIsBounded(ops: seq<HostOp>, i: nat)
    requires IsRun(NEW_HOST, ops) && i < |Run(NEW_HOST, ops).links|
    ensures var h := Run(NEW_HOST, ops); var l := h.links[i];
            && Conforms(l.policy, B.PolicySchema()) && l.id in h.bus.shards
            && l.attempts == 1 + h.bus.shards[l.id].reloadsUsed
            && l.attempts <= 1 + Budget(l)
            && l.spawned <= l.attempts
            && Deaths(h.bus.log, l.id) == l.spawned - (if l.quarantined then 0 else 1)
  {
    hide BusRuns.Inv, Run, IsRun, Revivable, Conforms, Deaths, NeverFellBack, B.PolicySchema;
    var h := HostOf(ops);
    assert LinkInv(h.links[i], ViewOf(h.bus, h.links[i].id));
  }

  /** The host always holds a state it can revive from: its bytes are the canonical bytes of its
      value and re-admit as that value, so no revival ever fell back to the last-known-good. */
  lemma SnapshotIsReady(ops: seq<HostOp>, i: nat)
    requires IsRun(NEW_HOST, ops) && i < |Run(NEW_HOST, ops).links|
    ensures var h := Run(NEW_HOST, ops); var l := h.links[i];
            && Serialize(l.snapshot) == Some(l.snapshotBytes)
            && B.AdmitBytes(l.snapshotBytes, l.stateSchema) == Accepted(l.snapshot)
            && l.id in h.bus.shards && h.bus.shards[l.id].stateSchema == l.stateSchema
            && NeverFellBack(h.bus.log, l.id)
  {
    hide BusRuns.Inv, Run, IsRun, Conforms, Deaths, NeverFellBack, B.PolicySchema, Serialize, B.AdmitBytes;
    var h := HostOf(ops);
    assert LinkInv(h.links[i], ViewOf(h.bus, h.links[i].id));
  }

  // ---- quarantine is for good -----------------------------------------------------------------------

  lemma QuarantinedIsSilent(l: Link, v: View)
    requires LinkInv(l, v) && l.quarantined
    ensures l.channel.None?
  {
    hide Conforms, Revivable;
  }

  lemma {:induction false} ExchangeSkips(h: Host, ws: seq<Weather>, i: nat, k: nat)
    requires HostInv(h) && i <= |h.links| == |ws| && k < |h.links| && h.links[k].channel.None?
    ensures var m := ExchangeAll(h, ws, i);
            |m.links| == |h.links| && m.links[k] == h.links[k] &&
            ViewOf(m.bus, h.links[k].id) == ViewOf(h.bus, h.links[k].id)
    decreases |h.links| - i
  {
    hide BusRuns.Inv, HostInv, LinkInv, ViewOf, HandleFrames;
    if i < |h.links| {
      assert BusRuns.Reachable(h.bus) && LinkInv(h.links[i], ViewOf(h.bus, h.links[i].id)) by { HostHas(h, i); }
      ExchangeKeeps(h.bus, h.links[i], ws[i]);
      var (b, l) := Exchange(h.bus, h.links[i], ws[i]);
      forall id ensures ViewOf(b, id) == ViewOf(h.bus, id) {
        SameView(h.bus, b, id);
      }
      ReplaceKeeps(h, i, b, l);
      ExchangeSkips(h.(bus := b, links := h.links[i := l]), ws, i + 1, k);
    }
  }

  lemma {:induction false} SuperviseSkips(h: Host, ws: seq<Weather>, i: nat, k: nat)
    requires HostInv(h) && i <= |h.links| == |ws| && k < |h.links| && h.links[k].quarantined
    ensures var m := SuperviseAll(h, ws, i);
            |m.links| == |h.links| && m.links[k] == h.links[k] &&
            ViewOf(m.bus, h.links[k].id) == ViewOf(h.bus, h.links[k].id)
    decreases |h.links| - i
  {
    hide BusRuns.Inv, HostInv, LinkInv, ViewOf, Recover, B.Kill;
    if i < |h.links| {
      assert BusRuns.Reachable(h.bus) && LinkInv(h.links[i], ViewOf(h.bus, h.links[i].id)) by { HostHas(h, i); }
      SuperviseKeeps(h.bus, h.links[i], ws[i].spawn);
      var (b, l) := Supervise(h.bus, h.links[i], ws[i].spawn);
      if i != k {
        IdsDiffer(h, i, k);
      }
      ReplaceKeeps(h, i, b, l);
      SuperviseSkips(h.(bus := b, links := h.links[i := l]), ws, i + 1, k);
    }
  }

  lemma IdsDiffer(h: Host, i: nat, k: nat)
    requires HostInv(h) && i < |h.links| && k < |h.links| && i != k
    ensures h.links[i].id != h.links[k].id && h.links[i].name != h.links[k].name
  {
    hide BusRuns.Inv, LinkInv, ViewOf;
  }

  lemma BusSkips(h: Host, op: B.Op, k: nat)
    requires HostInv(h) && HandsOff(h, op) && k < |h.links| && h.links[k].channel.None?
    ensures var m := OnBus(h, op);
            |m.links| == |h.links| && m.links[k] == h.links[k] &&
            ViewOf(m.bus, h.links[k].id) == ViewOf(h.bus, h.links[k].id)
  {
    hide BusRuns.Inv, B.Apply, LinkInv, ViewOf, ShipAll;
    var m, l := OnBus(h, op), h.links[k];
    HostHas(h, k);
    LinkIsKnown(l, h.bus);
    OpShowsNothing(h.bus, op, l.id);
    var es := if |h.bus.handled| <= |m.bus.handled| then m.bus.handled[|h.bus.handled|..] else [];
    ShipsTouchChannel(l, es);
    assert m.links[k] == ShipAll(l, es);
  }

  lemma StepSkips(h: Host, ws: seq<Weather>, script: seq<seq<B.Action>>, k: nat)
    requires HostInv(h) && |ws| == |h.links| && k < |h.links| && h.links[k].quarantined
    ensures var m := StepHost(h, ws, script);
            |m.links| == |h.links| && m.links[k] == h.links[k] &&
            ViewOf(m.bus, h.links[k].id) == ViewOf(h.bus, h.links[k].id)
  {
    hide HostInv, ExchangeAll, SuperviseAll, OnBus, ViewOf, LinkInv;
    HostHas(h, k);
    QuarantinedIsSilent(h.links[k], ViewOf(h.bus, h.links[k].id));
    ExchangeSkips(h, ws, 0, k);
    ExchangeAllKeeps(h, ws, 0);
    var h1 := ExchangeAll(h, ws, 0);
    BusSkips(h1, B.OpPump(script), k);
    OnBusKeeps(h1, B.OpPump(script));
    SuperviseSkips(OnBus(h1, B.OpPump(script)), ws, 0, k);
  }

  lemma InsertKeepsMembers(ls: seq<Link>, l: Link, x: Link)
    requires x in ls
    ensures x in Insert(ls, l)
  {
    hide Insert;
    InsertIsExact(ls, l);
    var i :| 0 <= i <= |ls| && Insert(ls, l) == ls[..i] + [l] + ls[i..];
    assert x in ls[..i] || x in ls[i..];
  }

  lemma MountSkips(h: Host, name: bytes, spawn: SpawnOutcome, grant: seq<SendRule>, l: Link)
    requires HostInv(h) && l in h.links
    ensures l in Mount(h, name, spawn, grant).links
    ensures ViewOf(Mount(h, name, spawn, grant).bus, l.id) == ViewOf(h.bus, l.id)
  {
    hide BusRuns.Inv, B.RegisterShard, Handshake, LinkInv, ViewOf, Insert;
    var k :| 0 <= k < |h.links| && h.links[k] == l;
    LinkIsKnown(l, h.bus);
    if !Mounted(h, name) && spawn.Child? {
      var cached := Handshake(spawn.hello, h.registry).1;
      if cached.Some? {
        var (accept, state, policy, snapshot, bs) := cached.value;
        OpShowsNothing(h.bus, B.OpRegister(accept, snapshot, grant), l.id);
        var id := B.RegisterShard(h.bus, accept, snapshot, grant).1;
        if id.Some? {
          InsertKeepsMembers(h.links, Link(name, id.value, state, policy, snapshot, bs, Some(spawn.channel), false, false, false, 1, 1, bs, []), l);
        }
      }
    }
  }

  lemma UnmountSkips(h: Host, name: bytes, l: Link)
    requires HostInv(h) && l in h.links && l.name != name
    ensures l in Unmount(h, name).links
    ensures ViewOf(Unmount(h, name).bus, l.id) == ViewOf(h.bus, l.id)
  {
    hide BusRuns.Inv, B.UnregisterShard, LinkInv, ViewOf;
    var i := Place(h.links, name);
    if i < |h.links| {
      var k :| 0 <= k < |h.links| && h.links[k] == l;
      LinkIsKnown(l, h.bus);
      IdsDiffer(h, i, k);
      OpShowsNothing(h.bus, B.OpUnregister(h.links[i].id), l.id);
      assert l in h.links[..i] || l in h.links[i + 1..] by {
        assert if k < i then h.links[..i][k] == l else h.links[i + 1..][k - i - 1] == l;
      }
    }
  }

  lemma QuarantineStays(h: Host, op: HostOp, l: Link)
    requires HostInv(h) && Enabled(h, op) && l in h.links && l.quarantined && op != DoUnmount(l.name)
    ensures l in Apply(h, op).links && ViewOf(Apply(h, op).bus, l.id) == ViewOf(h.bus, l.id)
  {
    hide HostInv, ViewOf, LinkInv, Mount, Unmount, StepHost, OnBus;
    var k :| 0 <= k < |h.links| && h.links[k] == l;
    HostHas(h, k);
    QuarantinedIsSilent(l, ViewOf(h.bus, l.id));
    match op
    case DoMount(name, spawn, grant) => MountSkips(h, name, spawn, grant, l);
    case DoUnmount(name) => UnmountSkips(h, name, l);
    case DoStep(ws, script) =>
      StepSkips(h, ws, script, k);
      assert StepHost(h, ws, script).links[k] == l;
    case DoBus(op) =>
      BusSkips(h, op, k);
      assert OnBus(h, op).links[k] == l;
  }

  /** Quarantine is absorbing: until it is unmounted a quarantined link never changes again, and
      neither does its shard's record or its count of deaths. */
  lemma {:induction false} QuarantineIsAbsorbing(h: Host, ops: seq<HostOp>, l: Link)
    requires HostInv(h) && IsRun(h, ops) && l in h.links && l.quarantined
    requires forall i :: 0 <= i < |ops| ==> ops[i] != DoUnmount(l.name)
    ensures l in Run(h, ops).links && ViewOf(Run(h, ops).bus, l.id) == ViewOf(h.bus, l.id)
    decreases |ops|
  {
    hide HostInv, ViewOf, Apply;
    if ops != [] {
      QuarantineStays(h, ops[0], l);
      ApplyKeeps(h, ops[0]);
      assert forall i :: 0 <= i < |ops| - 1 ==> ops[1..][i] == ops[i + 1];
      QuarantineIsAbsorbing(Apply(h, ops[0]), ops[1..], l);
    }
  }

  // ---- what a child can put on the bus ------------------------------------------------------------------

  /** A child's output reaches the bus only as a value of a published schema, canonically encoded,
      gated and stamped with the id of the connection it came in on; anything else is dropped. */
  lemma ChildOutputIsGated(b: B.Bus, id: B.ShardId, payload: bytes)
    requires BusRuns.Reachable(b)
    ensures var c := HandleEmit(b, id, payload);
            || c == b
            || exists e: Emitted, v: Value ::
                 && payload == EmitPayload(e) && Serialize(v) == Some(e.value)
                 && KeyOf(v.schema) in b.registry && b.registry[KeyOf(v.schema)] == v.schema && Conforms(v, v.schema)
                 && c == if e.kind == 1 then B.PublishAs(b, id, B.Message(v, 0, e.replyTo, e.correlation), B.Host(id))
                         else B.SendAs(b, id, e.target, B.Message(v, 0, e.replyTo, e.correlation), B.Host(id))
  {
    hide BusRuns.Inv, AdmitNamed, ReadEmitted, Parse, Serialize, Conforms, EmitPayload, B.PublishAs, B.SendAs,
         PublishAll;
    match ReadEmitted(payload)
    case None =>
    case Some(e) =>
      EmittedIsExact(payload, e);
      var a := AdmitNamed(Parse(e.value), b.registry, false, B.NoFloatText());
      if a.Accepted? {
        assert Keyed(b.registry) by { BusRuns.RegistryIsKeyed(b); }
        NamedAdmission(e.value, b.registry, [], false, B.NoFloatText());
      }
  }
}
