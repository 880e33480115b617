/** What supervision guarantees: a crash loop is bounded by the shard's own policy and ends in
    quarantine, and the host always holds a state it can revive from. */
module SupervisorRuns {
  import opened Bytes
  import opened Model
  import opened Gate
  import opened Admission
  import opened Registry
  import opened Grant
  import opened Framing
  import opened SchemaCodec
  import opened SchemaTransport
  import opened Supervisor
  import C = Channel
  import B = Bus
  import BusRuns
  import BusGuarantees
  import AdmissionRun
  import ByteIdentity

  // ---- what the bus shows of one shard ----------------------------------------------------------

  /** Died events about id. */
  function Deaths(log: seq<B.Event>, id: B.ShardId): nat {
    if log == [] then 0
    else Deaths(log[..|log| - 1], id) + (if log[|log| - 1].Died? && log[|log| - 1].target == id then 1 else 0)
  }

  predicate FellBack(e: B.Event, id: B.ShardId) {
    e.target == id && (e.RevivalRefused? || (e.Revived? && e.fromLastKnownGood))
  }

  /** No revival of id was ever refused, or fell back to the last-known-good. */
  predicate NeverFellBack(log: seq<B.Event>, id: B.ShardId) { forall k :: 0 <= k < |log| ==> !FellBack(log[k], id) }

  datatype View = View(record: Option<B.Record>, deaths: nat, steady: bool)

  function ViewOf(b: B.Bus, id: B.ShardId): View {
    View(if id in b.shards then Some(b.shards[id]) else None, Deaths(b.log, id), NeverFellBack(b.log, id))
  }

  lemma DeathsAppend(log: seq<B.Event>, e: B.Event, id: B.ShardId)
    ensures Deaths(log + [e], id) == Deaths(log, id) + (if e.Died? && e.target == id then 1 else 0)
    ensures NeverFellBack(log + [e], id) <==> NeverFellBack(log, id) && !FellBack(e, id)
  {
    assert (log + [e])[..|log|] == log;
    if NeverFellBack(log + [e], id) {
      assert !FellBack((log + [e])[|log|], id);
      forall k | 0 <= k < |log| ensures !FellBack(log[k], id) {
        assert (log + [e])[k] == log[k];
      }
    }
  }

  // ---- the invariant ---------------------------------------------------------------------------------

  function Budget(l: Link): int
    requires Conforms(l.policy, B.PolicySchema())
  {
    var m := B.PolicyOf(l.policy).maxReloads;
    if m < 0 then 0 else m
  }

  /** The host's own copy of the state: canonical bytes that re-admit as the value. */
  predicate Revivable(l: Link) {
    Serialize(l.snapshot) == Some(l.snapshotBytes) && B.AdmitBytes(l.snapshotBytes, l.stateSchema) == Accepted(l.snapshot)
  }

  predicate Counted(l: Link, v: View) {
    && v.record.Some? && v.record.value.stateSchema == l.stateSchema
    && Conforms(l.policy, B.PolicySchema())
    && l.attempts == 1 + v.record.value.reloadsUsed && v.record.value.reloadsUsed <= Budget(l)
    && l.spawned == v.deaths + (if l.quarantined then 0 else 1) && l.spawned <= l.attempts
    && v.steady
    && (if l.quarantined then l.dead && l.channel.None? else !l.dead && !l.deathSignaled && l.channel.Some?)
  }

  predicate LinkInv(l: Link, v: View) { Revivable(l) && Counted(l, v) }

  ghost predicate HostInv(h: Host) {
    && BusRuns.Reachable(h.bus)
    && (forall i, j :: 0 <= i < j < |h.links| ==> h.links[i].id != h.links[j].id && h.links[i].name != h.links[j].name)
    && forall i :: 0 <= i < |h.links| ==> LinkInv(h.links[i], ViewOf(h.bus, h.links[i].id))
  }

  /** m is l with another channel state behind the same presence. */
  predicate SameButChannel(l: Link, m: Link) { m == l.(channel := m.channel) && (m.channel.Some? <==> l.channel.Some?) }

  lemma ChannelIsFree(l: Link, m: Link, v: View)
    requires SameButChannel(l, m) && LinkInv(l, v)
    ensures LinkInv(m, v)
  {
    hide Conforms, B.AdmitBytes, Serialize, B.PolicySchema;
    assert Budget(m) == Budget(l);
  }

  // ---- exchanging frames keeps it ------------------------------------------------------------------------

  lemma HandleFrameKeeps(b: B.Bus, l: Link, f: Frame)
    requires BusRuns.Reachable(b) && LinkInv(l, ViewOf(b, l.id))
    ensures var (c, m) := HandleFrame(b, l, f);
            && BusRuns.Reachable(c) && c.shards == b.shards && c.log == b.log
            && m.id == l.id && m.name == l.name && LinkInv(m, ViewOf(c, l.id))
  {
    hide BusRuns.Inv, B.AdmitBytes, Serialize, Conforms, B.PolicySchema, HandleEmit, ViewOf;
    if f.op == OP_EMIT {
      EmitIsQuiet(b, l.id, f.payload);
      assert ViewOf(HandleEmit(b, l.id, f.payload), l.id) == ViewOf(b, l.id) by { SameView(b, HandleEmit(b, l.id, f.payload), l.id); }
    } else if f.op == OP_SNAPSHOT {
      var a := B.AdmitBytes(f.payload, l.stateSchema);
      if a.Accepted? {
        CanonicalBytes(f.payload, l.stateSchema);
        assert Budget(l.(snapshot := a.value, snapshotBytes := f.payload)) == Budget(l);
      }
    }
  }

  lemma SameView(b: B.Bus, c: B.Bus, id: B.ShardId)
    requires c.shards == b.shards && c.log == b.log
    ensures ViewOf(c, id) == ViewOf(b, id)
  {
  }

  lemma CanonicalBytes(bs: bytes, door: Schema)
    ensures var a := B.AdmitBytes(bs, door); a.Accepted? ==> Serialize(a.value) == Some(bs)
  {
    hide Admit, Parse, Serialize;
    if B.AdmitBytes(bs, door).Accepted? {
      ByteIdentity.CanonicalAcceptance(bs, door, false, B.NoFloatText());
    }
  }

  /** A child's output never touches a record or the lifecycle log; it only queues, gated and in
      the name of the shard its connection belongs to. */
  lemma EmitIsQuiet(b: B.Bus, id: B.ShardId, payload: bytes)
    requires BusRuns.Reachable(b)
    ensures var c := HandleEmit(b, id, payload); BusRuns.Reachable(c) && c.shards == b.shards && c.log == b.log
  {
    hide BusRuns.Inv, AdmitNamed, ReadEmitted, Parse, B.EnqueueAll, B.Recipients, B.Enqueue;
    match ReadEmitted(payload)
    case None =>
    case Some(e) =>
      var a := AdmitNamed(Parse(e.value), b.registry, false, B.NoFloatText());
      if a.Accepted? {
        var msg := B.Message(a.value, 0, e.replyTo, e.correlation);
        BusRuns.ApplyKeeps(b, B.OpPublishAs(id, msg));
        BusRuns.ApplyKeeps(b, B.OpSendAs(id, e.target, msg));
        QueueIsQuiet(b, msg.(sender := id), B.Recipients(b, B.ShapeOf(msg.payload), 1), true, B.Host(id));
        QueueIsQuiet(b, msg.(sender := id), [e.target], true, B.Host(id));
        OneTarget(b, msg.(sender := id), e.target, true, B.Host(id));
      }
  }

  lemma {:induction false} QueueIsQuiet(b: B.Bus, msg: B.Message, targets: seq<B.ShardId>, gated: bool, who: B.Origin)
    ensures var c := B.EnqueueAll(b, msg, targets, gated, who); c.shards == b.shards && c.log == b.log
    decreases |targets|
  {
    if targets != [] {
      QueueIsQuiet(B.Enqueue(b, msg, targets[0], gated, who), msg, targets[1..], gated, who);
    }
  }

  lemma OneTarget(b: B.Bus, msg: B.Message, target: B.ShardId, gated: bool, who: B.Origin)
    ensures B.EnqueueAll(b, msg, [target], gated, who) == B.Enqueue(b, msg, target, gated, who)
  {
    hide B.Enqueue;
    assert [target][1..] == [];
  }

  lemma {:induction false} HandleFramesKeep(b: B.Bus, l: Link, fs: seq<Frame>)
    requires BusRuns.Reachable(b) && LinkInv(l, ViewOf(b, l.id))
    ensures var (c, m) := HandleFrames(b, l, fs);
            && BusRuns.Reachable(c) && c.shards == b.shards && c.log == b.log
            && m.id == l.id && m.name == l.name && LinkInv(m, ViewOf(c, l.id))
    decreases |fs|
  {
    hide BusRuns.Inv, HandleFrame, LinkInv, ViewOf;
    if fs != [] {
      HandleFrameKeeps(b, l, fs[0]);
      var (c, m) := HandleFrame(b, l, fs[0]);
      HandleFramesKeep(c, m, fs[1..]);
    }
  }

  lemma ExchangeKeeps(b: B.Bus, l: Link, w: Weather)
    requires BusRuns.Reachable(b) && LinkInv(l, ViewOf(b, l.id))
    ensures var (c, m) := Exchange(b, l, w);
            && BusRuns.Reachable(c) && c.shards == b.shards && c.log == b.log
            && m.id == l.id && m.name == l.name && LinkInv(m, ViewOf(c, l.id))
  {
    hide BusRuns.Inv, HandleFrames, LinkInv, ViewOf, C.Flush, C.Poll;
    if l.channel.Some? {
      var flushed := C.Flush(l.channel.value, w.sends);
      C.FlushIsExact(l.channel.value, w.sends);
      var (c, frames) := C.Poll(flushed, w.recvs);
      C.PollIsExact(flushed, w.recvs);
      ChannelIsFree(l, l.(channel := Some(c)), ViewOf(b, l.id));
      HandleFramesKeep(b, l.(channel := Some(c)), frames);
      var (b1, m) := HandleFrames(b, l.(channel := Some(c)), frames);
      HistoryIsFree(m, m.(heard := l.heard + frames), ViewOf(b1, l.id));
    }
  }

  /** What was heard is history. */
  lemma HistoryIsFree(l: Link, m: Link, v: View)
    requires m == l.(heard := m.heard) && LinkInv(l, v)
    ensures LinkInv(m, v)
  {
    hide Conforms, B.AdmitBytes, Serialize, B.PolicySchema;
    assert Budget(m) == Budget(l);
  }

  /** Replacing one link, and the bus with one that shows every other link the same. */
  lemma ReplaceKeeps(h: Host, i: nat, b: B.Bus, l: Link)
    requires HostInv(h) && i < |h.links| && BusRuns.Reachable(b)
    requires l.id == h.links[i].id && l.name == h.links[i].name && LinkInv(l, ViewOf(b, l.id))
    requires forall id :: id != l.id ==> ViewOf(b, id) == ViewOf(h.bus, id)
    ensures HostInv(h.(bus := b, links := h.links[i := l]))
  {
    hide BusRuns.Inv, LinkInv, ViewOf;
    var m := h.(bus := b, links := h.links[i := l]);
    forall j | 0 <= j < |m.links| ensures LinkInv(m.links[j], ViewOf(b, m.links[j].id)) {
      if j != i {
        assert LinkInv(h.links[j], ViewOf(h.bus, h.links[j].id));
        assert h.links[j].id != h.links[i].id;
      }
    }
  }

  lemma {:induction false} ExchangeAllKeeps(h: Host, ws: seq<Weather>, i: nat)
    requires HostInv(h) && i <= |h.links| == |ws|
    ensures HostInv(ExchangeAll(h, ws, i)) && |ExchangeAll(h, ws, i).links| == |h.links|
    decreases |h.links| - i
  {
    hide BusRuns.Inv, HostInv, LinkInv, Exchange, ViewOf;
    if i < |h.links| {
      assert BusRuns.Reachable(h.bus) && LinkInv(h.links[i], ViewOf(h.bus, h.links[i].id)) by { HostHas(h, i); }
      ExchangeKeeps(h.bus, h.links[i], ws[i]);
      var (b, l) := Exchange(h.bus, h.links[i], ws[i]);
      forall id ensures ViewOf(b, id) == ViewOf(h.bus, id) {
        SameView(h.bus, b, id);
      }
      ReplaceKeeps(h, i, b, l);
      ExchangeAllKeeps(h.(bus := b, links := h.links[i := l]), ws, i + 1);
    }
  }

  lemma HostHas(h: Host, i: nat)
    requires HostInv(h) && i < |h.links|
    ensures BusRuns.Reachable(h.bus) && LinkInv(h.links[i], ViewOf(h.bus, h.links[i].id))
  {
    hide BusRuns.Inv, LinkInv, ViewOf;
  }

  // ---- traffic on the bus keeps it ----------------------------------------------------------------------

  lemma {:induction false} ActAllKeepsLog(b: B.Bus, self: B.ShardId, acts: seq<B.Action>)
    ensures B.ActAll(b, self, acts).log == b.log
    decreases |acts|
  {
    hide B.EnqueueAll, B.Recipients;
    if acts != [] {
      if acts[0].PublishIt? {
        QueueIsQuiet(b, acts[0].msg.(sender := self), B.Recipients(b, B.ShapeOf(acts[0].msg.payload), 1), true, B.Handler(self));
      }
      ActAllKeepsLog(B.Act(b, self, acts[0]), self, acts[1..]);
    }
  }

  lemma DeliverShowsNothing(b: B.Bus, env: B.Envelope, acts: seq<B.Action>, id: B.ShardId)
    ensures ViewOf(B.Deliver(b, env, acts), id) == ViewOf(b, id)
  {
    hide B.Deliver, NeverFellBack, Deaths;
    DeliverTells(b, env, acts);
    var c := B.Deliver(b, env, acts);
    DeathsAppend(b.log, c.log[|b.log|], id);
  }

  /** A delivery adds its own announcement to the log and touches no record. */
  lemma DeliverTells(b: B.Bus, env: B.Envelope, acts: seq<B.Action>)
    ensures var c := B.Deliver(b, env, acts);
            && c.shards == b.shards && |c.log| == |b.log| + 1 && c.log == b.log + [c.log[|b.log|]] && c.log[|b.log|].Decided?
  {
    hide B.Judge, B.ActAll;
    var c := b.(handled := b.handled + [env]);
    ActAllKeepsLog(c, env.target, acts);
    BusGuarantees.ActAllKeepsShards(c, env.target, acts);
  }

  lemma {:induction false} DispatchShowsNothing(b: B.Bus, script: seq<seq<B.Action>>, id: B.ShardId)
    ensures ViewOf(B.Dispatch(b, script), id) == ViewOf(b, id)
    decreases |script|
  {
    hide B.Deliver, Deaths, NeverFellBack;
    if !(b.queue == [] || b.stopRequested) && script != [] {
      var c := b.(queue := b.queue[1..]);
      DeliverShowsNothing(c, b.queue[0], script[0], id);
      DispatchShowsNothing(B.Deliver(c, b.queue[0], script[0]), script[1..], id);
    }
  }

  /** An operation that is not a lifecycle operation on id shows nothing about id. */
  lemma OpShowsNothing(b: B.Bus, op: B.Op, id: B.ShardId)
    requires BusRuns.Reachable(b) && id in b.shards
    requires (op.OpKill? || op.OpReload? || op.OpSwap? || op.OpUnregister?) ==> op.id != id
    ensures ViewOf(B.Apply(b, op), id) == ViewOf(b, id)
  {
    hide BusRuns.Inv, B.Dispatch, B.EnqueueAll, B.Recipients, B.RegisterShard, B.Kill, B.Reload, B.SwapState,
         Deaths, NeverFellBack;
    assert id < b.nextShard by { BusRuns.KnownIsOld(b, id); }
    match op
    case OpRegister(accept, v, grant) => RegisterShowsNothing(b, accept, v, grant, id);
    case OpPump(script) => DispatchShowsNothing(b.(inDispatch := true, stopRequested := false), script, id);
    case OpResume(script) => DispatchShowsNothing(b, script, id);
    case OpPublish(msg) => QueueIsQuiet(b, msg, B.Recipients(b, B.ShapeOf(msg.payload), 1), false, B.Root);
    case OpPublishAs(i, msg) => QueueIsQuiet(b, msg.(sender := i), B.Recipients(b, B.ShapeOf(msg.payload), 1), true, B.Host(i));
    case OpKill(i) => KillShows(b, i, id);
    case OpReload(i, policy, candidate) => ReloadShowsNothing(b, i, policy, candidate, id);
    case OpSwap(i, candidate) => SwapShowsNothing(b, i, candidate, id);
    case _ =>
  }

  lemma RegisterShowsNothing(b: B.Bus, accept: seq<Schema>, v: Value, grant: seq<SendRule>, id: B.ShardId)
    requires id != b.nextShard
    ensures ViewOf(B.RegisterShard(b, accept, v, grant).0, id) == ViewOf(b, id)
  {
    hide B.RegisterEach, AdmitLive, Deaths, NeverFellBack;
  }

  lemma KillShows(b: B.Bus, i: B.ShardId, id: B.ShardId)
    ensures i != id ==> ViewOf(B.Kill(b, i), id) == ViewOf(b, id)
    ensures i == id && id in b.shards ==>
              ViewOf(B.Kill(b, i), id) == View(Some(b.shards[id].(alive := false)), Deaths(b.log, id) + 1, NeverFellBack(b.log, id))
  {
    hide Deaths, NeverFellBack;
    if i in b.shards {
      DeathsAppend(b.log, B.Died(i, B.StateShape(b.shards[i])), id);
    }
  }

  lemma ReloadShowsNothing(b: B.Bus, i: B.ShardId, policy: Value, candidate: bytes, id: B.ShardId)
    requires i != id
    ensures ViewOf(B.Reload(b, i, policy, candidate).0, id) == ViewOf(b, id)
  {
    hide AdmitLive, B.AdmitBytes, B.PolicySchema, B.PolicyOf, Conforms, ViewOf, B.Restore, B.Emit;
    if i in b.shards {
      EventsOfAnother(b, i, id);
    }
  }

  lemma SwapShowsNothing(b: B.Bus, i: B.ShardId, candidate: bytes, id: B.ShardId)
    requires i != id
    ensures ViewOf(B.SwapState(b, i, candidate).0, id) == ViewOf(b, id)
  {
    hide B.AdmitBytes, ViewOf, B.Restore, B.Emit;
    if i in b.shards {
      EventsOfAnother(b, i, id);
    }
  }

  lemma EventsOfAnother(b: B.Bus, i: B.ShardId, id: B.ShardId)
    requires i != id && i in b.shards
    ensures forall e: B.Event | e.target == i :: ViewOf(B.Emit(b, e), id) == ViewOf(b, id)
    ensures forall state, spend, e: B.Event | e.target == i :: ViewOf(B.Emit(B.Restore(b, i, state, spend), e), id) == ViewOf(b, id)
  {
    hide Deaths, NeverFellBack;
    forall e: B.Event | e.target == i ensures ViewOf(B.Emit(b, e), id) == ViewOf(b, id) {
      DeathsAppend(b.log, e, id);
    }
    forall state, spend, e: B.Event | e.target == i
      ensures ViewOf(B.Emit(B.Restore(b, i, state, spend), e), id) == ViewOf(b, id)
    {
      DeathsAppend(b.log, e, id);
    }
  }

  lemma ShipTouchesChannel(l: Link, e: B.Envelope)
    ensures SameButChannel(l, Ship(l, e))
    ensures l.channel.None? ==> Ship(l, e) == l
  {
    hide Serialize, C.Queue;
  }

  lemma {:induction false} ShipsTouchChannel(l: Link, es: seq<B.Envelope>)
    ensures SameButChannel(l, ShipAll(l, es))
    ensures l.channel.None? ==> ShipAll(l, es) == l
    decreases |es|
  {
    hide Ship;
    if es != [] {
      ShipTouchesChannel(l, es[0]);
      ShipsTouchChannel(if es[0].target == l.id then Ship(l, es[0]) else l, es[1..]);
    }
  }

  lemma OnBusKeeps(h: Host, op: B.Op)
    requires HostInv(h) && HandsOff(h, op)
    ensures HostInv(OnBus(h, op)) && |OnBus(h, op).links| == |h.links|
  {
    hide BusRuns.Inv, B.Apply, LinkInv, ViewOf, ShipAll;
    var m := OnBus(h, op);
    BusRuns.ApplyKeeps(h.bus, op);
    var es := if |h.bus.handled| <= |m.bus.handled| then m.bus.handled[|h.bus.handled|..] else [];
    forall i | 0 <= i < |h.links|
      ensures m.links[i].id == h.links[i].id && m.links[i].name == h.links[i].name
      ensures LinkInv(m.links[i], ViewOf(m.bus, m.links[i].id))
    {
      var l := h.links[i];
      assert m.links[i] == ShipAll(l, es);
      ShipsTouchChannel(l, es);
      LinkIsKnown(l, h.bus);
      OpShowsNothing(h.bus, op, l.id);
      ChannelIsFree(l, m.links[i], ViewOf(h.bus, l.id));
    }
  }

  lemma LinkIsKnown(l: Link, b: B.Bus)
    requires LinkInv(l, ViewOf(b, l.id))
    ensures l.id in b.shards
  {
    hide Conforms, Revivable, Deaths;
  }

  // ---- supervision keeps it --------------------------------------------------------------------------------

  /** Reloading a supervised shard from the host's copy never falls back and is never refused: it
      revives with that copy, spending one, or finds the budget spent. */
  lemma ReloadFromHost(b: B.Bus, l: Link)
    requires Revivable(l) && Conforms(l.policy, B.PolicySchema())
    requires l.id in b.shards && b.shards[l.id].stateSchema == l.stateSchema
    ensures var (c, out) := B.Reload(b, l.id, l.policy, l.snapshotBytes); var r := b.shards[l.id];
            if r.reloadsUsed < B.PolicyOf(l.policy).maxReloads then
              && out == B.RevivedFresh
              && c.shards == b.shards[l.id := r.(lastKnownGood := l.snapshot, reloadsUsed := r.reloadsUsed + 1, alive := true)]
              && c.log == b.log + [B.Revived(l.id, B.StateShape(r), false, None)]
            else out == B.Exhausted && c == b
  {
    hide AdmitLive, B.AdmitBytes, B.PolicySchema, Conforms, Serialize, B.PolicyOf;
    AdmissionRun.LiveAdmits(l.policy, B.PolicySchema(), false);
  }

  /** What one round of supervision does to a live link, in full: nothing while its channel lives;
      otherwise it dies once, and then either spends one revival or is quarantined. */
  lemma SuperviseDecides(b: B.Bus, l: Link, spawn: SpawnOutcome)
    requires LinkInv(l, ViewOf(b, l.id)) && !l.quarantined
    ensures var (c, m) := Supervise(b, l, spawn); var r := b.shards[l.id];
            && l.id in b.shards && l.id in c.shards
            && (!Done(l.channel.value) ==> c == b && m == l)
            && (Done(l.channel.value) ==>
                  && Deaths(c.log, l.id) == Deaths(b.log, l.id) + 1
                  && (m.quarantined <==> spawn.NoChild? || r.reloadsUsed >= B.PolicyOf(l.policy).maxReloads)
                  && c.shards[l.id].reloadsUsed == r.reloadsUsed + (if r.reloadsUsed < B.PolicyOf(l.policy).maxReloads then 1 else 0)
                  && (c.shards[l.id].alive <==> r.reloadsUsed < B.PolicyOf(l.policy).maxReloads))
  {
    hide Conforms, B.PolicySchema, B.AdmitBytes, Serialize, B.Kill, B.Reload, NeverFellBack, Deaths, B.PolicyOf,
         C.Queue;
    if Done(l.channel.value) {
      var b1, l1 := B.Kill(b, l.id), l.(dead := true, deathSignaled := true);
      KillShows(b, l.id, l.id);
      KilledRecord(b, l.id);
      ReloadFromHost(b1, l1);
      var c := B.Reload(b1, l.id, l.policy, l.snapshotBytes).0;
      DeathsAppend(b1.log, B.Revived(l.id, B.StateShape(b1.shards[l.id]), false, None), l.id);
      RespawnShape(l1.(channel := None), spawn, l.snapshot);
    }
  }

  lemma SupervisedIsSame(b: B.Bus, l: Link, spawn: SpawnOutcome)
    ensures Supervise(b, l, spawn).1.id == l.id && Supervise(b, l, spawn).1.name == l.name
  {
    hide B.Kill, B.Reload, Respawn;
    forall m: Link, state ensures Respawn(m, spawn, state).id == m.id && Respawn(m, spawn, state).name == m.name {
      RespawnShape(m, spawn, state);
    }
  }

  lemma KilledRecord(b: B.Bus, id: B.ShardId)
    requires id in b.shards
    ensures B.Kill(b, id).shards == b.shards[id := b.shards[id].(alive := false)]
  {
  }

  lemma RespawnShape(l: Link, spawn: SpawnOutcome, state: Value)
    ensures var m := Respawn(l, spawn, state);
            && m == l.(attempts := l.attempts + 1, spawned := m.spawned, channel := m.channel)
            && m.spawned == l.spawned + (if spawn.Child? then 1 else 0)
            && (m.channel.Some? <==> spawn.Child?)
  {
    hide Serialize, C.Queue;
  }

  lemma SuperviseKeeps(b: B.Bus, l: Link, spawn: SpawnOutcome)
    requires BusRuns.Reachable(b) && LinkInv(l, ViewOf(b, l.id))
    ensures var (c, m) := Supervise(b, l, spawn);
            && BusRuns.Reachable(c) && m.id == l.id && m.name == l.name && LinkInv(m, ViewOf(c, l.id))
            && forall id :: id != l.id ==> ViewOf(c, id) == ViewOf(b, id)
  {
    hide BusRuns.Inv, Conforms, B.PolicySchema, B.AdmitBytes, Serialize, B.Kill, B.Reload, NeverFellBack, Deaths, B.PolicyOf,
         Respawn, ViewOf, Revivable, Counted;
    if !l.quarantined {
      LiveLink(l, ViewOf(b, l.id));
      if Done(l.channel.value) {
        var b1, l1 := B.Kill(b, l.id), l.(dead := true, deathSignaled := true);
        var c := B.Reload(b1, l.id, l.policy, l.snapshotBytes).0;
        BusRuns.ApplyKeeps(b, B.OpKill(l.id));
        BusRuns.ApplyKeeps(b1, B.OpReload(l.id, l.policy, l.snapshotBytes));
        forall id | id != l.id ensures ViewOf(c, id) == ViewOf(b, id) {
          KillShows(b, l.id, id);
          ReloadShowsNothing(b1, l.id, l.policy, l.snapshotBytes, id);
        }
        RecoveredKeeps(b, l, spawn);
      }
    }
  }

  lemma LiveLink(l: Link, v: View)
    requires LinkInv(l, v) && !l.quarantined
    ensures !l.dead && !l.deathSignaled && l.channel.Some?
  {
    hide Conforms, Revivable;
  }

  lemma RecoveredKeeps(b: B.Bus, l: Link, spawn: SpawnOutcome)
    requires LinkInv(l, ViewOf(b, l.id)) && !l.quarantined && Done(l.channel.value)
    ensures var (c, m) := Supervise(b, l, spawn);
            m.id == l.id && m.name == l.name && LinkInv(m, ViewOf(c, l.id))
  {
    hide Conforms, B.PolicySchema, B.AdmitBytes, Serialize, B.Kill, B.Reload, NeverFellBack, Deaths, B.PolicyOf,
         Respawn;
    var b1, l1 := B.Kill(b, l.id), l.(dead := true, deathSignaled := true);
    KillShows(b, l.id, l.id);
    KilledRecord(b, l.id);
    ReloadFromHost(b1, l1);
    var (c, out) := B.Reload(b1, l.id, l.policy, l.snapshotBytes);
    DeathsAppend(b1.log, B.Revived(l.id, B.StateShape(b1.shards[l.id]), false, None), l.id);
    RespawnShape(l1.(channel := None), spawn, l.snapshot);
    var m := Supervise(b, l, spawn).1;
    assert m.policy == l.policy && Budget(m) == Budget(l);
  }

  lemma {:induction false} SuperviseAllKeeps(h: Host, ws: seq<Weather>, i: nat)
    requires HostInv(h) && i <= |h.links| == |ws|
    ensures HostInv(SuperviseAll(h, ws, i))
    decreases |h.links| - i
  {
    hide BusRuns.Inv, HostInv, LinkInv, Supervise, ViewOf;
    if i < |h.links| {
      assert BusRuns.Reachable(h.bus) && LinkInv(h.links[i], ViewOf(h.bus, h.links[i].id)) by { HostHas(h, i); }
      SuperviseKeeps(h.bus, h.links[i], ws[i].spawn);
      var (b, l) := Supervise(h.bus, h.links[i], ws[i].spawn);
      ReplaceKeeps(h, i, b, l);
      SuperviseAllKeeps(h.(bus := b, links := h.links[i := l]), ws, i + 1);
    }
  }

  lemma StepKeeps(h: Host, ws: seq<Weather>, script: seq<seq<B.Action>>)
    requires HostInv(h) && |ws| == |h.links|
    ensures HostInv(StepHost(h, ws, script))
  {
    hide HostInv, ExchangeAll, SuperviseAll, OnBus;
    ExchangeAllKeeps(h, ws, 0);
    var h1 := ExchangeAll(h, ws, 0);
    OnBusKeeps(h1, B.OpPump(script));
    SuperviseAllKeeps(OnBus(h1, B.OpPump(script)), ws, 0);
  }

  // ---- mounting and unmounting keep it --------------------------------------------------------------------------

  lemma {:induction false} InsertIsExact(ls: seq<Link>, l: Link)
    ensures |Insert(ls, l)| == |ls| + 1
    ensures exists i :: 0 <= i <= |ls| && Insert(ls, l) == ls[..i] + [l] + ls[i..]
  {
    if ls == [] || Less(l.name, ls[0].name) {
      assert Insert(ls, l) == ls[..0] + [l] + ls[0..];
    } else {
      InsertIsExact(ls[1..], l);
      var i :| 0 <= i <= |ls| - 1 && Insert(ls[1..], l) == ls[1..][..i] + [l] + ls[1..][i..];
      assert ls[..i + 1] == [ls[0]] + ls[1..][..i] && ls[i + 1..] == ls[1..][i..];
      assert Insert(ls, l) == ls[..i + 1] + [l] + ls[i + 1..];
    }
  }

  lemma InsertKeeps(h: Host, b: B.Bus, l: Link, m: Schemas)
    requires HostInv(h) && BusRuns.Reachable(b) && !Mounted(h, l.name) && LinkInv(l, ViewOf(b, l.id))
    requires forall i :: 0 <= i < |h.links| ==> h.links[i].id != l.id && ViewOf(b, h.links[i].id) == ViewOf(h.bus, h.links[i].id)
    ensures HostInv(h.(bus := b, links := Insert(h.links, l), registry := m))
  {
    hide BusRuns.Inv, LinkInv, ViewOf, Insert;
    InsertIsExact(h.links, l);
    var i :| 0 <= i <= |h.links| && Insert(h.links, l) == h.links[..i] + [l] + h.links[i..];
    var ls := Insert(h.links, l);
    assert |ls| == |h.links| + 1;
    forall j | 0 <= j < |ls| ensures ls[j] == Shifted(h.links, l, i, j) && LinkInv(ls[j], ViewOf(b, ls[j].id)) {
      if j != i {
        var k := if j < i then j else j - 1;
        assert ls[j] == h.links[k] && LinkInv(h.links[k], ViewOf(h.bus, h.links[k].id));
      }
    }
    forall j, k | 0 <= j < k < |ls| ensures ls[j].id != ls[k].id && ls[j].name != ls[k].name {
      assert ls[j] == Shifted(h.links, l, i, j) && ls[k] == Shifted(h.links, l, i, k);
    }
  }

  function Shifted(ls: seq<Link>, l: Link, i: nat, j: nat): Link
    requires i <= |ls| && j <= |ls|
  {
    if j < i then ls[j] else if j == i then l else ls[j - 1]
  }

  /** A mounted link starts out live, counted, and revivable. */
  lemma MountKeeps(h: Host, name: bytes, spawn: SpawnOutcome, grant: seq<SendRule>)
    requires HostInv(h)
    ensures HostInv(Mount(h, name, spawn, grant))
  {
    hide BusRuns.Inv, B.RegisterShard, Handshake, LinkInv, ViewOf, Insert;
    if !Mounted(h, name) && spawn.Child? {
      var (m, cached) := Handshake(spawn.hello, h.registry);
      if cached.Some? {
        var (accept, state, policy, snapshot, bs) := cached.value;
        var (b, id) := B.RegisterShard(h.bus, accept, snapshot, grant);
        BusRuns.ApplyKeeps(h.bus, B.OpRegister(accept, snapshot, grant));
        forall i | 0 <= i < |h.links| ensures ViewOf(b, h.links[i].id) == ViewOf(h.bus, h.links[i].id) {
          LinkIsKnown(h.links[i], h.bus);
          OpShowsNothing(h.bus, B.OpRegister(accept, snapshot, grant), h.links[i].id);
        }
        if id.Some? {
          var l := Link(name, id.value, state, policy, snapshot, bs, Some(spawn.channel), false, false, false, 1, 1, bs, []);
          NewLinkHolds(h, spawn.hello, accept, grant, l);
          forall i | 0 <= i < |h.links| ensures h.links[i].id != l.id {
            LinkIsKnown(h.links[i], h.bus);
            BusRuns.KnownIsOld(h.bus, h.links[i].id);
          }
          InsertKeeps(h, b, l, m);
        }
      }
    }
  }

  lemma NewLinkHolds(h: Host, hello: bytes, accept: seq<Schema>, grant: seq<SendRule>, l: Link)
    requires BusRuns.Reachable(h.bus)
    requires Handshake(hello, h.registry).1 == Some((accept, l.stateSchema, l.policy, l.snapshot, l.snapshotBytes))
    requires B.RegisterShard(h.bus, accept, l.snapshot, grant).1 == Some(l.id)
    requires l.channel.Some? && !l.dead && !l.deathSignaled && !l.quarantined && l.attempts == 1 && l.spawned == 1
    ensures l.id == h.bus.nextShard
    ensures LinkInv(l, ViewOf(B.RegisterShard(h.bus, accept, l.snapshot, grant).0, l.id))
  {
    hide BusRuns.Inv, B.RegisterEach, AdmitLive, Conforms, B.PolicySchema, B.AdmitBytes, Serialize, Deaths,
         NeverFellBack, Reconstruct, ManifestSchema, ReadHello;
    BusRuns.AdmittedBytes(l.snapshotBytes, l.stateSchema);
    CanonicalBytes(l.snapshotBytes, l.stateSchema);
    assert Conforms(l.policy, B.PolicySchema()) by { PolicyAdmitted(hello, h.registry); }
    assert Revivable(l);
    NothingSaid(h.bus);
  }

  lemma PolicyAdmitted(hello: bytes, m: Schemas)
    requires Handshake(hello, m).1.Some?
    ensures Conforms(Handshake(hello, m).1.value.2, B.PolicySchema())
  {
    hide Conforms, B.PolicySchema, B.AdmitBytes, Reconstruct, ManifestSchema, ReadHello;
    BusRuns.AdmittedBytes(ReadHello(hello).value.policy, B.PolicySchema());
  }

  /** A fresh id has never died or fallen back: no event is about a shard not yet registered. */
  lemma NothingSaid(b: B.Bus)
    requires BusRuns.Reachable(b)
    ensures Deaths(b.log, b.nextShard) == 0 && NeverFellBack(b.log, b.nextShard)
  {
    hide BusRuns.Ordered, BusRuns.Stamped, BusRuns.Caused, BusRuns.HandledOnce, BusRuns.Canonical, BusRuns.Conformed,
         BusRuns.Authority, BusRuns.Told;
    NoDeaths(b.log, b.nextShard);
  }

  lemma {:induction false} NoDeaths(log: seq<B.Event>, id: B.ShardId)
    requires forall k :: 0 <= k < |log| && !log[k].Decided? ==> log[k].target < id
    ensures Deaths(log, id) == 0
  {
    if log != [] {
      NoDeaths(log[..|log| - 1], id);
    }
  }

  lemma UnmountKeeps(h: Host, name: bytes)
    requires HostInv(h)
    ensures HostInv(Unmount(h, name))
  {
    hide BusRuns.Inv, LinkInv, ViewOf, B.UnregisterShard;
    var i := Place(h.links, name);
    if i < |h.links| {
      var id := h.links[i].id;
      BusRuns.ApplyKeeps(h.bus, B.OpUnregister(id));
      var m := Unmount(h, name);
      forall j | 0 <= j < |m.links|
        ensures m.links[j] == h.links[if j < i then j else j + 1]
        ensures LinkInv(m.links[j], ViewOf(m.bus, m.links[j].id))
      {
        var k := if j < i then j else j + 1;
        assert m.links[j] == h.links[k] && LinkInv(h.links[k], ViewOf(h.bus, h.links[k].id));
        LinkIsKnown(h.links[k], h.bus);
        OpShowsNothing(h.bus, B.OpUnregister(id), h.links[k].id);
      }
    }
  }

  lemma ApplyKeeps(h: Host, op: HostOp)
    requires HostInv(h) && Enabled(h, op)
    ensures HostInv(Apply(h, op))
  {
    hide HostInv, Mount, Unmount, StepHost, OnBus;
    match op
    case DoMount(name, spawn, grant) => MountKeeps(h, name, spawn, grant);
    case DoUnmount(name) => UnmountKeeps(h, name);
    case DoStep(ws, script) => StepKeeps(h, ws, script);
    case DoBus(op) => OnBusKeeps(h, op);
  }

  lemma {:induction false} EveryRunKeeps(h: Host, ops: seq<HostOp>)
    requires HostInv(h) && IsRun(h, ops)
    ensures HostInv(Run(h, ops))
    decreases |ops|
  {
    hide HostInv, Apply;
    if ops != [] {
      ApplyKeeps(h, ops[0]);
      EveryRunKeeps(Apply(h, ops[0]), ops[1..]);
    }
  }
}
