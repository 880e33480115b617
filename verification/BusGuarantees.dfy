/** What the bus guarantees over whole runs, stated outright. */
module BusGuarantees {
  import opened Bytes
  import opened Model
  import opened Gate
  import opened Admission
  import opened Registry
  import opened Grant
  import opened Bus
  import opened BusRuns
  import AdmissionRun

  // ---- one state ----------------------------------------------------------------------------

  /** Order and conservation: tickets are numbered without gaps, the queue holds the latest ones
      in order, and precisely those are pending. So outcomes are decided in ticket order. */
  lemma DeliveryOrder(ops: seq<Op>)
    ensures var b := Run(NEW_BUS, ops);
            && |b.journal| == b.nextTicket && |b.queue| < b.nextTicket
            && (forall k :: 0 <= k < |b.queue| ==> b.queue[k].ticket == b.nextTicket - |b.queue| + k)
            && forall t :: 1 <= t < b.nextTicket ==>
                 (b.journal[t].Pending? <==> exists k :: 0 <= k < |b.queue| && b.queue[k].ticket == t)
  {
    var b := RunOf(ops);
    hide Stamped, Caused, HandledOnce, Canonical, Conformed, Authority, Stateful, Told, Said, Run;
    forall t | 1 <= t < b.nextTicket && b.journal[t].Pending? ensures exists k :: 0 <= k < |b.queue| && b.queue[k].ticket == t {
      assert b.queue[t - FrontTicket(b.queue, b.nextTicket)].ticket == t;
    }
  }

  lemma RunOf(ops: seq<Op>) returns (b: Bus)
    ensures b == Run(NEW_BUS, ops) && Reachable(b)
  {
    hide Inv, Run;
    NewIsReachable();
    EveryRunKeeps(NEW_BUS, ops);
    b := Run(NEW_BUS, ops);
  }

  /** Exactly once: handlers were called in ticket order, once for every ticket the journal calls
      delivered and never for another; and every decision was announced once, in ticket order. */
  lemma HandledExactlyOnce(ops: seq<Op>)
    ensures var b := Run(NEW_BUS, ops);
            && (forall i, j :: 0 <= i < j < |b.handled| ==> b.handled[i].ticket < b.handled[j].ticket)
            && (forall t :: 0 <= t < |b.journal| ==>
                  (b.journal[t].Delivered? <==> exists i :: 0 <= i < |b.handled| && b.handled[i].ticket == t))
            && |b.journal| == b.nextTicket && |Announced(b.log)| == b.nextTicket - 1 - |b.queue|
            && forall k :: 0 <= k < |Announced(b.log)| ==>
                 var e := Announced(b.log)[k]; e.Decided? && e.ticket == k + 1 && e.outcome == b.journal[k + 1]
  {
    var b := RunOf(ops);
    hide Stamped, Caused, Canonical, Conformed, Authority, Run;
  }

  /** Identity and authority: a gated envelope that was handled carries as sender the shard whose
      handler issued its ticket, while handling an earlier one, or whom the host named; that shard
      was registered at that moment, and the grant it was registered with permits the message. */
  lemma HandledWasAuthorized(ops: seq<Op>, i: nat)
    requires i < |Run(NEW_BUS, ops).handled|
    ensures var b := Run(NEW_BUS, ops); var e := b.handled[i];
            && e.ticket < |b.origins|
            && (e.gated <==> !b.origins[e.ticket].Root?)
            && Present(e.target, i, b.granted, b.departed)
            && (e.gated ==>
                  && e.msg.sender == b.origins[e.ticket].id
                  && Present(e.msg.sender, i, b.granted, b.departed)
                  && Permits(b.granted[e.msg.sender], ShapeOf(e.msg.payload), e.target))
            && (b.origins[e.ticket].Handler? ==>
                  exists j :: 0 <= j < i && b.handled[j].target == e.msg.sender && b.handled[j].ticket < e.ticket)
  {
    var b := RunOf(ops);
    hide Canonical, Conformed, Stateful, Told, Said, Run, Permits, Ordered;
    var e := b.handled[i];
    assert TrueSender(e, b.origins) && Allowed(e, i, b.granted, b.departed);
    if b.origins[e.ticket].Handler? {
      var j :| 0 <= j < |b.handled| && b.handled[j].target == b.origins[e.ticket].id && b.handled[j].ticket < e.ticket;
      assert j < i;
    }
  }

  /** Everything a shard was ever handed conforms: payloads to the one schema published under
      their name and version, states to the state schema the shard was registered with, which it
      keeps for as long as it is there. */
  lemma HandedValuesConform(ops: seq<Op>)
    ensures var b := Run(NEW_BUS, ops);
            && (forall i :: 0 <= i < |b.handled| ==> KeyedPayload(b.handled[i].msg.payload, b.registry))
            && (forall i :: 0 <= i < |b.restored| ==>
                  b.restored[i].0 in b.stated && Conforms(b.restored[i].1, b.stated[b.restored[i].0]))
            && forall id :: id in b.shards ==>
                 && id in b.stated && b.shards[id].stateSchema == b.stated[id]
                 && Conforms(b.shards[id].lastKnownGood, b.shards[id].stateSchema)
  {
    var b := RunOf(ops);
    hide Ordered, Stamped, Caused, HandledOnce, Authority, Told, Said, Run, Conforms;
  }

  // ---- one state and a later one --------------------------------------------------------------

  ghost predicate Grown<K, V>(m: map<K, V>, n: map<K, V>) { forall k :: k in m ==> k in n && n[k] == m[k] }

  ghost predicate Settled(j: seq<Outcome>, k: seq<Outcome>) {
    |j| <= |k| && forall t :: 0 <= t < |j| && !j[t].Pending? ==> k[t] == j[t]
  }

  /** c may come after b: decided outcomes, history, published schemas and grants all stay. */
  ghost predicate Later(b: Bus, c: Bus) {
    && Settled(b.journal, c.journal)
    && b.handled <= c.handled && b.log <= c.log && b.origins <= c.origins && b.restored <= c.restored
    && Grown(b.registry, c.registry) && Grown(b.granted, c.granted) && Grown(b.departed, c.departed)
    && Grown(b.stated, c.stated)
    && b.nextShard <= c.nextShard
  }

  lemma LaterTransitive(b: Bus, c: Bus, d: Bus)
    requires Later(b, c) && Later(c, d)
    ensures Later(b, d)
  {
  }

  lemma EnqueueLater(b: Bus, msg: Message, target: ShardId, gated: bool, who: Origin)
    ensures Later(b, Enqueue(b, msg, target, gated, who))
  {
  }

  lemma {:induction false} EnqueueAllLater(b: Bus, msg: Message, targets: seq<ShardId>, gated: bool, who: Origin)
    ensures Later(b, EnqueueAll(b, msg, targets, gated, who))
    decreases |targets|
  {
    hide Enqueue;
    if targets == [] {
      hide *;
      SameIsLater(b);
    } else {
      hide Later;
      var c := Enqueue(b, msg, targets[0], gated, who);
      EnqueueLater(b, msg, targets[0], gated, who);
      EnqueueAllLater(c, msg, targets[1..], gated, who);
      LaterTransitive(b, c, EnqueueAll(c, msg, targets[1..], gated, who));
    }
  }

  lemma SameIsLater(b: Bus)
    ensures Later(b, b)
  {
  }

  lemma ActLater(b: Bus, self: ShardId, a: Action)
    ensures Later(b, Act(b, self, a))
  {
    hide Enqueue, EnqueueAll, Later;
    match a
    case SendTo(target, msg) => EnqueueLater(b, msg.(sender := self), target, true, Handler(self));
    case PublishIt(msg) =>
      EnqueueAllLater(b, msg.(sender := self), Recipients(b, ShapeOf(msg.payload), 1), true, Handler(self));
    case PumpAgain => SameIsLater(b);
    case AskStop => FlagsLater(b, b.queue, b.inDispatch, true);
  }

  lemma FlagsLater(b: Bus, queue: seq<Envelope>, inDispatch: bool, stopRequested: bool)
    ensures Later(b, b.(queue := queue, inDispatch := inDispatch, stopRequested := stopRequested))
  {
  }

  lemma {:induction false} ActAllLater(b: Bus, self: ShardId, acts: seq<Action>)
    ensures Later(b, ActAll(b, self, acts))
    decreases |acts|
  {
    hide Later, Act;
    if acts == [] {
      SameIsLater(b);
    } else {
      ActLater(b, self, acts[0]);
      ActAllLater(Act(b, self, acts[0]), self, acts[1..]);
      LaterTransitive(b, Act(b, self, acts[0]), ActAll(Act(b, self, acts[0]), self, acts[1..]));
    }
  }

  lemma DecideLater(b: Bus, env: Envelope, outcome: Outcome)
    requires env.ticket < |b.journal| ==> b.journal[env.ticket].Pending?
    ensures Later(b, Decide(b, env, outcome))
  {
  }

  lemma DeliverLater(b: Bus, cur: Envelope, acts: seq<Action>)
    requires Inv(b, Some(cur), false)
    ensures Later(b, Deliver(b, cur, acts))
  {
    hide Inv, Judge, ActAll, Decide, Later;
    if Judge(b, cur).Delivered? {
      var c := b.(handled := b.handled + [cur]);
      var d := ActAll(c, cur.target, acts);
      HandleKeeps(b, cur);
      ActAllKeeps(c, cur, acts);
      CurrentIsPending(d, cur, true);
      assert Later(b, c) by { HandleLater(b, cur); }
      ActAllLater(c, cur.target, acts);
      DecideLater(d, cur, Delivered);
      LaterTransitive(b, c, d);
      LaterTransitive(b, d, Decide(d, cur, Delivered));
    } else {
      CurrentIsPending(b, cur, false);
      DecideLater(b, cur, Judge(b, cur));
    }
  }

  lemma HandleLater(b: Bus, cur: Envelope)
    ensures Later(b, b.(handled := b.handled + [cur]))
  {
  }

  lemma CurrentIsPending(b: Bus, cur: Envelope, open: bool)
    requires Inv(b, Some(cur), open)
    ensures cur.ticket < |b.journal| && b.journal[cur.ticket].Pending?
  {
    hide Stamped, Caused, HandledOnce, Canonical, Conformed, Authority, Stateful, Told, Said;
  }

  lemma {:induction false} DispatchLater(b: Bus, script: seq<seq<Action>>)
    requires Reachable(b)
    ensures Later(b, Dispatch(b, script))
    decreases |script|
  {
    hide Inv, Deliver, Later;
    if b.queue == [] || b.stopRequested {
      FlagsLater(b, b.queue, false, b.stopRequested);
    } else if script == [] {
      SameIsLater(b);
    } else {
      var c := b.(queue := b.queue[1..]);
      var d := Deliver(c, b.queue[0], script[0]);
      FlagsLater(b, b.queue[1..], b.inDispatch, b.stopRequested);
      PopKeeps(b);
      DeliverLater(c, b.queue[0], script[0]);
      DeliverKeeps(c, b.queue[0], script[0]);
      DispatchLater(d, script[1..]);
      LaterTransitive(b, c, d);
      LaterTransitive(b, d, Dispatch(d, script[1..]));
    }
  }

  lemma RegisterLater(b: Bus, accepts: seq<Schema>, snapshot: Value, grant: seq<SendRule>)
    requires Reachable(b)
    ensures Later(b, RegisterShard(b, accepts, snapshot, grant).0)
  {
    hide RegisterEach, Adopt, Inv, Later, Keyed, Extends;
    var (m, canonical) := RegisterEach(b.registry, accepts);
    assert Keyed(b.registry) by { RegistryIsKeyed(b); }
    NextIsNew(b);
    EachIsCanonical(b.registry, accepts);
    RegistryLater(b, m);
    if canonical.Some? {
      var c := b.(registry := m);
      AdoptLater(c, canonical.value, snapshot, grant);
      LaterTransitive(b, c, Adopt(c, canonical.value, snapshot, grant).0);
    }
  }

  lemma RegistryLater(b: Bus, m: Schemas)
    requires Extends(b.registry, m)
    ensures Later(b, b.(registry := m))
  {
  }

  lemma AdoptLater(b: Bus, accept: seq<Schema>, snapshot: Value, grant: seq<SendRule>)
    requires b.nextShard !in b.granted && b.nextShard !in b.stated
    ensures Later(b, Adopt(b, accept, snapshot, grant).0)
  {
    hide AdmitLive;
  }

  lemma NextIsNew(b: Bus)
    requires Reachable(b)
    ensures b.nextShard !in b.granted && b.nextShard !in b.stated && forall id :: id in b.shards ==> id !in b.departed
  {
    hide Ordered, Stamped, Caused, HandledOnce, Canonical, Conformed, Told;
  }

  lemma ApplyLater(b: Bus, op: Op)
    requires Reachable(b)
    ensures Later(b, Apply(b, op))
  {
    hide Inv, Enqueue, EnqueueAll, Dispatch, Reload, SwapState, RegisterShard, Later, UnregisterShard, Kill;
    match op
    case OpRegister(accepts, snapshot, grant) => RegisterLater(b, accepts, snapshot, grant);
    case OpUnregister(id) => UnregisterLater(b, id);
    case OpSend(target, msg) => EnqueueLater(b, msg, target, false, Root);
    case OpPublish(msg) => EnqueueAllLater(b, msg, Recipients(b, ShapeOf(msg.payload), 1), false, Root);
    case OpSendAs(id, target, msg) => EnqueueLater(b, msg.(sender := id), target, true, Host(id));
    case OpPublishAs(id, msg) => EnqueueAllLater(b, msg.(sender := id), Recipients(b, ShapeOf(msg.payload), 1), true, Host(id));
    case OpPump(script) =>
      var c := b.(inDispatch := true, stopRequested := false);
      SameIsLater(b);
      FlagsLater(b, b.queue, true, false);
      FlagsKeep(b, None, false, true, false);
      DispatchLater(c, script);
      LaterTransitive(b, c, Dispatch(c, script));
    case OpResume(script) =>
      SameIsLater(b);
      DispatchLater(b, script);
    case OpStop => FlagsLater(b, b.queue, b.inDispatch, true);
    case OpKill(id) => LifecycleLater(b, id, Empty(PolicySchema()), []);
    case OpReload(id, policy, candidate) => LifecycleLater(b, id, policy, candidate);
    case OpSwap(id, candidate) => LifecycleLater(b, id, Empty(PolicySchema()), candidate);
  }

  lemma UnregisterLater(b: Bus, id: ShardId)
    requires Reachable(b)
    ensures Later(b, UnregisterShard(b, id))
  {
    NextIsNew(b);
    hide Inv;
  }

  lemma LifecycleLater(b: Bus, id: ShardId, policy: Value, candidate: bytes)
    ensures Later(b, Kill(b, id)) && Later(b, Reload(b, id, policy, candidate).0) && Later(b, SwapState(b, id, candidate).0)
  {
    hide AdmitLive, AdmitBytes, Conforms, PolicySchema, Later, Emit, Restore, Update;
    SameIsLater(b);
    if id in b.shards {
      var r := b.shards[id];
      forall e ensures Later(b, Emit(b, e)) && Later(b, Emit(Update(b, id, r.(alive := false)), e)) {
        EventLater(b, b.shards, e);
        EventLater(b, b.shards[id := r.(alive := false)], e);
        assert Emit(b, e) == b.(shards := b.shards, log := b.log + [e]) by { EmitUnfolds(b, id, r, e); }
        EmitUnfolds(b, id, r.(alive := false), e);
      }
      forall state, spend, e ensures Later(b, Emit(Restore(b, id, state, spend), e)) {
        RestoreLater(b, id, state, spend, e);
      }
    }
  }

  lemma EventLater(b: Bus, shards: map<ShardId, Record>, e: Event)
    ensures Later(b, b.(shards := shards, log := b.log + [e]))
  {
  }

  lemma EmitUnfolds(b: Bus, id: ShardId, r: Record, e: Event)
    ensures Emit(b, e) == b.(shards := b.shards, log := b.log + [e])
    ensures Emit(Update(b, id, r), e) == b.(shards := b.shards[id := r], log := b.log + [e])
  {
  }

  lemma RestoreLater(b: Bus, id: ShardId, state: Value, spend: nat, e: Event)
    requires id in b.shards
    ensures Later(b, Emit(Restore(b, id, state, spend), e))
  {
  }

  /** Over any run and any continuation of it: a decided outcome never changes, the history only
      grows at its end, a published schema and a given grant are for good. */
  lemma {:induction false} NothingIsTakenBack(b: Bus, ops: seq<Op>)
    requires Reachable(b)
    ensures Later(b, Run(b, ops))
    decreases |ops|
  {
    hide Inv, Later, Apply;
    if ops == [] {
      SameIsLater(b);
    } else {
      ApplyKeeps(b, ops[0]);
      ApplyLater(b, ops[0]);
      NothingIsTakenBack(Apply(b, ops[0]), ops[1..]);
      LaterTransitive(b, Apply(b, ops[0]), Run(Apply(b, ops[0]), ops[1..]));
    }
  }

  /** The envelope gets past routing and authority, up to the gate. */
  predicate ReachesGate(b: Bus, e: Envelope) {
    && e.target in b.shards && b.shards[e.target].alive && Authorized(b, e)
    && AcceptMatch(b.shards[e.target].accept, ShapeOf(e.msg.payload)).Some?
  }

  /** One verdict: every copy of a payload that reaches the gate, at whichever shard and however
      much later, is judged against the same published schema with the same outcome. */
  lemma SamePayloadSameVerdict(b: Bus, ops: seq<Op>, e: Envelope, f: Envelope)
    requires Reachable(b)
    requires var c := Run(b, ops); ReachesGate(b, e) && ReachesGate(c, f) && e.msg.payload == f.msg.payload
    ensures Judge(b, e) == Judge(Run(b, ops), f)
    ensures Judge(b, e).Delivered? <==> KeyedPayload(e.msg.payload, b.registry)
  {
    hide Inv, Run, AdmitLive, Permits, Conforms;
    var c := Run(b, ops);
    NothingIsTakenBack(b, ops);
    EveryRunKeeps(b, ops);
    DoorIsPublished(b, e);
    DoorIsPublished(c, f);
    AdmissionRun.LiveAdmits(e.msg.payload, b.registry[Key(e.msg.payload.schema.name, e.msg.payload.schema.version)], false);
  }

  lemma DoorIsPublished(b: Bus, e: Envelope)
    requires Reachable(b) && ReachesGate(b, e)
    ensures var v := e.msg.payload; var k := Key(v.schema.name, v.schema.version);
            k in b.registry && Judge(b, e) == GateOutcome(v, b.registry[k])
  {
    hide Ordered, Stamped, Caused, HandledOnce, Conformed, Authority, Stateful, Told, Said, AdmitLive, Permits,
         Conforms;
    MatchIsFirst(b.shards[e.target].accept, ShapeOf(e.msg.payload));
  }

  // ---- publishing --------------------------------------------------------------------------------

  /** A publish is queued for exactly the live shards that accept its shape, each once, in
      registration order. */
  lemma {:induction false} RecipientsAreExact(b: Bus, shape: Shape, from: ShardId)
    ensures var rs := Recipients(b, shape, from);
            && (forall id :: id in rs <==> from <= id < b.nextShard && Receives(b, id, shape))
            && (forall i, j :: 0 <= i < j < |rs| ==> rs[i] < rs[j])
    decreases b.nextShard - from
  {
    hide Receives;
    if from < b.nextShard {
      RecipientsAreExact(b, shape, from + 1);
      var rest := Recipients(b, shape, from + 1);
      assert forall i :: 0 <= i < |rest| ==> rest[i] in rest;
    }
  }

  lemma {:induction false} PublishQueues(b: Bus, msg: Message, targets: seq<ShardId>, gated: bool, who: Origin)
    ensures var c := EnqueueAll(b, msg, targets, gated, who);
            && |c.queue| == |b.queue| + |targets| && c.queue[..|b.queue|] == b.queue
            && c.nextTicket == b.nextTicket + |targets|
            && forall i :: 0 <= i < |targets| ==>
                 c.queue[|b.queue| + i] == Envelope(msg, targets[i], b.nextTicket + i, gated)
    decreases |targets|
  {
    if targets != [] {
      var b1 := Enqueue(b, msg, targets[0], gated, who);
      PublishQueues(b1, msg, targets[1..], gated, who);
      var c := EnqueueAll(b, msg, targets, gated, who);
      assert c.queue[..|b.queue|] == c.queue[..|b1.queue|][..|b.queue|];
      forall i | 0 <= i < |targets| ensures c.queue[|b.queue| + i] == Envelope(msg, targets[i], b.nextTicket + i, gated) {
        if i > 0 {
          assert targets[1..][i - 1] == targets[i];
        } else {
          assert c.queue[|b.queue|] == c.queue[..|b1.queue|][|b.queue|];
        }
      }
    }
  }

  // ---- dispatch ----------------------------------------------------------------------------------

  lemma {:induction false} ActAllKeepsFlag(b: Bus, self: ShardId, acts: seq<Action>)
    ensures ActAll(b, self, acts).inDispatch == b.inDispatch
    decreases |acts|
  {
    hide Act;
    if acts != [] {
      ActKeepsFlag(b, self, acts[0]);
      ActAllKeepsFlag(Act(b, self, acts[0]), self, acts[1..]);
    }
  }

  lemma ActKeepsFlag(b: Bus, self: ShardId, a: Action)
    ensures Act(b, self, a).inDispatch == b.inDispatch
  {
    hide EnqueueAll, Recipients;
    if a.PublishIt? {
      EnqueueKeepsFlag(b, a.msg.(sender := self), Recipients(b, ShapeOf(a.msg.payload), 1), true, Handler(self));
    }
  }

  lemma {:induction false} EnqueueKeepsFlag(b: Bus, msg: Message, targets: seq<ShardId>, gated: bool, who: Origin)
    ensures EnqueueAll(b, msg, targets, gated, who).inDispatch == b.inDispatch
    decreases |targets|
  {
    if targets != [] {
      EnqueueKeepsFlag(Enqueue(b, msg, targets[0], gated, who), msg, targets[1..], gated, who);
    }
  }

  /** A dispatch that returned found the queue empty or was asked to stop; until then it holds
      the flag that turns every further pump into nothing. */
  lemma {:induction false} DispatchEnds(b: Bus, script: seq<seq<Action>>, more: seq<seq<Action>>)
    requires b.inDispatch
    ensures var c := Dispatch(b, script);
            if c.inDispatch then Pumped(c, more) == c else c.queue == [] || c.stopRequested
    decreases |script|
  {
    hide Judge, ActAll;
    if !(b.queue == [] || b.stopRequested) && script != [] {
      var c := b.(queue := b.queue[1..]);
      ActAllKeepsFlag(c.(handled := c.handled + [b.queue[0]]), b.queue[0].target, script[0]);
      DispatchEnds(Deliver(c, b.queue[0], script[0]), script[1..], more);
    }
  }

  /** Leaving a dispatch open and going on with it is having scripted it whole. */
  lemma {:induction false} ResumeGoesOn(b: Bus, script: seq<seq<Action>>, more: seq<seq<Action>>)
    requires b.inDispatch
    ensures Resumed(Dispatch(b, script), more) == Dispatch(b, script + more)
    decreases |script|
  {
    hide Judge, ActAll;
    if script == [] {
      assert script + more == more;
    } else if !(b.queue == [] || b.stopRequested) {
      var c := b.(queue := b.queue[1..]);
      ActAllKeepsFlag(c.(handled := c.handled + [b.queue[0]]), b.queue[0].target, script[0]);
      ResumeGoesOn(Deliver(c, b.queue[0], script[0]), script[1..], more);
      assert (script + more)[1..] == script[1..] + more;
    }
  }

  // ---- the revival budget ------------------------------------------------------------------------

  /** Every policy the shard states, whenever it is asked, allows at most m revivals. */
  ghost predicate PoliciesAllow(ops: seq<Op>, id: ShardId, m: int) {
    forall i :: 0 <= i < |ops| && ops[i].OpReload? && ops[i].id == id && Conforms(ops[i].policy, PolicySchema()) ==>
      PolicyOf(ops[i].policy).maxReloads <= m
  }

  ghost predicate WithinBudget(b: Bus, id: ShardId, m: int) {
    id in b.shards ==> b.shards[id].reloadsUsed <= if m < 0 then 0 else m
  }

  /** Crash revivals never exceed the most the shard's policy ever allowed, over any run: a
      deliberate swap, a kill or any amount of traffic changes nothing about it. */
  lemma {:induction false} RevivalsAreBudgeted(b: Bus, ops: seq<Op>, id: ShardId, m: int)
    requires WithinBudget(b, id, m) && PoliciesAllow(ops, id, m)
    ensures WithinBudget(Run(b, ops), id, m)
    decreases |ops|
  {
    hide Apply, WithinBudget, Conforms, PolicySchema;
    if ops != [] {
      assert PoliciesAllow([ops[0]], id, m);
      ApplyIsBudgeted(b, ops[0], id, m);
      assert forall i :: 0 <= i < |ops| - 1 ==> ops[1..][i] == ops[i + 1];
      RevivalsAreBudgeted(Apply(b, ops[0]), ops[1..], id, m);
    }
  }

  lemma ApplyIsBudgeted(b: Bus, op: Op, id: ShardId, m: int)
    requires WithinBudget(b, id, m) && PoliciesAllow([op], id, m)
    ensures WithinBudget(Apply(b, op), id, m)
  {
    hide EnqueueAll, RegisterEach, AdmitLive, Conforms, PolicySchema, Dispatch, Recipients, Reload, SwapState;
    match op
    case OpPublish(msg) => EnqueueKeepsShards(b, msg, Recipients(b, ShapeOf(msg.payload), 1), false, Root);
    case OpPublishAs(i, msg) =>
      EnqueueKeepsShards(b, msg.(sender := i), Recipients(b, ShapeOf(msg.payload), 1), true, Host(i));
    case OpPump(script) => DispatchKeepsShards(b.(inDispatch := true, stopRequested := false), script);
    case OpResume(script) => DispatchKeepsShards(b, script);
    case OpReload(i, policy, candidate) =>
      assert [op][0] == op;
      ReloadIsBudgeted(b, i, policy, candidate, id, m);
    case OpSwap(i, candidate) => SwapSpendsNothing(b, i, candidate, id);
    case _ =>
  }

  lemma ReloadIsBudgeted(b: Bus, i: ShardId, policy: Value, candidate: bytes, id: ShardId, m: int)
    requires WithinBudget(b, id, m)
    requires i == id && Conforms(policy, PolicySchema()) ==> PolicyOf(policy).maxReloads <= m
    ensures WithinBudget(Reload(b, i, policy, candidate).0, id, m)
  {
    hide AdmitLive, AdmitBytes, Conforms, PolicySchema, PolicyOf, Emit, Restore;
    AdmissionRun.LiveAdmits(policy, PolicySchema(), false);
    if i in b.shards {
      RecordsAfter(b, i);
    }
  }

  /** What announcing and restoring do to the records. */
  lemma RecordsAfter(b: Bus, i: ShardId)
    requires i in b.shards
    ensures forall e :: Emit(b, e).shards == b.shards
    ensures forall v, n: nat, e :: Emit(Restore(b, i, v, n), e).shards ==
              b.shards[i := b.shards[i].(lastKnownGood := v, reloadsUsed := b.shards[i].reloadsUsed + n, alive := true)]
  {
  }

  lemma SwapSpendsNothing(b: Bus, i: ShardId, candidate: bytes, id: ShardId)
    ensures var c := SwapState(b, i, candidate).0;
            (id in c.shards <==> id in b.shards) && (id in b.shards ==> c.shards[id].reloadsUsed == b.shards[id].reloadsUsed)
  {
    hide AdmitBytes, Emit, Restore;
    if i in b.shards {
      RecordsAfter(b, i);
    }
  }

  lemma {:induction false} EnqueueKeepsShards(b: Bus, msg: Message, targets: seq<ShardId>, gated: bool, who: Origin)
    ensures EnqueueAll(b, msg, targets, gated, who).shards == b.shards
    decreases |targets|
  {
    if targets != [] {
      EnqueueKeepsShards(Enqueue(b, msg, targets[0], gated, who), msg, targets[1..], gated, who);
    }
  }

  lemma {:induction false} ActAllKeepsShards(b: Bus, self: ShardId, acts: seq<Action>)
    ensures ActAll(b, self, acts).shards == b.shards
    decreases |acts|
  {
    hide EnqueueAll, Recipients;
    if acts != [] {
      if acts[0].PublishIt? {
        EnqueueKeepsShards(b, acts[0].msg.(sender := self), Recipients(b, ShapeOf(acts[0].msg.payload), 1), true, Handler(self));
      }
      ActAllKeepsShards(Act(b, self, acts[0]), self, acts[1..]);
    }
  }

  /** Delivering touches no record: only the lifecycle operations do. */
  lemma {:induction false} DispatchKeepsShards(b: Bus, script: seq<seq<Action>>)
    ensures Dispatch(b, script).shards == b.shards
    decreases |script|
  {
    hide Judge, ActAll;
    if !(b.queue == [] || b.stopRequested) && script != [] {
      var c := b.(queue := b.queue[1..]);
      ActAllKeepsShards(c.(handled := c.handled + [b.queue[0]]), b.queue[0].target, script[0]);
      DispatchKeepsShards(Deliver(c, b.queue[0], script[0]), script[1..]);
    }
  }
}
