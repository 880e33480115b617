/** What each bus operation decides and leaves behind, said of its inputs alone
    (src/switchboard/switchboard.cpp). */
module BusDecisions {
  import opened Bytes
  import opened Model
  import opened Gate
  import opened Admission
  import opened Registry
  import opened Grant
  import opened Bus
  import opened BusRuns
  import BusGuarantees
  import AdmissionRun

  // ---- deliveries ---------------------------------------------------------------------------

  /** Some rule of the grant names this shape or any, and this target or any. */
  predicate Granted(rules: seq<SendRule>, shape: Shape, target: ShardId) {
    exists i :: 0 <= i < |rules| && (rules[i].shape == None || rules[i].shape == Some(shape)) &&
                (rules[i].target == None || rules[i].target == Some(target))
  }

  /** The k-th accept schema is the first of this name and version. */
  predicate FirstDoor(accept: seq<Schema>, v: Value, k: nat) {
    && k < |accept| && accept[k].name == v.schema.name && accept[k].version == v.schema.version
    && forall j :: 0 <= j < k ==> accept[j].name != v.schema.name || accept[j].version != v.schema.version
  }

  lemma GrantedIsPermitted(rules: seq<SendRule>, shape: Shape, target: ShardId)
    ensures Granted(rules, shape, target) <==> Permits(rules, shape, target)
  {
    if Granted(rules, shape, target) {
      var i :| 0 <= i < |rules| && (rules[i].shape == None || rules[i].shape == Some(shape)) &&
               (rules[i].target == None || rules[i].target == Some(target));
      assert RulePermits(rules[i], shape, target);
    }
    if Permits(rules, shape, target) {
      var i :| 0 <= i < |rules| && RulePermits(rules[i], shape, target);
      assert rules[i].shape == None || rules[i].shape == Some(shape);
    }
  }

  lemma {:induction false} DoorIsFirst(accept: seq<Schema>, v: Value)
    ensures match AcceptMatch(accept, ShapeOf(v))
            case None => forall k: nat :: !FirstDoor(accept, v, k)
            case Some(s) => exists k: nat :: FirstDoor(accept, v, k) && accept[k] == s
  {
    if accept == [] {
    } else if accept[0].name == v.schema.name && accept[0].version == v.schema.version {
      assert FirstDoor(accept, v, 0);
    } else {
      DoorIsFirst(accept[1..], v);
      forall k: nat | FirstDoor(accept, v, k) ensures FirstDoor(accept[1..], v, k - 1) {
        assert accept[1..][k - 1] == accept[k];
      }
      forall k: nat | FirstDoor(accept[1..], v, k) ensures FirstDoor(accept, v, k + 1) && accept[k + 1] == accept[1..][k] {
        assert forall j :: 0 < j < |accept| ==> accept[j] == accept[1..][j - 1];
      }
    }
  }

  lemma OneFirstDoor(accept: seq<Schema>, v: Value, k: nat, j: nat)
    requires FirstDoor(accept, v, k) && FirstDoor(accept, v, j)
    ensures k == j
  {
  }

  /** How far a delivery gets: the target must be registered, then alive, then a gated sender must be
      registered and hold a rule for this shape and target, then the target must accept the shape,
      then the payload must conform to the first schema it accepts it under. Each refusal is for the
      first of these that fails, and no later one is looked at. */
  lemma DeliveryDecides(b: Bus, e: Envelope)
    ensures var o := Judge(b, e); var v, sender := e.msg.payload, e.msg.sender;
            if e.target !in b.shards then o == Declined(NoSuchTarget)
            else if !b.shards[e.target].alive then o == Declined(TargetUnavailable)
            else if e.gated && !(sender in b.shards && Granted(b.shards[sender].grant, ShapeOf(v), e.target)) then
              o == Declined(CapabilityDenied)
            else
              var accept := b.shards[e.target].accept;
              if forall k: nat :: !FirstDoor(accept, v, k) then o == Declined(NotAccepted)
              else forall k: nat :: FirstDoor(accept, v, k) ==>
                     if Conforms(v, accept[k]) then o == Delivered
                     else Diagnose(v, accept[k]) != [] && o == Declined(GateRefused(Diagnose(v, accept[k])[0]))
  {
    hide Permits, Granted, Conforms, Diagnose, AcceptMatch;
    if e.target in b.shards {
      var accept, v := b.shards[e.target].accept, e.msg.payload;
      if e.msg.sender in b.shards {
        GrantedIsPermitted(b.shards[e.msg.sender].grant, ShapeOf(v), e.target);
      }
      DoorIsFirst(accept, v);
      if AcceptMatch(accept, ShapeOf(v)).Some? {
        var door := AcceptMatch(accept, ShapeOf(v)).value;
        forall k: nat | FirstDoor(accept, v, k) ensures accept[k] == door {
          var j: nat :| FirstDoor(accept, v, j) && accept[j] == door;
          OneFirstDoor(accept, v, k, j);
        }
        AdmissionRun.LiveAdmits(v, door, false);
        DiagnoseIsExact(v, door);
      }
    }
  }

  /** A publish is queued for exactly the registered, live shards with an accept schema of the
      payload's name and version. */
  lemma PublishReaches(b: Bus, v: Value, id: ShardId)
    ensures id in Recipients(b, ShapeOf(v), 1) <==>
            && 1 <= id < b.nextShard && id in b.shards && b.shards[id].alive
            && exists k: nat :: FirstDoor(b.shards[id].accept, v, k)
  {
    hide FirstDoor, AcceptMatch;
    BusGuarantees.RecipientsAreExact(b, ShapeOf(v), 1);
    if id in b.shards {
      DoorIsFirst(b.shards[id].accept, v);
    }
  }

  // ---- what is queued --------------------------------------------------------------------------

  /** One copy for each target, under consecutive tickets. */
  function Copies(msg: Message, targets: seq<ShardId>, ticket: nat, gated: bool): seq<Envelope> {
    seq(|targets|, i requires 0 <= i < |targets| => Envelope(msg, targets[i], ticket + i, gated))
  }

  /** What an operation of the host puts on the queue. */
  function Posted(b: Bus, op: Op): seq<Envelope> {
    match op
    case OpSend(target, msg) => [Envelope(msg, target, b.nextTicket, false)]
    case OpSendAs(id, target, msg) =>
      [Envelope(Message(msg.payload, id, msg.replyTo, msg.correlation), target, b.nextTicket, true)]
    case OpPublish(msg) => Copies(msg, Recipients(b, ShapeOf(msg.payload), 1), b.nextTicket, false)
    case OpPublishAs(id, msg) =>
      Copies(Message(msg.payload, id, msg.replyTo, msg.correlation), Recipients(b, ShapeOf(msg.payload), 1), b.nextTicket, true)
    case _ => []
  }

  /** What a handler puts on the queue. */
  function PostedBy(b: Bus, self: ShardId, acts: seq<Action>, ticket: nat): seq<Envelope>
    decreases |acts|
  {
    if acts == [] then []
    else
      match acts[0]
      case SendTo(target, msg) =>
        [Envelope(Message(msg.payload, self, msg.replyTo, msg.correlation), target, ticket, true)]
        + PostedBy(b, self, acts[1..], ticket + 1)
      case PublishIt(msg) =>
        var targets := Recipients(b, ShapeOf(msg.payload), 1);
        Copies(Message(msg.payload, self, msg.replyTo, msg.correlation), targets, ticket, true)
        + PostedBy(b, self, acts[1..], ticket + |targets|)
      case _ => PostedBy(b, self, acts[1..], ticket)
  }

  lemma CopiesQueued(b: Bus, msg: Message, targets: seq<ShardId>, gated: bool, who: Origin)
    ensures var c := EnqueueAll(b, msg, targets, gated, who);
            c.queue == b.queue + Copies(msg, targets, b.nextTicket, gated) && c.nextTicket == b.nextTicket + |targets|
  {
    hide EnqueueAll;
    BusGuarantees.PublishQueues(b, msg, targets, gated, who);
    var c := EnqueueAll(b, msg, targets, gated, who);
    assert c.queue == c.queue[..|b.queue|] + c.queue[|b.queue|..];
    assert c.queue[|b.queue|..] == Copies(msg, targets, b.nextTicket, gated);
  }

  /** c is b with more on the queue, and maybe asked to stop. */
  predicate OnlyQueued(b: Bus, c: Bus) {
    c == b.(queue := c.queue, journal := c.journal, nextTicket := c.nextTicket, origins := c.origins, stopRequested := c.stopRequested)
  }

  lemma {:induction false} EnqueueOnlyQueues(b: Bus, msg: Message, targets: seq<ShardId>, gated: bool, who: Origin)
    ensures var c := EnqueueAll(b, msg, targets, gated, who); OnlyQueued(b, c) && c.stopRequested == b.stopRequested
    decreases |targets|
  {
    if targets != [] {
      EnqueueOnlyQueues(Enqueue(b, msg, targets[0], gated, who), msg, targets[1..], gated, who);
    }
  }

  /** Recipients depend on the records alone. */
  lemma {:induction false} SameRecipients(b: Bus, c: Bus, shape: Shape, id: ShardId)
    requires OnlyQueued(b, c)
    ensures Recipients(b, shape, id) == Recipients(c, shape, id)
    decreases b.nextShard - id
  {
    if id < b.nextShard {
      SameRecipients(b, c, shape, id + 1);
    }
  }

  lemma ActQueues(b: Bus, self: ShardId, a: Action)
    ensures var c := Act(b, self, a);
            && OnlyQueued(b, c) && c.nextTicket == b.nextTicket + |PostedBy(b, self, [a], b.nextTicket)|
            && c.queue == b.queue + PostedBy(b, self, [a], b.nextTicket)
            && (c.stopRequested <==> b.stopRequested || a.AskStop?)
  {
    hide EnqueueAll, Recipients;
    assert [a][1..] == [];
    if a.PublishIt? {
      var msg, targets := a.msg.(sender := self), Recipients(b, ShapeOf(a.msg.payload), 1);
      CopiesQueued(b, msg, targets, true, Handler(self));
      EnqueueOnlyQueues(b, msg, targets, true, Handler(self));
    }
  }

  lemma {:induction false} PostedByOne(b: Bus, c: Bus, self: ShardId, acts: seq<Action>, ticket: nat)
    requires acts != [] && OnlyQueued(b, c)
    ensures PostedBy(b, self, acts, ticket) ==
            PostedBy(b, self, [acts[0]], ticket) + PostedBy(c, self, acts[1..], ticket + |PostedBy(b, self, [acts[0]], ticket)|)
    decreases |acts|
  {
    hide Recipients, Copies;
    assert [acts[0]][1..] == [];
    var one := PostedBy(b, self, [acts[0]], ticket);
    SamePosted(b, c, self, acts[1..], ticket + |one|);
    if acts[0].PublishIt? {
      CopiesCount(acts[0].msg.(sender := self), Recipients(b, ShapeOf(acts[0].msg.payload), 1), ticket, true);
    }
  }

  lemma CopiesCount(msg: Message, targets: seq<ShardId>, ticket: nat, gated: bool)
    ensures |Copies(msg, targets, ticket, gated)| == |targets|
  {
  }

  lemma {:induction false} SamePosted(b: Bus, c: Bus, self: ShardId, acts: seq<Action>, ticket: nat)
    requires OnlyQueued(b, c)
    ensures PostedBy(b, self, acts, ticket) == PostedBy(c, self, acts, ticket)
    decreases |acts|
  {
    hide Recipients, Copies, OnlyQueued;
    if acts != [] {
      if acts[0].PublishIt? {
        SameRecipients(b, c, ShapeOf(acts[0].msg.payload), 1);
        SamePosted(b, c, self, acts[1..], ticket + |Recipients(b, ShapeOf(acts[0].msg.payload), 1)|);
      } else {
        SamePosted(b, c, self, acts[1..], ticket);
        SamePosted(b, c, self, acts[1..], ticket + 1);
      }
    }
  }

  /** A handler's sends and publishes are queued behind what was there, in the order it made them,
      each under its own id to the target it named, or one copy for each recipient; and nothing else
      of the bus changes but a stop it asks for. */
  lemma {:induction false} HandlerQueues(b: Bus, self: ShardId, acts: seq<Action>)
    ensures var c := ActAll(b, self, acts);
            && OnlyQueued(b, c)
            && c.queue == b.queue + PostedBy(b, self, acts, b.nextTicket)
            && (c.stopRequested <==> b.stopRequested || AskStop in acts)
    decreases |acts|
  {
    hide Act, PostedBy;
    if acts == [] {
      assert PostedBy(b, self, acts, b.nextTicket) == [] by { NothingPosted(b, self, b.nextTicket); }
    } else {
      var b1 := Act(b, self, acts[0]);
      ActQueues(b, self, acts[0]);
      HandlerQueues(b1, self, acts[1..]);
      PostedByOne(b, b1, self, acts, b.nextTicket);
      assert acts == [acts[0]] + acts[1..];
    }
  }

  lemma NothingPosted(b: Bus, self: ShardId, ticket: nat)
    ensures PostedBy(b, self, [], ticket) == []
  {
  }

  lemma RegisterKeepsQueue(b: Bus, accepts: seq<Schema>, snapshot: Value, grant: seq<SendRule>)
    ensures RegisterShard(b, accepts, snapshot, grant).0.queue == b.queue
  {
    hide AdmitLive, Publish, Register;
  }

  predicate Lifecycle(op: Op) {
    op.OpRegister? || op.OpUnregister? || op.OpKill? || op.OpReload? || op.OpSwap? || op.OpStop?
  }

  lemma LifecycleKeepsQueue(b: Bus, op: Op)
    requires Lifecycle(op)
    ensures Apply(b, op).queue == b.queue
  {
    hide RegisterShard, UnregisterShard, Reload, SwapState, Kill, Conforms;
    match op
    case OpRegister(accepts, snapshot, grant) => RegisterKeepsQueue(b, accepts, snapshot, grant);
    case OpUnregister(id) => UnregisterDecides(b, id);
    case OpReload(id, policy, candidate) =>
      if id in b.shards {
        ReloadDecides(b, id, policy, candidate);
      } else {
        UnknownReload(b, id, policy, candidate);
      }
    case OpSwap(id, candidate) => SwapDecides(b, id, candidate);
    case OpKill(id) => KillDecides(b, id);
    case OpStop =>
  }

  /** The host's sends and publishes are queued the same way; no other operation of the host but a
      pump touches the queue. */
  lemma HostQueues(b: Bus, op: Op)
    requires !op.OpPump? && !op.OpResume?
    ensures Apply(b, op).queue == b.queue + Posted(b, op)
  {
    hide EnqueueAll, Recipients, Copies, RegisterShard, UnregisterShard, Reload, SwapState, Kill, Conforms;
    assert b.queue + [] == b.queue;
    match op
    case OpSend(_, _) =>
    case OpSendAs(_, _, _) =>
    case OpPublish(msg) => CopiesQueued(b, msg, Recipients(b, ShapeOf(msg.payload), 1), false, Root);
    case OpPublishAs(id, msg) =>
      CopiesQueued(b, msg.(sender := id), Recipients(b, ShapeOf(msg.payload), 1), true, Host(id));
    case _ => LifecycleKeepsQueue(b, op);
  }

  // ---- stopping ----------------------------------------------------------------------------------

  /** A handler's request to stop ends the dispatch with the delivery it is made in, whatever is
      still queued. */
  lemma StopIsHeeded(b: Bus, acts: seq<Action>, more: seq<seq<Action>>)
    requires b.queue != [] && !b.stopRequested && AskStop in acts
    requires Judge(b.(queue := b.queue[1..]), b.queue[0]).Delivered?
    ensures var c := Dispatch(b, [acts] + more);
            && !c.inDispatch && c.handled == b.handled + [b.queue[0]] && |c.log| == |b.log| + 1
            && b.queue[1..] <= c.queue
  {
    hide Judge, ActAll, Conforms;
    var b1 := b.(queue := b.queue[1..]);
    var b2 := b1.(handled := b1.handled + [b.queue[0]]);
    HandlerQueues(b2, b.queue[0].target, acts);
    assert ([acts] + more)[0] == acts && ([acts] + more)[1..] == more;
    var d := Deliver(b1, b.queue[0], acts);
    assert d.stopRequested;
    assert Dispatch(d, more) == d.(inDispatch := false);
  }

  /** A stop asked for before a pump is forgotten when it starts. */
  lemma PumpStartsAfresh(b: Bus, script: seq<seq<Action>>)
    requires !b.inDispatch
    ensures Pumped(Apply(b, OpStop), script) == Pumped(b, script)
    ensures b.queue != [] && script != [] ==> |Pumped(b, script).log| > |b.log|
  {
    hide Judge, ActAll, Conforms;
    if b.queue != [] && script != [] {
      var b1 := b.(inDispatch := true, stopRequested := false, queue := b.queue[1..]);
      var b2 := b1.(handled := b1.handled + [b.queue[0]]);
      HandlerQueues(b2, b.queue[0].target, script[0]);
      LogGrows(Deliver(b1, b.queue[0], script[0]), script[1..]);
    }
  }

  lemma {:induction false} LogGrows(b: Bus, script: seq<seq<Action>>)
    ensures |Dispatch(b, script).log| >= |b.log|
    decreases |script|
  {
    hide Judge, ActAll, Conforms;
    if !(b.queue == [] || b.stopRequested) && script != [] {
      var c := b.(queue := b.queue[1..]);
      HandlerQueues(c.(handled := c.handled + [b.queue[0]]), b.queue[0].target, script[0]);
      LogGrows(Deliver(c, b.queue[0], script[0]), script[1..]);
    }
  }

  // ---- registration --------------------------------------------------------------------------------

  /** No schema of the list, nor the state schema, is published with another content id, and none is
      listed twice with two. */
  predicate NoConflict(m: Schemas, ss: seq<Schema>)
    decreases |ss|
  {
    ss == [] || ((KeyOf(ss[0]) in m ==> m[KeyOf(ss[0])].id == ss[0].id) &&
                 NoConflict(if KeyOf(ss[0]) in m then m else m[KeyOf(ss[0]) := ss[0]], ss[1..]))
  }

  lemma {:induction false} EachRegisters(m: Schemas, ss: seq<Schema>, last: Schema)
    ensures RegisterEach(m, ss).1.Some? <==> NoConflict(m, ss)
    ensures RegisterEach(m, ss).1.Some? && !Register(RegisterEach(m, ss).0, last).Conflict? <==> NoConflict(m, ss + [last])
    decreases |ss|
  {
    if ss == [] {
      assert ([] + [last])[1..] == [];
    } else {
      assert (ss + [last])[1..] == ss[1..] + [last];
      EachRegisters(Publish(m, ss[0]), ss[1..], last);
    }
  }

  /** Registration succeeds exactly when no declared schema is in conflict and the snapshot conforms
      to its own schema; then the next id names a live record with the grant offered, the accept-set
      declared, in order, and the snapshot as last-known-good, no revival spent; every other record,
      and all traffic, stay as they were. A failed one adds no record. */
  lemma RegisterDecides(b: Bus, accepts: seq<Schema>, snapshot: Value, grant: seq<SendRule>)
    requires Reachable(b)
    ensures var (c, id) := RegisterShard(b, accepts, snapshot, grant);
            && (id.Some? <==> NoConflict(b.registry, accepts + [snapshot.schema]) && Conforms(snapshot, snapshot.schema))
            && c.queue == b.queue && c.journal == b.journal && c.handled == b.handled && c.log == b.log && c.restored == b.restored
            && (id.None? ==> c.shards == b.shards && c.nextShard == b.nextShard)
            && (id.Some? ==>
                  && id.value == b.nextShard && c.nextShard == b.nextShard + 1 && id.value !in b.shards
                  && c.shards.Keys == b.shards.Keys + {id.value} && (forall i :: i in b.shards ==> c.shards[i] == b.shards[i])
                  && var r := c.shards[id.value];
                     && r == Record(r.accept, snapshot.schema, snapshot, grant, 0, true)
                     && |r.accept| == |accepts|
                     && forall i :: 0 <= i < |accepts| ==> KeyOf(r.accept[i]) == KeyOf(accepts[i]) && r.accept[i].id == accepts[i].id)
  {
    hide Inv, RegisterEach, AdmitLive, Conforms, Keyed, Extends, NoConflict, Register;
    assert Keyed(b.registry) by { RegistryIsKeyed(b); }
    assert b.nextShard !in b.shards by { NextIsFree(b); }
    EachIsCanonical(b.registry, accepts);
    EachRegisters(b.registry, accepts, snapshot.schema);
    AdmissionRun.LiveAdmits(snapshot, snapshot.schema, false);
  }

  lemma NextIsFree(b: Bus)
    requires Reachable(b)
    ensures b.nextShard !in b.shards
  {
    hide Inv;
    if b.nextShard in b.shards {
      KnownIsOld(b, b.nextShard);
    }
  }

  // ---- lifecycle -----------------------------------------------------------------------------------

  /** What a reload decides, each way under exactly one condition; that it hands the shard
      precisely the admitted candidate or the last-known-good, spending one, or nothing at all; and
      what it announces. */
  lemma ReloadDecides(b: Bus, id: ShardId, policy: Value, candidate: bytes)
    requires id in b.shards
    ensures var (c, out) := Reload(b, id, policy, candidate);
            var r := b.shards[id];
            var a := AdmitBytes(candidate, r.stateSchema);
            && (out.PolicyMalformed? <==> !Conforms(policy, PolicySchema()))
            && (Conforms(policy, PolicySchema()) ==>
                  var left := r.reloadsUsed < PolicyOf(policy).maxReloads;
                  && (out.Exhausted? <==> !left)
                  && (out.RevivedFresh? <==> left && a.Accepted?)
                  && (out.RevivedLastGood? <==> left && a.Rejected? && PolicyOf(policy).reviveFromLastGood)
                  && (out.CandidateRefused? <==> left && a.Rejected? && !PolicyOf(policy).reviveFromLastGood))
            && (out.RevivedFresh? ==> c == Handed(b, id, a.value, 1, None))
            && (out.RevivedLastGood? ==> a.Rejected? && c == Handed(b, id, r.lastKnownGood, 1, Some(GateRefused(FirstError(a)))))
            && (out.CandidateRefused? ==> a.Rejected? && c == Refusing(b, id, GateRefused(FirstError(a))))
            && (out.PolicyMalformed? || out.Exhausted? ==> c == b)
  {
    hide AdmitLive, AdmitBytes, Conforms, PolicySchema, PolicyOf;
    AdmissionRun.LiveAdmits(policy, PolicySchema(), false);
  }

  /** The bus once a state was handed to a shard's revive: it is the last-known-good, the shard is
      alive, and the revival was announced, with the refusal it fell back from if it did. */
  function Handed(b: Bus, id: ShardId, v: Value, spent: nat, fallback: Option<Refusal>): Bus
    requires id in b.shards
  {
    var r := b.shards[id];
    b.(shards := b.shards[id := Record(r.accept, r.stateSchema, v, r.grant, r.reloadsUsed + spent, true)],
       restored := b.restored + [(id, v)],
       log := b.log + [Revived(id, Shape(r.stateSchema.name, r.stateSchema.version), fallback.Some?, fallback)])
  }

  /** The bus once a revival was refused and announced as refused. */
  function Refusing(b: Bus, id: ShardId, why: Refusal): Bus
    requires id in b.shards
  {
    var r := b.shards[id];
    b.(log := b.log + [RevivalRefused(id, Shape(r.stateSchema.name, r.stateSchema.version), why)])
  }

  /** A swap hands over the candidate, off the budget, exactly when it is admitted under the shard's
      state schema; otherwise no record changes and the refusal is announced. Unlike a reload it never
      falls back to the last-known-good. */
  lemma SwapDecides(b: Bus, id: ShardId, candidate: bytes)
    ensures var (c, out) := SwapState(b, id, candidate);
            if id !in b.shards then out == Unknown && c == b
            else
              var a := AdmitBytes(candidate, b.shards[id].stateSchema);
              if a.Accepted? then out == RevivedFresh && c == Handed(b, id, a.value, 0, None)
              else out == CandidateRefused(FirstError(a)) && c == Refusing(b, id, GateRefused(FirstError(a)))
  {
    hide AdmitBytes;
  }

  /** Killing marks the one record dead and announces it. */
  lemma KillDecides(b: Bus, id: ShardId)
    ensures id !in b.shards ==> Kill(b, id) == b
    ensures id in b.shards ==>
              var r := b.shards[id];
              Kill(b, id) == b.(shards := b.shards[id := Record(r.accept, r.stateSchema, r.lastKnownGood, r.grant, r.reloadsUsed, false)],
                                log := b.log + [Died(id, Shape(r.stateSchema.name, r.stateSchema.version))])
  {
  }

  /** Unregistering takes the one record off the bus; every other record, the queue, the journal,
      the registry and what was announced stay as they were. */
  lemma UnregisterDecides(b: Bus, id: ShardId)
    ensures var c := UnregisterShard(b, id);
            && id !in c.shards && c.shards.Keys == b.shards.Keys - {id} && (forall i :: i in c.shards ==> c.shards[i] == b.shards[i])
            && c == b.(shards := c.shards, departed := c.departed)
            && (id in b.shards ==> c.departed == b.departed[id := |b.handled|])
            && (id !in b.shards ==> c == b)
  {
  }

  // ---- the last-known-good ---------------------------------------------------------------------------

  /** The last state handed to id from the n-th on, or v if none was. */
  function LastHanded(restored: seq<(ShardId, Value)>, n: nat, id: ShardId, v: Value): Value
    requires n <= |restored|
    decreases |restored|
  {
    if n == |restored| then v
    else
      var last := restored[|restored| - 1];
      if last.0 == id then last.1 else LastHanded(restored[..|restored| - 1], n, id, v)
  }

  lemma {:induction false} LastHandedOn(cs: seq<(ShardId, Value)>, ds: seq<(ShardId, Value)>, n: nat, id: ShardId, v: Value)
    requires cs <= ds && n <= |cs|
    ensures LastHanded(ds, n, id, v) == LastHanded(ds, |cs|, id, LastHanded(cs, n, id, v))
    decreases |ds|
  {
    if ds != cs {
      assert cs <= ds[..|ds| - 1];
      LastHandedOn(cs, ds[..|ds| - 1], n, id, v);
    }
  }

  /** id kept its record, and its last-known-good is the last state it was handed since. */
  ghost predicate Holds(b: Bus, c: Bus, id: ShardId)
    requires id in b.shards
  {
    && b.restored <= c.restored
    && (id in c.shards ==> c.shards[id].lastKnownGood == LastHanded(c.restored, |b.restored|, id, b.shards[id].lastKnownGood))
  }

  lemma HoldsTransitive(b: Bus, c: Bus, d: Bus, id: ShardId)
    requires id in b.shards && id in c.shards && Holds(b, c, id) && Holds(c, d, id)
    ensures Holds(b, d, id)
  {
    LastHandedOn(c.restored, d.restored, |b.restored|, id, b.shards[id].lastKnownGood);
  }

  lemma HandedHolds(b: Bus, i: ShardId, v: Value, spent: nat, fallback: Option<Refusal>, id: ShardId)
    requires i in b.shards && id in b.shards
    ensures Holds(b, Handed(b, i, v, spent, fallback), id)
  {
    var c := Handed(b, i, v, spent, fallback);
    assert c.restored[..|c.restored| - 1] == b.restored;
  }

  lemma SameHolds(b: Bus, c: Bus, id: ShardId)
    requires id in b.shards && c.restored == b.restored
    requires id in c.shards ==> c.shards[id].lastKnownGood == b.shards[id].lastKnownGood
    ensures Holds(b, c, id)
  {
  }

  lemma DispatchHolds(b: Bus, script: seq<seq<Action>>)
    ensures Dispatch(b, script).restored == b.restored && Dispatch(b, script).nextShard == b.nextShard
    decreases |script|
  {
    hide Judge, ActAll;
    if !(b.queue == [] || b.stopRequested) && script != [] {
      var c := b.(queue := b.queue[1..]);
      HandlerQueues(c.(handled := c.handled + [b.queue[0]]), b.queue[0].target, script[0]);
      DispatchHolds(Deliver(c, b.queue[0], script[0]), script[1..]);
    }
  }

  lemma ApplyHolds(b: Bus, op: Op, id: ShardId)
    requires Reachable(b) && id in b.shards
    ensures Holds(b, Apply(b, op), id)
  {
    hide Inv, RegisterShard, UnregisterShard, Kill, Reload, SwapState, Dispatch, EnqueueAll, Recipients, Handed, Refusing, Holds,
         PolicySchema, AdmitBytes, Conforms, PolicyOf, NoConflict, LastHanded;
    var c := Apply(b, op);
    match op
    case OpRegister(accepts, snapshot, grant) =>
      RegisterDecides(b, accepts, snapshot, grant);
      SameHolds(b, c, id);
    case OpUnregister(i) =>
      UnregisterDecides(b, i);
      SameHolds(b, c, id);
    case OpKill(i) =>
      KillDecides(b, i);
      SameHolds(b, c, id);
    case OpReload(i, policy, candidate) => ReloadHolds(b, i, policy, candidate, id);
    case OpSwap(i, candidate) => SwapHolds(b, i, candidate, id);
    case OpPump(script) =>
      var b1 := b.(inDispatch := true, stopRequested := false);
      DispatchHolds(b1, script);
      BusGuarantees.DispatchKeepsShards(b1, script);
      SameHolds(b, c, id);
    case OpResume(script) =>
      DispatchHolds(b, script);
      BusGuarantees.DispatchKeepsShards(b, script);
      SameHolds(b, c, id);
    case OpPublish(msg) =>
      EnqueueOnlyQueues(b, msg, Recipients(b, ShapeOf(msg.payload), 1), false, Root);
      SameHolds(b, c, id);
    case OpPublishAs(i, msg) =>
      EnqueueOnlyQueues(b, msg.(sender := i), Recipients(b, ShapeOf(msg.payload), 1), true, Host(i));
      SameHolds(b, c, id);
    case _ => SameHolds(b, c, id);
  }

  lemma ReloadHolds(b: Bus, i: ShardId, policy: Value, candidate: bytes, id: ShardId)
    requires id in b.shards
    ensures Holds(b, Reload(b, i, policy, candidate).0, id)
  {
    hide Reload, Handed, Holds, PolicySchema, AdmitBytes, Conforms, PolicyOf, LastHanded;
    SameHolds(b, b, id);
    if i in b.shards {
      ReloadDecides(b, i, policy, candidate);
      var r, a := b.shards[i], AdmitBytes(candidate, b.shards[i].stateSchema);
      var (c, out) := Reload(b, i, policy, candidate);
      if out.RevivedFresh? {
        HandedHolds(b, i, a.value, 1, None, id);
      } else if out.RevivedLastGood? {
        HandedHolds(b, i, r.lastKnownGood, 1, Some(GateRefused(FirstError(a))), id);
      } else if out.CandidateRefused? {
        SameHolds(b, Refusing(b, i, GateRefused(FirstError(a))), id);
      }
    } else {
      assert Reload(b, i, policy, candidate).0 == b by { UnknownReload(b, i, policy, candidate); }
    }
  }

  lemma UnknownReload(b: Bus, i: ShardId, policy: Value, candidate: bytes)
    requires i !in b.shards
    ensures Reload(b, i, policy, candidate) == (b, Unknown)
  {
  }

  lemma SwapHolds(b: Bus, i: ShardId, candidate: bytes, id: ShardId)
    requires id in b.shards
    ensures Holds(b, SwapState(b, i, candidate).0, id)
  {
    hide SwapState, Handed, Holds, AdmitBytes, LastHanded;
    SwapDecides(b, i, candidate);
    SameHolds(b, b, id);
    if i in b.shards {
      var a := AdmitBytes(candidate, b.shards[i].stateSchema);
      if a.Accepted? {
        HandedHolds(b, i, a.value, 0, None, id);
      } else {
        SameHolds(b, Refusing(b, i, GateRefused(FirstError(a))), id);
      }
    }
  }

  /** Over any run, the last-known-good of a shard that stays is the last state its revive was
      handed, or what it was before if it was handed none. */
  lemma {:induction false} LastGoodIsLastHanded(b: Bus, ops: seq<Op>, id: ShardId)
    requires Reachable(b) && id in b.shards
    ensures var c := Run(b, ops);
            && b.restored <= c.restored
            && (id in c.shards ==>
                  c.shards[id].lastKnownGood == LastHanded(c.restored, |b.restored|, id, b.shards[id].lastKnownGood))
    decreases |ops|
  {
    hide Inv, Apply, LastHanded;
    if ops == [] {
      SameHolds(b, b, id);
    } else {
      var b1 := Apply(b, ops[0]);
      ApplyKeeps(b, ops[0]);
      ApplyHolds(b, ops[0], id);
      if id in b1.shards {
        LastGoodIsLastHanded(b1, ops[1..], id);
        HoldsTransitive(b, b1, Run(b1, ops[1..]), id);
      } else {
        BusGuarantees.NothingIsTakenBack(b, ops);
        assert id < b1.nextShard by { IdsOnlyGrow(b, ops[0], id); }
        GoneStaysGone(b1, ops[1..], id);
      }
    }
  }

  lemma IdsOnlyGrow(b: Bus, op: Op, id: ShardId)
    requires Reachable(b) && id in b.shards
    ensures id < Apply(b, op).nextShard
  {
    hide Inv, Apply;
    KnownIsOld(b, id);
    BusGuarantees.ApplyLater(b, op);
  }

  // ---- gone for good -----------------------------------------------------------------------------------

  /** From b to c nothing happened to id but that its deliveries were refused for want of a target. */
  ghost predicate Refusals(b: Bus, c: Bus, id: ShardId) {
    && b.handled <= c.handled && b.log <= c.log && b.restored <= c.restored
    && (forall i :: |b.handled| <= i < |c.handled| ==> c.handled[i].target != id)
    && (forall i :: |b.restored| <= i < |c.restored| ==> c.restored[i].0 != id)
    && (forall k :: |b.log| <= k < |c.log| && c.log[k].target == id ==> c.log[k].Decided? && c.log[k].outcome == Declined(NoSuchTarget))
  }

  /** No shard of this id is there, nor will one be registered. */
  predicate Gone(b: Bus, id: ShardId) { id !in b.shards && id < b.nextShard }

  lemma RefusalsTransitive(b: Bus, c: Bus, d: Bus, id: ShardId)
    requires Refusals(b, c, id) && Refusals(c, d, id)
    ensures Refusals(b, d, id)
  {
    forall i | |b.handled| <= i < |d.handled| ensures d.handled[i].target != id {
      if i < |c.handled| {
        assert d.handled[i] == c.handled[i];
      }
    }
    forall i | |b.restored| <= i < |d.restored| ensures d.restored[i].0 != id {
      if i < |c.restored| {
        assert d.restored[i] == c.restored[i];
      }
    }
    forall k | |b.log| <= k < |d.log| && d.log[k].target == id ensures d.log[k].Decided? && d.log[k].outcome == Declined(NoSuchTarget) {
      if k < |c.log| {
        assert d.log[k] == c.log[k];
      }
    }
  }

  lemma SilentRefusals(b: Bus, c: Bus, id: ShardId)
    requires c.handled == b.handled && c.log == b.log && c.restored == b.restored
    ensures Refusals(b, c, id)
  {
  }

  lemma OneMore(b: Bus, c: Bus, id: ShardId, e: Event)
    requires c.handled == b.handled && c.log == b.log + [e]
    requires e.target == id ==> e.Decided? && e.outcome == Declined(NoSuchTarget)
    requires b.restored <= c.restored && forall i :: |b.restored| <= i < |c.restored| ==> c.restored[i].0 != id
    ensures Refusals(b, c, id)
  {
  }

  /** A delivery meant for id is refused; one for another leaves id alone. */
  lemma DeliverRefuses(b: Bus, env: Envelope, acts: seq<Action>, id: ShardId)
    requires Gone(b, id)
    ensures var c := Deliver(b, env, acts); Gone(c, id) && Refusals(b, c, id)
  {
    hide Judge, ActAll, Conforms;
    var e := Decided(env.ticket, env.target, env.msg.sender, ShapeOf(env.msg.payload), Judge(b, env));
    if Judge(b, env).Delivered? {
      assert env.target != id by { NotForGone(b, env, id); }
      HandlerQueues(b.(handled := b.handled + [env]), env.target, acts);
    } else {
      DeliveryOfGone(b, env, id);
      OneMore(b, Deliver(b, env, acts), id, e);
    }
  }

  lemma NotForGone(b: Bus, env: Envelope, id: ShardId)
    requires Gone(b, id) && Judge(b, env).Delivered?
    ensures env.target != id
  {
    DeliveryDecides(b, env);
  }

  lemma DeliveryOfGone(b: Bus, env: Envelope, id: ShardId)
    requires Gone(b, id)
    ensures env.target == id ==> Judge(b, env) == Declined(NoSuchTarget)
  {
    hide Judge, Conforms;
    DeliveryDecides(b, env);
  }

  lemma {:induction false} DispatchRefuses(b: Bus, script: seq<seq<Action>>, id: ShardId)
    requires Gone(b, id)
    ensures var c := Dispatch(b, script); Gone(c, id) && Refusals(b, c, id)
    decreases |script|
  {
    hide Deliver, Refusals;
    if b.queue == [] || b.stopRequested || script == [] {
      SilentRefusals(b, Dispatch(b, script), id);
    } else {
      var c := b.(queue := b.queue[1..]);
      var d := Deliver(c, b.queue[0], script[0]);
      SilentRefusals(b, c, id);
      DeliverRefuses(c, b.queue[0], script[0], id);
      DispatchRefuses(d, script[1..], id);
      RefusalsTransitive(b, c, d, id);
      RefusalsTransitive(b, d, Dispatch(d, script[1..]), id);
    }
  }

  lemma KillRefuses(b: Bus, i: ShardId, id: ShardId)
    requires Gone(b, id)
    ensures Gone(Kill(b, i), id) && Refusals(b, Kill(b, i), id)
  {
    hide Kill, Conforms, Refusals;
    SilentRefusals(b, b, id);
    KillDecides(b, i);
    if i in b.shards {
      OneMore(b, Kill(b, i), id, Died(i, StateShape(b.shards[i])));
    }
  }

  lemma HandedRefuses(b: Bus, i: ShardId, v: Value, spent: nat, fallback: Option<Refusal>, id: ShardId)
    requires Gone(b, id) && i in b.shards
    ensures Gone(Handed(b, i, v, spent, fallback), id) && Refusals(b, Handed(b, i, v, spent, fallback), id)
  {
    hide Conforms, Refusals;
    OneMore(b, Handed(b, i, v, spent, fallback), id, Revived(i, StateShape(b.shards[i]), fallback.Some?, fallback));
  }

  lemma RefusingRefuses(b: Bus, i: ShardId, why: Refusal, id: ShardId)
    requires Gone(b, id) && i in b.shards
    ensures Gone(Refusing(b, i, why), id) && Refusals(b, Refusing(b, i, why), id)
  {
    hide Conforms, Refusals;
    OneMore(b, Refusing(b, i, why), id, RevivalRefused(i, StateShape(b.shards[i]), why));
  }

  lemma SwapRefuses(b: Bus, i: ShardId, candidate: bytes, id: ShardId)
    requires Gone(b, id)
    ensures Gone(SwapState(b, i, candidate).0, id) && Refusals(b, SwapState(b, i, candidate).0, id)
  {
    hide SwapState, Handed, Refusing, AdmitBytes, Gone, Refusals;
    SilentRefusals(b, b, id);
    SwapDecides(b, i, candidate);
    if i in b.shards {
      var a := AdmitBytes(candidate, b.shards[i].stateSchema);
      if a.Accepted? {
        HandedRefuses(b, i, a.value, 0, None, id);
      } else {
        RefusingRefuses(b, i, GateRefused(FirstError(a)), id);
      }
    }
  }

  lemma ReloadRefuses(b: Bus, i: ShardId, policy: Value, candidate: bytes, id: ShardId)
    requires Gone(b, id)
    ensures Gone(Reload(b, i, policy, candidate).0, id) && Refusals(b, Reload(b, i, policy, candidate).0, id)
  {
    hide Reload, Handed, Refusing, PolicySchema, AdmitBytes, Conforms, PolicyOf, Gone, Refusals;
    SilentRefusals(b, b, id);
    if i !in b.shards {
      UnknownReload(b, i, policy, candidate);
    } else {
      ReloadDecides(b, i, policy, candidate);
      var a, r := AdmitBytes(candidate, b.shards[i].stateSchema), b.shards[i];
      if a.Accepted? {
        HandedRefuses(b, i, a.value, 1, None, id);
      } else {
        var why := GateRefused(FirstError(a));
        HandedRefuses(b, i, r.lastKnownGood, 1, Some(why), id);
        RefusingRefuses(b, i, why, id);
      }
    }
  }

  lemma ApplyRefuses(b: Bus, op: Op, id: ShardId)
    requires Reachable(b) && Gone(b, id)
    ensures Gone(Apply(b, op), id) && Refusals(b, Apply(b, op), id)
  {
    hide Inv, RegisterShard, UnregisterShard, Kill, Reload, SwapState, Dispatch, EnqueueAll, Recipients, Refusals, Conforms, NoConflict;
    var c := Apply(b, op);
    match op
    case OpRegister(accepts, snapshot, grant) =>
      RegisterDecides(b, accepts, snapshot, grant);
      SilentRefusals(b, c, id);
    case OpUnregister(i) =>
      UnregisterDecides(b, i);
      SilentRefusals(b, c, id);
    case OpKill(i) => KillRefuses(b, i, id);
    case OpReload(i, policy, candidate) => ReloadRefuses(b, i, policy, candidate, id);
    case OpSwap(i, candidate) => SwapRefuses(b, i, candidate, id);
    case OpPump(script) =>
      var b1 := b.(inDispatch := true, stopRequested := false);
      SilentRefusals(b, b1, id);
      SilentRefusals(b, b, id);
      DispatchRefuses(b1, script, id);
      RefusalsTransitive(b, b1, Dispatch(b1, script), id);
    case OpResume(script) =>
      SilentRefusals(b, b, id);
      DispatchRefuses(b, script, id);
    case OpPublish(msg) =>
      EnqueueOnlyQueues(b, msg, Recipients(b, ShapeOf(msg.payload), 1), false, Root);
      SilentRefusals(b, c, id);
    case OpPublishAs(i, msg) =>
      EnqueueOnlyQueues(b, msg.(sender := i), Recipients(b, ShapeOf(msg.payload), 1), true, Host(i));
      SilentRefusals(b, c, id);
    case _ => SilentRefusals(b, c, id);
  }

  lemma {:induction false} GoneStaysGone(b: Bus, ops: seq<Op>, id: ShardId)
    requires Reachable(b) && Gone(b, id)
    ensures var c := Run(b, ops); Gone(c, id) && Refusals(b, c, id)
    decreases |ops|
  {
    hide Inv, Apply, Gone, Refusals;
    if ops == [] {
      SilentRefusals(b, b, id);
    } else {
      ApplyRefuses(b, ops[0], id);
      ApplyKeeps(b, ops[0]);
      GoneStaysGone(Apply(b, ops[0]), ops[1..], id);
      RefusalsTransitive(b, Apply(b, ops[0]), Run(Apply(b, ops[0]), ops[1..]), id);
    }
  }

  /** Unregistration is for good: whatever is done afterwards, no shard of that id is on the bus
      again, its handler is never called and its revive never either, and every delivery to it,
      queued before or after, is refused for want of a target. */
  lemma UnregisteredIsGone(b: Bus, id: ShardId, ops: seq<Op>)
    requires Reachable(b) && id in b.shards
    ensures var b1 := Apply(b, OpUnregister(id)); var c := Run(b1, ops);
            && id !in c.shards
            && b.handled <= c.handled && b.log <= c.log && b.restored <= c.restored
            && (forall i :: |b.handled| <= i < |c.handled| ==> c.handled[i].target != id)
            && (forall i :: |b.restored| <= i < |c.restored| ==> c.restored[i].0 != id)
            && (forall k :: |b.log| <= k < |c.log| && c.log[k].target == id ==>
                  c.log[k].Decided? && c.log[k].outcome == Declined(NoSuchTarget))
  {
    hide Inv, UnregisterShard, Run;
    UnregisterDecides(b, id);
    KnownIsOld(b, id);
    ApplyKeeps(b, OpUnregister(id));
    GoneStaysGone(Apply(b, OpUnregister(id)), ops, id);
  }
}
