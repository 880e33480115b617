/** The bus as it runs (src/switchboard/switchboard.cpp): one object, updated in place, whose
    every method takes its state where the transition system of module Bus says. */
module Switchboard {
  import opened Bytes
  import opened Model
  import opened Gate
  import opened Admission
  import opened AdmissionRun
  import opened Registry
  import opened Grant
  import opened Bus
  import Spec = Bus

  class Switchboard {
    const registry: Registry
    var shards: map<ShardId, Record>
    var nextShard: ShardId
    var queue: seq<Envelope>
    var journal: seq<Outcome>
    var nextTicket: nat
    var inDispatch: bool
    var stopRequested: bool
    var log: seq<Event>
    ghost var origins: seq<Origin>
    var handled: seq<Envelope>
    ghost var granted: map<ShardId, seq<SendRule>>
    ghost var departed: map<ShardId, nat>
    ghost var stated: map<ShardId, Schema>
    ghost var restored: seq<(ShardId, Value)>

    ghost function State(): Bus
      reads this, registry
    {
      Bus(registry.current, shards, nextShard, queue, journal, nextTicket, inDispatch, stopRequested, log,
          origins, handled, granted, departed, stated, restored)
    }

    constructor ()
      ensures State() == NEW_BUS && fresh(registry)
    {
      registry := new Registry();
      shards, nextShard := map[], 1;
      queue, journal, nextTicket := [], [Pending], 1;
      inDispatch, stopRequested, log := false, false, [];
      origins, handled, granted, departed, stated, restored := [Root], [], map[], map[], map[], [];
    }

    // ---- registration ------------------------------------------------------------------------

    /** The accept-set, answered by the registry's own schemas; None at the first conflict. */
    method RegisterAccepts(accepts: seq<Schema>) returns (canonical: Option<seq<Schema>>)
      modifies registry
      ensures (registry.current, canonical) == RegisterEach(old(registry.current), accepts)
    {
      var accept: seq<Schema> := [];
      ghost var start := registry.current;
      PrependNothing(RegisterEach(start, accepts));
      assert accepts[0..] == accepts;
      var i := 0;
      while i < |accepts|
        invariant i <= |accepts| == |accepts[i..]| + i
        invariant RegisterEach(start, accepts) == Prepend(accept, RegisterEach(registry.current, accepts[i..]))
      {
        assert accepts[i..][0] == accepts[i] && accepts[i..][1..] == accepts[i + 1..];
        var r := registry.RegisterSchema(accepts[i]);
        if r.Conflict? {
          return None;
        }
        PrependTwice(accept, r.schema, RegisterEach(registry.current, accepts[i + 1..]));
        accept := accept + [r.schema];
        i := i + 1;
      }
      assert accept + [] == accept;
      canonical := Some(accept);
    }

    method Adopt(accept: seq<Schema>, snapshot: Value, grant: seq<SendRule>) returns (id: Option<ShardId>)
      modifies this, registry
      ensures (State(), id) == Spec.Adopt(old(State()), accept, snapshot, grant)
    {
      hide AdmitLive;
      var r := registry.RegisterSchema(snapshot.schema);
      if r.Conflict? {
        return None;
      }
      var seeded := AdmitValue(snapshot, snapshot.schema, false);
      if seeded.Rejected? {
        return None;
      }
      id := Some(nextShard);
      granted := granted[nextShard := grant];
      stated := stated[nextShard := snapshot.schema];
      shards := shards[nextShard := Record(accept, snapshot.schema, seeded.value, grant, 0, true)];
      nextShard := nextShard + 1;
    }

    method RegisterShard(accepts: seq<Schema>, snapshot: Value, grant: seq<SendRule>) returns (id: Option<ShardId>)
      modifies this, registry
      ensures (State(), id) == Spec.RegisterShard(old(State()), accepts, snapshot, grant)
    {
      hide RegisterEach, Spec.Adopt;
      var canonical := RegisterAccepts(accepts);
      if canonical.None? {
        return None;
      }
      id := Adopt(canonical.value, snapshot, grant);
    }

    method UnregisterShard(id: ShardId) returns (known: bool)
      modifies this
      ensures State() == Spec.UnregisterShard(old(State()), id)
      ensures known == (id in old(shards))
    {
      if id !in shards {
        return false;
      }
      departed := departed[id := |handled|];
      shards := shards - {id};
      return true;
    }

    // ---- enqueueing ----------------------------------------------------------------------------

    method EnqueueDirected(target: ShardId, msg: Message, gated: bool, ghost who: Origin) returns (ticket: nat)
      modifies this
      ensures State() == Enqueue(old(State()), msg, target, gated, who) && ticket == old(nextTicket)
      ensures inDispatch == old(inDispatch)
    {
      ticket := nextTicket;
      nextTicket := nextTicket + 1;
      journal := journal + [Pending];
      origins := origins + [who];
      queue := queue + [Envelope(msg, target, ticket, gated)];
    }

    /** One copy for every live shard that accepts the shape, in ascending id order. */
    method FanOut(msg: Message, gated: bool, ghost who: Origin) returns (recipients: nat)
      modifies this
      ensures State() == Fanout(old(State()), msg, gated, who) && inDispatch == old(inDispatch)
      ensures recipients == |Recipients(old(State()), ShapeOf(msg.payload), 1)|
    {
      hide Enqueue, AcceptMatch;
      var shape := ShapeOf(msg.payload);
      ghost var start := State();
      ghost var all := Recipients(start, shape, 1);
      recipients := 0;
      var id := 1;
      while id < nextShard
        invariant inDispatch == start.inDispatch
        invariant 1 <= id && nextShard == start.nextShard && shards == start.shards
        invariant EnqueueAll(start, msg, all, gated, who) == EnqueueAll(State(), msg, Recipients(start, shape, id), gated, who)
        invariant recipients + |Recipients(start, shape, id)| == |all|
      {
        ghost var rest := Recipients(start, shape, id + 1);
        assert Recipients(start, shape, id) == (if Receives(start, id, shape) then [id] else []) + rest;
        if id in shards && shards[id].alive {
          var door := FindDoor(shards[id].accept, shape);
          if door.Some? {
            assert ([id] + rest)[1..] == rest;
            ghost var before := State();
            var ticket := EnqueueDirected(id, msg, gated, who);
            EnqueueTouches(before, msg, id, gated, who);
            recipients := recipients + 1;
          } else {
            assert [] + rest == rest;
          }
        } else {
          assert [] + rest == rest;
        }
        id := id + 1;
      }
    }

    /** Host root authority: ungated. */
    method Send(target: ShardId, msg: Message) returns (ticket: nat)
      modifies this
      ensures State() == Spec.Send(old(State()), target, msg) && ticket == old(nextTicket)
    {
      ticket := EnqueueDirected(target, msg, false, Root);
    }

    method Publish(msg: Message) returns (recipients: nat)
      modifies this
      ensures State() == PublishMessage(old(State()), msg)
      ensures recipients == |Recipients(old(State()), ShapeOf(msg.payload), 1)|
    {
      recipients := FanOut(msg, false, Root);
    }

    /** The gated path: the sender is stamped, whatever the message claims. */
    method SendAs(sender: ShardId, target: ShardId, msg: Message, ghost who: Origin) returns (ticket: nat)
      modifies this
      ensures State() == Spec.SendAs(old(State()), sender, target, msg, who) && ticket == old(nextTicket)
      ensures inDispatch == old(inDispatch)
    {
      ticket := EnqueueDirected(target, msg.(sender := sender), true, who);
    }

    method PublishAs(sender: ShardId, msg: Message, ghost who: Origin) returns (recipients: nat)
      modifies this
      ensures State() == Spec.PublishAs(old(State()), sender, msg, who) && inDispatch == old(inDispatch)
      ensures recipients == |Recipients(old(State()), ShapeOf(msg.payload), 1)|
    {
      recipients := FanOut(msg.(sender := sender), true, who);
    }

    // ---- dispatch --------------------------------------------------------------------------------

    method Journal(ticket: nat, outcome: Outcome)
      modifies this`journal
      ensures journal == if ticket < |old(journal)| then old(journal)[ticket := outcome] else old(journal)
    {
      if ticket < |journal| {
        journal := journal[ticket := outcome];
      }
    }

    method Settle(env: Envelope, outcome: Outcome)
      modifies this`journal, this`log
      ensures State() == Decide(old(State()), env, outcome)
    {
      Journal(env.ticket, outcome);
      log := log + [Decided(env.ticket, env.target, env.msg.sender, ShapeOf(env.msg.payload), outcome)];
    }

    /** deliver_one, with what the handler does if it is called. */
    method DeliverOne(env: Envelope, acts: seq<Action>)
      requires inDispatch
      modifies this
      ensures State() == Deliver(old(State()), env, acts) && inDispatch
      decreases 2
    {
      hide AcceptMatch, AdmitLive, ActAll, Permits, Decide;
      var shape := ShapeOf(env.msg.payload);
      if env.target !in shards {
        Settle(env, Declined(NoSuchTarget));
        return;
      }
      var rec := shards[env.target];
      if !rec.alive {
        Settle(env, Declined(TargetUnavailable));
        return;
      }
      if env.gated {
        var permitted := false;
        if env.msg.sender in shards {
          permitted := PermitsBy(shards[env.msg.sender].grant, shape, env.target);
        }
        if !permitted {
          Settle(env, Declined(CapabilityDenied));
          return;
        }
      }
      var door := FindDoor(rec.accept, shape);
      if door.None? {
        Settle(env, Declined(NotAccepted));
        return;
      }
      var a := AdmitValue(env.msg.payload, door.value, false);
      if a.Rejected? {
        Settle(env, Declined(GateRefused(FirstError(a))));
        return;
      }
      handled := handled + [env];
      Handle(env.target, acts);
      Settle(env, Delivered);
    }

    /** The handler at work: everything it sends goes through the bus bound to its own id. */
    method Handle(self: ShardId, acts: seq<Action>)
      requires inDispatch
      modifies this
      ensures State() == ActAll(old(State()), self, acts) && inDispatch
      decreases 1
    {
      hide Enqueue, EnqueueAll, Recipients;
      var bus := new ShardBus(this, self);
      ghost var start := State();
      var i := 0;
      while i < |acts|
        invariant i <= |acts| && inDispatch
        invariant ActAll(start, self, acts) == ActAll(State(), self, acts[i..])
      {
        assert acts[i..][0] == acts[i] && acts[i..][1..] == acts[i + 1..];
        match acts[i] {
          case SendTo(target, msg) => var ticket := bus.Send(target, msg);
          case PublishIt(msg) => var recipients := bus.Publish(msg);
          case PumpAgain => Pump([]);
          case AskStop => Stop();
        }
        i := i + 1;
      }
    }

    /** Deliver until the queue drains or a stop is asked for; a pump inside a pump is nothing.
        A script that ends first leaves the loop between two deliveries. */
    method Pump(script: seq<seq<Action>>)
      modifies this
      ensures State() == Pumped(old(State()), script)
      decreases if inDispatch then 0 else 3
    {
      hide Deliver;
      if inDispatch {
        return;
      }
      inDispatch := true;
      stopRequested := false;
      ghost var start := State();
      var i := 0;
      while queue != [] && !stopRequested && i < |script|
        decreases |script| - i
        invariant i <= |script| && inDispatch
        invariant Dispatch(start, script) == Dispatch(State(), script[i..])
      {
        assert script[i..][0] == script[i] && script[i..][1..] == script[i + 1..];
        var env := queue[0];
        queue := queue[1..];
        DeliverOne(env, script[i]);
        i := i + 1;
      }
      if queue == [] || stopRequested {
        inDispatch := false;
      }
    }

    method Stop()
      modifies this`stopRequested
      ensures stopRequested
    {
      stopRequested := true;
    }

    /** The fate of a ticket; unknown ones read as pending. */
    method OutcomeOf(ticket: nat) returns (o: Outcome)
      ensures o == if 0 < ticket < |journal| then journal[ticket] else Pending
    {
      if ticket == 0 || ticket >= |journal| {
        return Pending;
      }
      return journal[ticket];
    }

    // ---- lifecycle ---------------------------------------------------------------------------------

    method Tell(e: Event)
      modifies this`log
      ensures log == old(log) + [e]
    {
      log := log + [e];
    }

    method Kill(id: ShardId)
      modifies this
      ensures State() == Spec.Kill(old(State()), id)
    {
      if id !in shards {
        return;
      }
      shards := shards[id := shards[id].(alive := false)];
      Tell(Died(id, StateShape(shards[id])));
    }

    /** revive, refresh last-known-good, mark alive. */
    method Revive(id: ShardId, state: Value, spend: nat)
      requires id in shards
      modifies this
      ensures State() == Restore(old(State()), id, state, spend)
    {
      restored := restored + [(id, state)];
      var r := shards[id];
      shards := shards[id := r.(lastKnownGood := state, reloadsUsed := r.reloadsUsed + spend, alive := true)];
    }

    /** Every schema there is is well formed, because its constructor checked (SchemaId.MadeIsBuilt). */
    method Reload(id: ShardId, policy: Value, candidate: bytes) returns (out: ReviveOutcome)
      requires id in shards ==> WfSchema(shards[id].stateSchema)
      modifies this
      ensures (State(), out) == Spec.Reload(old(State()), id, policy, candidate)
    {
      hide AdmitLive, PolicySchema, Conforms, Restore, AdmitBytes;
      if id !in shards {
        return Unknown;
      }
      var r := shards[id];
      var pol := AdmitValue(policy, PolicySchema(), false);
      if pol.Rejected? {
        return PolicyMalformed(FirstError(pol));
      }
      LiveAdmits(policy, PolicySchema(), false);
      var p := PolicyOf(policy);
      if r.reloadsUsed >= p.maxReloads {
        return Exhausted;
      }
      var admitted := GateBytes(candidate, r.stateSchema);
      if admitted.Accepted? {
        Revive(id, admitted.value, 1);
        Tell(Revived(id, StateShape(r), false, None));
        return RevivedFresh;
      }
      var e := FirstError(admitted);
      if p.reviveFromLastGood {
        Revive(id, r.lastKnownGood, 1);
        Tell(Revived(id, StateShape(r), true, Some(GateRefused(e))));
        return RevivedLastGood(e);
      }
      Tell(RevivalRefused(id, StateShape(r), GateRefused(e)));
      return CandidateRefused(e);
    }

    method SwapState(id: ShardId, candidate: bytes) returns (out: ReviveOutcome)
      requires id in shards ==> WfSchema(shards[id].stateSchema)
      modifies this
      ensures (State(), out) == Spec.SwapState(old(State()), id, candidate)
    {
      hide Restore, AdmitBytes;
      if id !in shards {
        return Unknown;
      }
      var r := shards[id];
      var admitted := GateBytes(candidate, r.stateSchema);
      if admitted.Rejected? {
        Tell(RevivalRefused(id, StateShape(r), GateRefused(FirstError(admitted))));
        return CandidateRefused(FirstError(admitted));
      }
      Revive(id, admitted.value, 0);
      Tell(Revived(id, StateShape(r), false, None));
      return RevivedFresh;
    }
  }

  /** The bus a handler is handed: it can send only as the shard it was made for. */
  class ShardBus {
    const sb: Switchboard
    const self: ShardId

    constructor (sb: Switchboard, self: ShardId)
      ensures this.sb == sb && this.self == self
    {
      this.sb, this.self := sb, self;
    }

    method Send(target: ShardId, msg: Message) returns (ticket: nat)
      modifies sb
      ensures sb.State() == Act(old(sb.State()), self, SendTo(target, msg)) && ticket == old(sb.nextTicket)
      ensures sb.inDispatch == old(sb.inDispatch)
    {
      ticket := sb.SendAs(self, target, msg, Handler(self));
    }

    method Publish(msg: Message) returns (recipients: nat)
      modifies sb
      ensures sb.State() == Act(old(sb.State()), self, PublishIt(msg)) && sb.inDispatch == old(sb.inDispatch)
      ensures recipients == |Recipients(old(sb.State()), ShapeOf(msg.payload), 1)|
    {
      recipients := sb.PublishAs(self, msg, Handler(self));
    }
  }

  /** accept_match */
  method FindDoor(accept: seq<Schema>, shape: Shape) returns (door: Option<Schema>)
    ensures door == AcceptMatch(accept, shape)
  {
    var i := 0;
    while i < |accept|
      invariant i <= |accept| && AcceptMatch(accept, shape) == AcceptMatch(accept[i..], shape)
    {
      if accept[i].name == shape.name && accept[i].version == shape.version {
        return Some(accept[i]);
      }
      i := i + 1;
    }
    return None;
  }

  /** parse and admit under the state schema. */
  method GateBytes(candidate: bytes, door: Schema) returns (a: Admission)
    requires WfSchema(door)
    ensures a == AdmitBytes(candidate, door)
  {
    hide Parse, Admit;
    var u := ParseBytes(candidate);
    a := AdmitUnder(u, door, false, NoFloatText());
  }

  lemma EnqueueTouches(b: Bus, msg: Message, target: ShardId, gated: bool, who: Origin)
    ensures var c := Enqueue(b, msg, target, gated, who); c.shards == b.shards && c.nextShard == b.nextShard
  {
  }
}
