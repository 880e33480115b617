/** What holds of the bus in every reachable state: order and conservation of deliveries,
    identity and authority of everything handled, conformance of everything handed to a shard. */
module BusRuns {
  import opened Bytes
  import opened Model
  import opened Gate
  import opened Admission
  import opened Registry
  import opened Grant
  import opened Bus
  import AdmissionRun

  // ---- the invariant, one concern at a time ---------------------------------------------------

  /** The first ticket not yet decided or being decided. */
  function FrontTicket(queue: seq<Envelope>, nextTicket: nat): int { nextTicket - |queue| }

  /** Tickets are consecutive along the queue, and a ticket is pending exactly while its envelope
      is queued or is the one being delivered. */
  ghost predicate Ordered(queue: seq<Envelope>, journal: seq<Outcome>, nextTicket: nat, cur: Option<Envelope>) {
    var front := FrontTicket(queue, nextTicket);
    var undecided := if cur.Some? then front - 1 else front;
    && |journal| == nextTicket && 1 <= undecided
    && (cur.Some? ==> cur.value.ticket == undecided)
    && (forall k :: 0 <= k < |queue| ==> queue[k].ticket == front + k)
    && journal[0].Pending?
    && forall t :: 1 <= t < nextTicket ==> (journal[t].Pending? <==> t >= undecided)
  }

  /** The sender of a gated envelope is whoever the enqueuing call was made for. */
  predicate TrueSender(e: Envelope, origins: seq<Origin>) {
    && e.ticket < |origins|
    && (e.gated <==> !origins[e.ticket].Root?)
    && (e.gated ==> e.msg.sender == origins[e.ticket].id)
  }

  ghost predicate Stamped(queue: seq<Envelope>, handled: seq<Envelope>, origins: seq<Origin>, cur: Option<Envelope>) {
    && (forall k :: 0 <= k < |queue| ==> TrueSender(queue[k], origins))
    && (forall i :: 0 <= i < |handled| ==> TrueSender(handled[i], origins))
    && (cur.Some? ==> TrueSender(cur.value, origins))
  }

  /** A ticket a handler issued was issued while that shard handled an earlier ticket. */
  ghost predicate Caused(origins: seq<Origin>, handled: seq<Envelope>) {
    forall t :: 0 <= t < |origins| && origins[t].Handler? ==>
      exists i :: 0 <= i < |handled| && handled[i].target == origins[t].id && handled[i].ticket < t
  }

  /** Handlers ran in ticket order, once for every delivered ticket and for no other; the last
      one, when open, is still running. */
  ghost predicate HandledOnce(handled: seq<Envelope>, journal: seq<Outcome>, front: int, open: bool) {
    && (open ==> handled != [] && 0 <= handled[|handled| - 1].ticket < |journal| && journal[handled[|handled| - 1].ticket].Pending?)
    && (forall i, j :: 0 <= i < j < |handled| ==> handled[i].ticket < handled[j].ticket)
    && (forall i :: 0 <= i < |handled| ==> 1 <= handled[i].ticket < front && handled[i].ticket < |journal|)
    && (forall i :: 0 <= i < |handled| && (open ==> i < |handled| - 1) ==> journal[handled[i].ticket].Delivered?)
    && (forall t :: 0 <= t < |journal| && journal[t].Delivered? ==> exists i :: 0 <= i < |handled| && handled[i].ticket == t)
  }

  /** A shard's doors are the registry's own schemas, and its last-known-good is a value of its
      state schema. */
  predicate SoundRecord(r: Record, m: Schemas) {
    && (forall i :: 0 <= i < |r.accept| ==> KeyOf(r.accept[i]) in m && m[KeyOf(r.accept[i])] == r.accept[i])
    && KeyOf(r.stateSchema) in m && m[KeyOf(r.stateSchema)].id == r.stateSchema.id
    && Conforms(r.lastKnownGood, r.stateSchema) && r.lastKnownGood.schema == r.stateSchema
  }

  ghost predicate Canonical(m: Schemas, shards: map<ShardId, Record>, nextShard: ShardId) {
    && Keyed(m) && nextShard >= 1
    && forall id :: id in shards ==> 1 <= id < nextShard && SoundRecord(shards[id], m)
  }

  predicate KeyedPayload(v: Value, m: Schemas) {
    var k := Key(v.schema.name, v.schema.version);
    k in m && Conforms(v, m[k])
  }

  /** Everything handled conforms to the one published schema of its name and version, and so
      does everything handed to revive. */
  ghost predicate Conformed(m: Schemas, handled: seq<Envelope>, restored: seq<(ShardId, Value)>) {
    && (forall i :: 0 <= i < |handled| ==> KeyedPayload(handled[i].msg.payload, m))
    && (forall i :: 0 <= i < |restored| ==>
          Conforms(restored[i].1, restored[i].1.schema) && KeyOf(restored[i].1.schema) in m &&
          m[KeyOf(restored[i].1.schema)].id == restored[i].1.schema.id)
  }

  /** id was registered when the i-th handler call was made. */
  predicate Present(id: ShardId, i: nat, granted: map<ShardId, seq<SendRule>>, departed: map<ShardId, nat>) {
    id in granted && (id in departed ==> i < departed[id])
  }

  /** The i-th handler call: the target was registered, and so was a gated envelope's sender,
      whose registration-time grant permits the message. */
  predicate Allowed(e: Envelope, i: nat, granted: map<ShardId, seq<SendRule>>, departed: map<ShardId, nat>) {
    && Present(e.target, i, granted, departed)
    && (e.gated ==>
          Present(e.msg.sender, i, granted, departed) &&
          Permits(granted[e.msg.sender], ShapeOf(e.msg.payload), e.target))
  }

  ghost predicate Authority(shards: map<ShardId, Record>, nextShard: ShardId, handled: seq<Envelope>,
                            granted: map<ShardId, seq<SendRule>>, departed: map<ShardId, nat>)
  {
    && (forall id :: id in shards ==> id in granted && granted[id] == shards[id].grant && id !in departed)
    && (forall id :: id in granted ==> id < nextShard && (id in shards || id in departed))
    && (forall id :: id in departed ==> id in granted && departed[id] <= |handled|)
    && (forall i :: 0 <= i < |handled| ==> Allowed(handled[i], i, granted, departed))
  }

  /** Every shard keeps the state schema it was registered with, and every state handed to a
      shard's revive was a value of it. */
  ghost predicate Stateful(shards: map<ShardId, Record>, nextShard: ShardId, stated: map<ShardId, Schema>,
                           restored: seq<(ShardId, Value)>)
  {
    && (forall id :: id in shards ==> id in stated && stated[id] == shards[id].stateSchema)
    && (forall id :: id in stated ==> id < nextShard)
    && (forall i :: 0 <= i < |restored| ==>
          var id, v := restored[i].0, restored[i].1;
          id in stated && Conforms(v, stated[id]) && v.schema == stated[id])
  }

  /** The delivery events of a log, in order. */
  function Announced(log: seq<Event>): seq<Event> {
    if log == [] then []
    else Announced(log[..|log| - 1]) + (if log[|log| - 1].Decided? then [log[|log| - 1]] else [])
  }

  /** Every decision was announced once, in ticket order, with the outcome the journal holds. */
  ghost predicate Told(log: seq<Event>, journal: seq<Outcome>, undecided: int) {
    && |Announced(log)| == undecided - 1
    && undecided <= |journal|
    && forall k :: 0 <= k < |Announced(log)| ==>
         Announced(log)[k].Decided? && Announced(log)[k].ticket == k + 1 && Announced(log)[k].outcome == journal[k + 1]
  }

  /** Lifecycle events are about shards that were registered. */
  ghost predicate Said(log: seq<Event>, nextShard: ShardId) {
    forall k :: 0 <= k < |log| && !log[k].Decided? ==> log[k].target < nextShard
  }

  ghost predicate Inv(b: Bus, cur: Option<Envelope>, open: bool) {
    var front := FrontTicket(b.queue, b.nextTicket);
    && (open ==> cur.Some? && b.handled != [] && b.handled[|b.handled| - 1] == cur.value)
    && |b.origins| == b.nextTicket
    && Ordered(b.queue, b.journal, b.nextTicket, cur)
    && Stamped(b.queue, b.handled, b.origins, cur)
    && Caused(b.origins, b.handled)
    && HandledOnce(b.handled, b.journal, front, open)
    && Canonical(b.registry, b.shards, b.nextShard)
    && Conformed(b.registry, b.handled, b.restored)
    && Authority(b.shards, b.nextShard, b.handled, b.granted, b.departed)
    && Stateful(b.shards, b.nextShard, b.stated, b.restored)
    && Told(b.log, b.journal, if cur.Some? then front - 1 else front)
    && Said(b.log, b.nextShard)
  }

  /** The whole state between operations. */
  ghost predicate Reachable(b: Bus) { Inv(b, None, false) }

  // ---- enqueueing keeps it ---------------------------------------------------------------------

  lemma EnqueueKeeps(b: Bus, cur: Option<Envelope>, open: bool, msg: Message, target: ShardId, gated: bool, who: Origin)
    requires Inv(b, cur, open)
    requires gated <==> !who.Root?
    requires gated ==> msg.sender == who.id
    requires who.Handler? ==> open && cur.value.target == who.id
    ensures Inv(Enqueue(b, msg, target, gated, who), cur, open)
  {
    hide Ordered, Stamped, Caused, HandledOnce, Canonical, Conformed, Authority, Stateful, Told, Said;
    var c := Enqueue(b, msg, target, gated, who);
    EnqueueOrders(b.queue, b.journal, b.nextTicket, cur, c.queue[|b.queue|]);
    EnqueueStamps(b.queue, b.handled, b.origins, cur, c.queue[|b.queue|], who);
    EnqueueHandled(b.handled, b.journal, FrontTicket(b.queue, b.nextTicket), open);
    if who.Handler? {
      assert cur.value.ticket < b.nextTicket by { CurrentIsOld(b.queue, b.journal, b.nextTicket, cur); }
    }
    EnqueueCauses(b.origins, b.handled, who);
    TellMore(b.log, b.journal, if cur.Some? then FrontTicket(b.queue, b.nextTicket) - 1 else FrontTicket(b.queue, b.nextTicket));
  }

  lemma CurrentIsOld(queue: seq<Envelope>, journal: seq<Outcome>, nextTicket: nat, cur: Option<Envelope>)
    requires Ordered(queue, journal, nextTicket, cur) && cur.Some?
    ensures cur.value.ticket < nextTicket
  {
  }

  lemma EnqueueOrders(queue: seq<Envelope>, journal: seq<Outcome>, nextTicket: nat, cur: Option<Envelope>, e: Envelope)
    requires Ordered(queue, journal, nextTicket, cur) && e.ticket == nextTicket
    ensures Ordered(queue + [e], journal + [Pending], nextTicket + 1, cur)
  {
  }

  lemma EnqueueStamps(queue: seq<Envelope>, handled: seq<Envelope>, origins: seq<Origin>, cur: Option<Envelope>, e: Envelope, who: Origin)
    requires Stamped(queue, handled, origins, cur) && e.ticket == |origins| && TrueSender(e, origins + [who])
    ensures Stamped(queue + [e], handled, origins + [who], cur)
  {
  }

  lemma EnqueueHandled(handled: seq<Envelope>, journal: seq<Outcome>, front: int, open: bool)
    requires HandledOnce(handled, journal, front, open)
    ensures HandledOnce(handled, journal + [Pending], front, open)
  {
  }

  lemma EnqueueCauses(origins: seq<Origin>, handled: seq<Envelope>, who: Origin)
    requires Caused(origins, handled)
    requires who.Handler? ==>
               handled != [] && handled[|handled| - 1].target == who.id && handled[|handled| - 1].ticket < |origins|
    ensures Caused(origins + [who], handled)
  {
  }

  lemma TellMore(log: seq<Event>, journal: seq<Outcome>, undecided: int)
    requires Told(log, journal, undecided)
    ensures Told(log, journal + [Pending], undecided)
  {
  }

  lemma {:induction false} EnqueueAllKeeps(b: Bus, cur: Option<Envelope>, open: bool, msg: Message, targets: seq<ShardId>, gated: bool, who: Origin)
    requires Inv(b, cur, open)
    requires gated <==> !who.Root?
    requires gated ==> msg.sender == who.id
    requires who.Handler? ==> open && cur.value.target == who.id
    ensures Inv(EnqueueAll(b, msg, targets, gated, who), cur, open)
    decreases |targets|
  {
    hide Inv, Enqueue;
    if targets != [] {
      EnqueueKeeps(b, cur, open, msg, targets[0], gated, who);
      EnqueueAllKeeps(Enqueue(b, msg, targets[0], gated, who), cur, open, msg, targets[1..], gated, who);
    }
  }

  lemma ActKeeps(b: Bus, cur: Envelope, a: Action)
    requires Inv(b, Some(cur), true)
    ensures Inv(Act(b, cur.target, a), Some(cur), true)
  {
    hide Inv, Enqueue, EnqueueAll;
    match a
    case SendTo(target, msg) =>
      EnqueueKeeps(b, Some(cur), true, msg.(sender := cur.target), target, true, Handler(cur.target));
    case PublishIt(msg) =>
      EnqueueAllKeeps(b, Some(cur), true, msg.(sender := cur.target),
                      Recipients(b, ShapeOf(msg.payload), 1), true, Handler(cur.target));
    case PumpAgain =>
    case AskStop => FlagsKeep(b, Some(cur), true, b.inDispatch, true);
  }

  lemma {:induction false} ActAllKeeps(b: Bus, cur: Envelope, acts: seq<Action>)
    requires Inv(b, Some(cur), true)
    ensures Inv(ActAll(b, cur.target, acts), Some(cur), true)
    decreases |acts|
  {
    hide Inv, Act;
    if acts != [] {
      ActKeeps(b, cur, acts[0]);
      ActAllKeeps(Act(b, cur.target, acts[0]), cur, acts[1..]);
    }
  }

  lemma FlagsKeep(b: Bus, cur: Option<Envelope>, open: bool, inDispatch: bool, stopRequested: bool)
    requires Inv(b, cur, open)
    ensures Inv(b.(inDispatch := inDispatch, stopRequested := stopRequested), cur, open)
  {
    hide Ordered, Stamped, Caused, HandledOnce, Canonical, Conformed, Authority, Stateful, Told, Said;
  }

  // ---- delivering keeps it ------------------------------------------------------------------------

  /** Taking the front envelope off the queue. */
  lemma PopKeeps(b: Bus)
    requires Inv(b, None, false) && b.queue != []
    ensures Inv(b.(queue := b.queue[1..]), Some(b.queue[0]), false)
  {
    hide Caused, Canonical, Conformed, Authority, Stateful, Told, Said;
  }

  /** Judged deliverable: the payload conforms to the registry's own schema, and everyone the
      envelope names is there and allowed. */
  lemma DeliverableIsSound(b: Bus, cur: Envelope)
    requires Inv(b, Some(cur), false) && Judge(b, cur).Delivered?
    ensures KeyedPayload(cur.msg.payload, b.registry)
    ensures Allowed(cur, |b.handled|, b.granted, b.departed)
  {
    hide Ordered, Stamped, Caused, HandledOnce, Conformed, Stateful, Told, Said, Conforms, Permits, AdmitLive;
    var r := b.shards[cur.target];
    var shape := ShapeOf(cur.msg.payload);
    MatchIsFirst(r.accept, shape);
    AdmissionRun.LiveAdmits(cur.msg.payload, AcceptMatch(r.accept, shape).value, false);
  }

  lemma {:induction false} MatchIsFirst(accept: seq<Schema>, shape: Shape)
    ensures match AcceptMatch(accept, shape)
            case None => forall i :: 0 <= i < |accept| ==> KeyOf(accept[i]) != Key(shape.name, shape.version)
            case Some(s) => KeyOf(s) == Key(shape.name, shape.version) && exists i :: 0 <= i < |accept| && accept[i] == s
  {
    if accept != [] {
      MatchIsFirst(accept[1..], shape);
      assert forall i :: 0 < i < |accept| ==> accept[i] == accept[1..][i - 1];
    }
  }

  /** Calling the handler. */
  lemma HandleKeeps(b: Bus, cur: Envelope)
    requires Inv(b, Some(cur), false) && Judge(b, cur).Delivered?
    ensures Inv(b.(handled := b.handled + [cur]), Some(cur), true)
  {
    DeliverableIsSound(b, cur);
    hide Ordered, Stamped, Caused, HandledOnce, Canonical, Conformed, Authority, Stateful, Told, Said, Judge,
         Allowed, KeyedPayload;
    HandleOrders(b, cur);
    assert Stamped(b.queue, b.handled + [cur], b.origins, Some(cur)) by { HandleStamps(b.queue, b.handled, b.origins, cur); }
    HandleCauses(b.origins, b.handled, cur);
    HandleConforms(b.registry, b.handled, b.restored, cur);
    HandleAllowed(b.shards, b.nextShard, b.handled, b.granted, b.departed, cur);
  }

  lemma HandleOrders(b: Bus, cur: Envelope)
    requires Ordered(b.queue, b.journal, b.nextTicket, Some(cur))
    requires HandledOnce(b.handled, b.journal, FrontTicket(b.queue, b.nextTicket), false)
    ensures HandledOnce(b.handled + [cur], b.journal, FrontTicket(b.queue, b.nextTicket), true)
  {
    var all := b.handled + [cur];
    assert all[|all| - 1] == cur;
    forall i | 0 <= i < |b.handled| ensures all[i].ticket < cur.ticket {
      assert all[i] == b.handled[i] && b.journal[all[i].ticket].Delivered?;
    }
    forall t | 0 <= t < |b.journal| && b.journal[t].Delivered? ensures exists i :: 0 <= i < |all| && all[i].ticket == t {
      var i :| 0 <= i < |b.handled| && b.handled[i].ticket == t;
      assert all[i].ticket == t;
    }
  }

  lemma HandleStamps(queue: seq<Envelope>, handled: seq<Envelope>, origins: seq<Origin>, cur: Envelope)
    requires Stamped(queue, handled, origins, Some(cur))
    ensures Stamped(queue, handled + [cur], origins, Some(cur))
  {
  }

  lemma HandleCauses(origins: seq<Origin>, handled: seq<Envelope>, cur: Envelope)
    requires Caused(origins, handled)
    ensures Caused(origins, handled + [cur])
  {
    var all := handled + [cur];
    forall t | 0 <= t < |origins| && origins[t].Handler?
      ensures exists i :: 0 <= i < |all| && all[i].target == origins[t].id && all[i].ticket < t
    {
      var i :| 0 <= i < |handled| && handled[i].target == origins[t].id && handled[i].ticket < t;
      assert all[i] == handled[i];
    }
  }

  lemma HandleConforms(m: Schemas, handled: seq<Envelope>, restored: seq<(ShardId, Value)>, cur: Envelope)
    requires Conformed(m, handled, restored) && KeyedPayload(cur.msg.payload, m)
    ensures Conformed(m, handled + [cur], restored)
  {
    hide KeyedPayload, Conforms;
  }

  lemma HandleAllowed(shards: map<ShardId, Record>, nextShard: ShardId, handled: seq<Envelope>,
                      granted: map<ShardId, seq<SendRule>>, departed: map<ShardId, nat>, cur: Envelope)
    requires Authority(shards, nextShard, handled, granted, departed) && Allowed(cur, |handled|, granted, departed)
    ensures Authority(shards, nextShard, handled + [cur], granted, departed)
  {
    hide Allowed;
  }

  /** Writing the outcome into the journal and announcing it. */
  lemma DecideKeeps(b: Bus, cur: Envelope, open: bool, outcome: Outcome)
    requires Inv(b, Some(cur), open) && !outcome.Pending? && (outcome.Delivered? <==> open)
    ensures Inv(Decide(b, cur, outcome), None, false)
  {
    hide Ordered, Stamped, Caused, HandledOnce, Canonical, Conformed, Authority, Stateful, Told;
    DecideOrders(b, cur, open, outcome);
    assert Stamped(b.queue, b.handled, b.origins, None) by { DropStamp(b.queue, b.handled, b.origins, Some(cur)); }
    DecideTells(b, cur, outcome);
  }

  lemma DecideOrders(b: Bus, cur: Envelope, open: bool, outcome: Outcome)
    requires Inv(b, Some(cur), open) && !outcome.Pending? && (outcome.Delivered? <==> open)
    ensures var c := Decide(b, cur, outcome);
            && Ordered(c.queue, c.journal, c.nextTicket, None)
            && HandledOnce(c.handled, c.journal, FrontTicket(c.queue, c.nextTicket), false)
  {
    hide Stamped, Caused, Canonical, Conformed, Authority, Stateful, Told, Said;
    var c := Decide(b, cur, outcome);
    assert c.journal == b.journal[cur.ticket := outcome];
    forall i | 0 <= i < |c.handled| ensures c.journal[c.handled[i].ticket].Delivered? {
      if i < |c.handled| - 1 || !open {
        assert b.journal[b.handled[i].ticket].Delivered?;
      }
    }
  }

  lemma DropStamp(queue: seq<Envelope>, handled: seq<Envelope>, origins: seq<Origin>, cur: Option<Envelope>)
    requires Stamped(queue, handled, origins, cur)
    ensures Stamped(queue, handled, origins, None)
  {
  }

  lemma DecideTells(b: Bus, cur: Envelope, outcome: Outcome)
    requires Ordered(b.queue, b.journal, b.nextTicket, Some(cur))
    requires Told(b.log, b.journal, FrontTicket(b.queue, b.nextTicket) - 1)
    ensures var c := Decide(b, cur, outcome); Told(c.log, c.journal, FrontTicket(c.queue, c.nextTicket))
  {
    var c := Decide(b, cur, outcome);
    assert c.log[..|c.log| - 1] == b.log;
    assert Announced(c.log) == Announced(b.log) + [c.log[|c.log| - 1]];
  }

  lemma DeliverKeeps(b: Bus, cur: Envelope, acts: seq<Action>)
    requires Inv(b, Some(cur), false)
    ensures Inv(Deliver(b, cur, acts), None, false)
  {
    hide Inv, Judge, ActAll, Decide;
    if Judge(b, cur).Delivered? {
      HandleKeeps(b, cur);
      ActAllKeeps(b.(handled := b.handled + [cur]), cur, acts);
      DecideKeeps(ActAll(b.(handled := b.handled + [cur]), cur.target, acts), cur, true, Delivered);
    } else {
      JudgeDecides(b, cur);
      DecideKeeps(b, cur, false, Judge(b, cur));
    }
  }

  lemma JudgeDecides(b: Bus, env: Envelope)
    ensures !Judge(b, env).Pending?
  {
    hide AdmitLive, AcceptMatch, Permits;
  }

  lemma {:induction false} DispatchKeeps(b: Bus, script: seq<seq<Action>>)
    requires Reachable(b)
    ensures Reachable(Dispatch(b, script))
    decreases |script|
  {
    hide Inv, Deliver;
    if b.queue == [] || b.stopRequested {
      FlagsKeep(b, None, false, false, b.stopRequested);
    } else if script != [] {
      PopKeeps(b);
      DeliverKeeps(b.(queue := b.queue[1..]), b.queue[0], script[0]);
      DispatchKeeps(Deliver(b.(queue := b.queue[1..]), b.queue[0], script[0]), script[1..]);
    }
  }

  // ---- registration and lifecycle keep it ---------------------------------------------------------

  /** What the invariant needs of a growing registry. */
  lemma GrowKeeps(b: Bus, m: Schemas)
    requires Inv(b, None, false) && Keyed(m) && Extends(b.registry, m)
    ensures Inv(b.(registry := m), None, false)
  {
    hide Ordered, Stamped, Caused, HandledOnce, Authority, Stateful, Told, Said, Conforms;
  }

  /** Each schema is answered by the registry's own, under the same name, version and id. */
  lemma {:induction false} EachIsCanonical(m: Schemas, ss: seq<Schema>)
    requires Keyed(m)
    ensures var (n, r) := RegisterEach(m, ss);
            && Keyed(n) && Extends(m, n)
            && (r.Some? ==>
                  |r.value| == |ss| &&
                  forall i :: 0 <= i < |ss| ==>
                    KeyOf(r.value[i]) == KeyOf(ss[i]) && KeyOf(r.value[i]) in n && n[KeyOf(r.value[i])] == r.value[i] &&
                    r.value[i].id == ss[i].id)
    decreases |ss|
  {
    if ss != [] && Register(m, ss[0]).Registered? {
      var n := Publish(m, ss[0]);
      EachIsCanonical(n, ss[1..]);
      var (end, rest) := RegisterEach(n, ss[1..]);
      assert end[KeyOf(ss[0])] == n[KeyOf(ss[0])];
      if rest.Some? {
        var all := [Register(m, ss[0]).schema] + rest.value;
        forall i | 0 <= i < |ss|
          ensures KeyOf(all[i]) == KeyOf(ss[i]) && KeyOf(all[i]) in end && end[KeyOf(all[i])] == all[i] && all[i].id == ss[i].id
        {
          if i > 0 {
            assert ss[1..][i - 1] == ss[i] && all[i] == rest.value[i - 1];
          }
        }
      }
    }
  }

  lemma RegisterKeeps(b: Bus, accepts: seq<Schema>, snapshot: Value, grant: seq<SendRule>)
    requires Reachable(b)
    ensures Reachable(RegisterShard(b, accepts, snapshot, grant).0)
  {
    hide Inv, RegisterEach, AdmitLive, Conforms, Extends, Keyed, SoundRecord;
    var (m, canonical) := RegisterEach(b.registry, accepts);
    var s := snapshot.schema;
    assert Keyed(b.registry) by { RegistryIsKeyed(b); }
    EachIsCanonical(b.registry, accepts);
    GrowKeeps(b, m);
    if canonical.Some? && Register(m, s).Registered? {
      PublishExtends(b.registry, m, s);
      GrowKeeps(b, Publish(m, s));
      AdmissionRun.LiveAdmits(snapshot, s, false);
      if AdmitLive(snapshot, s, false).Accepted? {
        var r := Record(canonical.value, s, snapshot, grant, 0, true);
        assert SoundRecord(r, Publish(m, s)) by { NewRecordIsSound(m, accepts, canonical.value, snapshot, grant); }
        AddKeeps(b.(registry := Publish(m, s)), r);
      }
    }
  }

  lemma RegistryIsKeyed(b: Bus)
    requires Reachable(b)
    ensures Keyed(b.registry)
  {
    hide Ordered, Stamped, Caused, HandledOnce, Conformed, Authority, Stateful, Told, Said, SoundRecord;
  }

  lemma PublishExtends(m0: Schemas, m: Schemas, s: Schema)
    requires Keyed(m) && Extends(m0, m)
    ensures Keyed(Publish(m, s)) && Extends(m0, Publish(m, s))
  {
  }

  lemma NewRecordIsSound(m: Schemas, accepts: seq<Schema>, canonical: seq<Schema>, snapshot: Value, grant: seq<SendRule>)
    requires |canonical| == |accepts| && Register(m, snapshot.schema).Registered? && Conforms(snapshot, snapshot.schema)
    requires forall i :: 0 <= i < |accepts| ==> KeyOf(canonical[i]) in m && m[KeyOf(canonical[i])] == canonical[i]
    ensures SoundRecord(Record(canonical, snapshot.schema, snapshot, grant, 0, true), Publish(m, snapshot.schema))
  {
    hide Conforms;
  }

  lemma AddKeeps(b: Bus, r: Record)
    requires Inv(b, None, false) && SoundRecord(r, b.registry)
    ensures Inv(b.(shards := b.shards[b.nextShard := r], nextShard := b.nextShard + 1,
                   granted := b.granted[b.nextShard := r.grant],
                   stated := b.stated[b.nextShard := r.stateSchema]), None, false)
  {
    hide Ordered, Stamped, Caused, HandledOnce, Conformed, Told, SoundRecord, Permits;
    var granted := b.granted[b.nextShard := r.grant];
    forall i | 0 <= i < |b.handled| ensures Allowed(b.handled[i], i, granted, b.departed) {
      assert Allowed(b.handled[i], i, b.granted, b.departed);
    }
  }

  lemma UnregisterKeeps(b: Bus, id: ShardId)
    requires Reachable(b)
    ensures Reachable(UnregisterShard(b, id))
  {
    hide Ordered, Stamped, Caused, HandledOnce, Conformed, Told, Said, SoundRecord, Permits;
    if id in b.shards {
      var c := UnregisterShard(b, id);
      forall i | 0 <= i < |b.handled| ensures Allowed(b.handled[i], i, c.granted, c.departed) {
        assert Allowed(b.handled[i], i, b.granted, b.departed);
      }
    }
  }

  lemma LifecycleEventTellsNothing(log: seq<Event>, journal: seq<Outcome>, undecided: int, e: Event)
    requires Told(log, journal, undecided) && !e.Decided?
    ensures Told(log + [e], journal, undecided)
  {
    assert (log + [e])[..|log|] == log;
    assert Announced(log + [e]) == Announced(log) + [];
  }

  lemma EmitKeeps(b: Bus, e: Event)
    requires Reachable(b) && !e.Decided? && e.target < b.nextShard
    ensures Reachable(Emit(b, e))
  {
    hide Ordered, Stamped, Caused, HandledOnce, Canonical, Conformed, Authority, Stateful, Told;
    LifecycleEventTellsNothing(b.log, b.journal, FrontTicket(b.queue, b.nextTicket), e);
  }

  /** Changing a record but not its grant. */
  lemma UpdateKeeps(b: Bus, id: ShardId, r: Record)
    requires Reachable(b) && id in b.shards && SoundRecord(r, b.registry) && r.grant == b.shards[id].grant
    requires r.stateSchema == b.shards[id].stateSchema
    ensures Reachable(Update(b, id, r))
  {
    hide Ordered, Stamped, Caused, HandledOnce, Conformed, Told, Said, SoundRecord, Allowed;
  }

  lemma RestoreKeeps(b: Bus, id: ShardId, state: Value, spend: nat)
    requires Reachable(b) && id in b.shards
    requires Conforms(state, b.shards[id].stateSchema) && state.schema == b.shards[id].stateSchema
    ensures Reachable(Restore(b, id, state, spend))
  {
    hide Ordered, Stamped, Caused, HandledOnce, Authority, Stateful, Told, Said, Conforms, Inv;
    var r := b.shards[id];
    assert SoundRecord(r, b.registry) by { RecordIsSound(b, id); }
    UpdateKeeps(b, id, r.(lastKnownGood := state, reloadsUsed := r.reloadsUsed + spend, alive := true));
    RestoredKeeps(Update(b, id, r.(lastKnownGood := state, reloadsUsed := r.reloadsUsed + spend, alive := true)), id, state);
  }

  lemma RecordIsSound(b: Bus, id: ShardId)
    requires Reachable(b) && id in b.shards
    ensures SoundRecord(b.shards[id], b.registry)
  {
    hide Ordered, Stamped, Caused, HandledOnce, Conformed, Authority, Stateful, Told, Said, SoundRecord;
  }

  lemma RestoredKeeps(b: Bus, id: ShardId, state: Value)
    requires Reachable(b) && Conforms(state, state.schema)
    requires KeyOf(state.schema) in b.registry && b.registry[KeyOf(state.schema)].id == state.schema.id
    requires id in b.shards && state.schema == b.shards[id].stateSchema
    ensures Reachable(b.(restored := b.restored + [(id, state)]))
  {
    hide Ordered, Stamped, Caused, HandledOnce, Authority, Canonical, Told, Said, Conforms;
  }

  lemma ReloadKeeps(b: Bus, id: ShardId, policy: Value, candidate: bytes)
    requires Reachable(b)
    ensures Reachable(Reload(b, id, policy, candidate).0)
    ensures Reachable(SwapState(b, id, candidate).0)
  {
    hide Inv, AdmitLive, AdmitBytes, Conforms, SoundRecord, PolicySchema, PolicyOf, Restore, Emit;
    if id in b.shards {
      var r := b.shards[id];
      assert Conforms(r.lastKnownGood, r.stateSchema) && r.lastKnownGood.schema == r.stateSchema by { LastGoodConforms(b, id); }
      assert id < b.nextShard by { KnownIsOld(b, id); }
      AdmittedBytes(candidate, r.stateSchema);
      var a := AdmitBytes(candidate, r.stateSchema);
      if a.Accepted? {
        RevivedKeeps(b, id, a.value, 0, false, None);
        RevivedKeeps(b, id, a.value, 1, false, None);
      } else {
        var e := GateRefused(FirstError(a));
        RevivedKeeps(b, id, r.lastKnownGood, 1, true, Some(e));
        EmitKeeps(b, RevivalRefused(id, StateShape(r), e));
      }
    }
  }

  /** Handing over a state of the shard's schema, and saying so. */
  lemma RevivedKeeps(b: Bus, id: ShardId, state: Value, spend: nat, fallback: bool, why: Option<Refusal>)
    requires Reachable(b) && id in b.shards && id < b.nextShard
    requires Conforms(state, b.shards[id].stateSchema) && state.schema == b.shards[id].stateSchema
    ensures Reachable(Emit(Restore(b, id, state, spend), Revived(id, StateShape(b.shards[id]), fallback, why)))
  {
    hide Inv, Conforms, Emit;
    RestoreKeeps(b, id, state, spend);
    EmitKeeps(Restore(b, id, state, spend), Revived(id, StateShape(b.shards[id]), fallback, why));
  }

  lemma KnownIsOld(b: Bus, id: ShardId)
    requires Reachable(b) && id in b.shards
    ensures id < b.nextShard
  {
    hide Ordered, Stamped, Caused, HandledOnce, Conformed, Authority, Stateful, Told, Said, SoundRecord;
  }

  lemma LastGoodConforms(b: Bus, id: ShardId)
    requires Reachable(b) && id in b.shards
    ensures Conforms(b.shards[id].lastKnownGood, b.shards[id].stateSchema)
    ensures b.shards[id].lastKnownGood.schema == b.shards[id].stateSchema
  {
    hide Inv, Conforms;
    RecordIsSound(b, id);
  }

  lemma AdmittedBytes(candidate: bytes, door: Schema)
    ensures var a := AdmitBytes(candidate, door); a.Accepted? ==> Conforms(a.value, door) && a.value.schema == door
  {
    hide Conforms, Admit;
    AdmissionRun.AdmittedConforms(Parse(candidate), Empty(door), door, false, NoFloatText());
  }

  // ---- every run ------------------------------------------------------------------------------------

  lemma NewIsReachable()
    ensures Reachable(NEW_BUS)
  {
  }

  lemma ApplyKeeps(b: Bus, op: Op)
    requires Reachable(b)
    ensures Reachable(Apply(b, op))
  {
    hide Inv, Enqueue, EnqueueAll, Dispatch, Reload, SwapState, RegisterShard, UnregisterShard;
    match op
    case OpRegister(accepts, snapshot, grant) => RegisterKeeps(b, accepts, snapshot, grant);
    case OpUnregister(id) => UnregisterKeeps(b, id);
    case OpSend(target, msg) => EnqueueKeeps(b, None, false, msg, target, false, Root);
    case OpPublish(msg) => EnqueueAllKeeps(b, None, false, msg, Recipients(b, ShapeOf(msg.payload), 1), false, Root);
    case OpSendAs(id, target, msg) => EnqueueKeeps(b, None, false, msg.(sender := id), target, true, Host(id));
    case OpPublishAs(id, msg) =>
      EnqueueAllKeeps(b, None, false, msg.(sender := id), Recipients(b, ShapeOf(msg.payload), 1), true, Host(id));
    case OpPump(script) =>
      FlagsKeep(b, None, false, true, false);
      DispatchKeeps(b.(inDispatch := true, stopRequested := false), script);
    case OpResume(script) => DispatchKeeps(b, script);
    case OpStop => FlagsKeep(b, None, false, b.inDispatch, true);
    case OpKill(id) => KillKeeps(b, id);
    case OpReload(id, policy, candidate) => ReloadKeeps(b, id, policy, candidate);
    case OpSwap(id, candidate) => ReloadKeeps(b, id, Empty(PolicySchema()), candidate);
  }

  lemma KillKeeps(b: Bus, id: ShardId)
    requires Reachable(b)
    ensures Reachable(Kill(b, id))
  {
    hide Inv, Conforms;
    if id in b.shards {
      RecordIsSound(b, id);
      KnownIsOld(b, id);
      UpdateKeeps(b, id, b.shards[id].(alive := false));
      EmitKeeps(Update(b, id, b.shards[id].(alive := false)), Died(id, StateShape(b.shards[id])));
    }
  }

  /** Every state of every run satisfies the invariant. */
  lemma {:induction false} EveryRunKeeps(b: Bus, ops: seq<Op>)
    requires Reachable(b)
    ensures Reachable(Run(b, ops))
    decreases |ops|
  {
    hide Inv, Apply;
    if ops != [] {
      ApplyKeeps(b, ops[0]);
      EveryRunKeeps(Apply(b, ops[0]), ops[1..]);
    }
  }
}
