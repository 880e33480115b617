/** The message bus (src/switchboard/switchboard.cpp) as a transition system on one state value.
    Handlers are adversaries: whatever list of sends, publishes, pumps and stops they like. */
module Bus {
  import opened Bytes
  import opened Model
  import opened Gate
  import opened Compat
  import opened Admission
  import opened SchemaId
  import opened Registry
  import opened Grant
  import AdmissionRun

  type ShardId = nat

  datatype Message = Message(payload: Value, sender: ShardId, replyTo: ShardId, correlation: u64)

  /** A queued delivery. Gated ones were sent by a shard and need its grant. */
  datatype Envelope = Envelope(msg: Message, target: ShardId, ticket: nat, gated: bool)

  datatype Refusal = NoSuchTarget | TargetUnavailable | NotAccepted | GateRefused(error: Error) | CapabilityDenied

  datatype Outcome = Pending | Delivered | Declined(refusal: Refusal)

  datatype Record = Record(
    accept: seq<Schema>,
    stateSchema: Schema,
    lastKnownGood: Value,
    grant: seq<SendRule>,
    reloadsUsed: nat,
    alive: bool)

  /** What observers are told. Lifecycle events carry ticket 0. */
  datatype Event =
    | Decided(ticket: nat, target: ShardId, sender: ShardId, shape: Shape, outcome: Outcome)
    | Died(target: ShardId, shape: Shape)
    | Revived(target: ShardId, shape: Shape, fromLastKnownGood: bool, fallback: Option<Refusal>)
    | RevivalRefused(target: ShardId, shape: Shape, refusal: Refusal)

  /** Who put an envelope on the queue. */
  datatype Origin = Root | Handler(id: ShardId) | Host(id: ShardId)

  /** The bus, and below the line what its history was. */
  datatype Bus = Bus(
    registry: Schemas,
    shards: map<ShardId, Record>,
    nextShard: ShardId,
    queue: seq<Envelope>,
    journal: seq<Outcome>,
    nextTicket: nat,
    inDispatch: bool,
    stopRequested: bool,
    log: seq<Event>,
    // ---- history -----------------------------------------------------------------
    origins: seq<Origin>,                    // by ticket, as the enqueuing call had it
    handled: seq<Envelope>,                  // every call of a shard's handle, in order
    granted: map<ShardId, seq<SendRule>>,    // every grant given, at registration
    departed: map<ShardId, nat>,             // |handled| when a shard was unregistered
    stated: map<ShardId, Schema>,            // every state schema, at registration
    restored: seq<(ShardId, Value)>)         // every call of a shard's revive, in order

  const NEW_BUS: Bus := Bus(map[], map[], 1, [], [Pending], 1, false, false, [], [Root], [], map[], map[], map[], [])

  function ShapeOf(v: Value): Shape { Shape(v.schema.name, v.schema.version) }

  function StateShape(r: Record): Shape { Shape(r.stateSchema.name, r.stateSchema.version) }

  // ---- enqueueing ----------------------------------------------------------------------

  /** enqueue_directed */
  function Enqueue(b: Bus, msg: Message, target: ShardId, gated: bool, who: Origin): Bus {
    b.(queue := b.queue + [Envelope(msg, target, b.nextTicket, gated)],
       journal := b.journal + [Pending],
       nextTicket := b.nextTicket + 1,
       origins := b.origins + [who])
  }

  /** The accept-set's schema of this name and version. */
  function AcceptMatch(accept: seq<Schema>, shape: Shape): Option<Schema> {
    if accept == [] then None
    else if accept[0].name == shape.name && accept[0].version == shape.version then Some(accept[0])
    else AcceptMatch(accept[1..], shape)
  }

  predicate Receives(b: Bus, id: ShardId, shape: Shape) {
    id in b.shards && b.shards[id].alive && AcceptMatch(b.shards[id].accept, shape).Some?
  }

  /** The shards from id on that take this shape, in registration order. */
  function Recipients(b: Bus, shape: Shape, id: ShardId): seq<ShardId>
    decreases b.nextShard - id
  {
    if id >= b.nextShard then []
    else (if Receives(b, id, shape) then [id] else []) + Recipients(b, shape, id + 1)
  }

  function EnqueueAll(b: Bus, msg: Message, targets: seq<ShardId>, gated: bool, who: Origin): Bus
    decreases |targets|
  {
    if targets == [] then b else EnqueueAll(Enqueue(b, msg, targets[0], gated, who), msg, targets[1..], gated, who)
  }

  /** fanout */
  function Fanout(b: Bus, msg: Message, gated: bool, who: Origin): Bus {
    EnqueueAll(b, msg, Recipients(b, ShapeOf(msg.payload), 1), gated, who)
  }

  function Send(b: Bus, target: ShardId, msg: Message): Bus { Enqueue(b, msg, target, false, Root) }

  function PublishMessage(b: Bus, msg: Message): Bus { Fanout(b, msg, false, Root) }

  function SendAs(b: Bus, sender: ShardId, target: ShardId, msg: Message, who: Origin): Bus {
    Enqueue(b, msg.(sender := sender), target, true, who)
  }

  function PublishAs(b: Bus, sender: ShardId, msg: Message, who: Origin): Bus {
    Fanout(b, msg.(sender := sender), true, who)
  }

  // ---- delivery ------------------------------------------------------------------------

  predicate Authorized(b: Bus, env: Envelope) {
    !env.gated ||
    (env.msg.sender in b.shards && Permits(b.shards[env.msg.sender].grant, ShapeOf(env.msg.payload), env.target))
  }

  /** Admission::first_error */
  function FirstError(a: Admission): Error
    requires a.Rejected?
  {
    if a.errors == [] then Error(NoError, []) else a.errors[0]
  }

  /** The gate's verdict as an outcome. */
  function GateOutcome(v: Value, door: Schema): Outcome {
    var a := AdmitLive(v, door, false);
    if a.Accepted? then Delivered else Declined(GateRefused(FirstError(a)))
  }

  /** deliver_one up to the handler: existence, life, authority, accept-set, gate. */
  function Judge(b: Bus, env: Envelope): Outcome {
    if env.target !in b.shards then Declined(NoSuchTarget)
    else if !b.shards[env.target].alive then Declined(TargetUnavailable)
    else if !Authorized(b, env) then Declined(CapabilityDenied)
    else
      match AcceptMatch(b.shards[env.target].accept, ShapeOf(env.msg.payload))
      case None => Declined(NotAccepted)
      case Some(door) => GateOutcome(env.msg.payload, door)
  }

  /** One thing a handler can do through the bus it is handed, or by asking for a stop. */
  datatype Action = SendTo(target: ShardId, msg: Message) | PublishIt(msg: Message) | PumpAgain | AskStop

  function Act(b: Bus, self: ShardId, a: Action): Bus {
    match a
    case SendTo(target, msg) => SendAs(b, self, target, msg, Handler(self))
    case PublishIt(msg) => PublishAs(b, self, msg, Handler(self))
    case PumpAgain => b
    case AskStop => b.(stopRequested := true)
  }

  function ActAll(b: Bus, self: ShardId, acts: seq<Action>): Bus
    decreases |acts|
  {
    if acts == [] then b else ActAll(Act(b, self, acts[0]), self, acts[1..])
  }

  /** record, then emit. */
  function Decide(b: Bus, env: Envelope, outcome: Outcome): Bus {
    b.(journal := if env.ticket < |b.journal| then b.journal[env.ticket := outcome] else b.journal,
       log := b.log + [Decided(env.ticket, env.target, env.msg.sender, ShapeOf(env.msg.payload), outcome)])
  }

  /** deliver_one; acts is what the handler does if it is reached. */
  function Deliver(b: Bus, env: Envelope, acts: seq<Action>): Bus {
    var verdict := Judge(b, env);
    if verdict.Delivered? then
      Decide(ActAll(b.(handled := b.handled + [env]), env.target, acts), env, Delivered)
    else Decide(b, env, verdict)
  }

  /** The dispatch loop; script holds what each delivery's handler does. A script that runs
      out leaves the loop where it is, still dispatching. */
  function Dispatch(b: Bus, script: seq<seq<Action>>): Bus
    decreases |script|
  {
    if b.queue == [] || b.stopRequested then b.(inDispatch := false)
    else if script == [] then b
    else Dispatch(Deliver(b.(queue := b.queue[1..]), b.queue[0], script[0]), script[1..])
  }

  function Pumped(b: Bus, script: seq<seq<Action>>): Bus {
    if b.inDispatch then b else Dispatch(b.(inDispatch := true, stopRequested := false), script)
  }

  /** A dispatch left open goes on. Between leaving it and going on any operation can be made, as
      from inside the handler it was left at. */
  function Resumed(b: Bus, script: seq<seq<Action>>): Bus {
    if b.inDispatch then Dispatch(b, script) else b
  }

  // ---- registration and lifecycle ---------------------------------------------------------

  /** Registering a list of schemas: the registry after, and the canonical schemas, or None at
      the first conflict. What was published before the conflict stays. */
  function RegisterEach(m: Schemas, ss: seq<Schema>): (Schemas, Option<seq<Schema>>)
    decreases |ss|
  {
    if ss == [] then (m, Some([]))
    else
      match Register(m, ss[0])
      case Conflict(_, _) => (m, None)
      case Registered(s, _) =>
        var (n, rest) := RegisterEach(Publish(m, ss[0]), ss[1..]);
        (n, if rest.None? then None else Some([s] + rest.value))
  }

  /** register_shard; None where it throws. */
  function RegisterShard(b: Bus, accepts: seq<Schema>, snapshot: Value, grant: seq<SendRule>): (Bus, Option<ShardId>) {
    var (m, canonical) := RegisterEach(b.registry, accepts);
    if canonical.None? then (b.(registry := m), None)
    else Adopt(b.(registry := m), canonical.value, snapshot, grant)
  }

  /** The rest of register_shard, once the accept-set is canonical and the snapshot taken. */
  function Adopt(b: Bus, accept: seq<Schema>, snapshot: Value, grant: seq<SendRule>): (Bus, Option<ShardId>) {
    if Register(b.registry, snapshot.schema).Conflict? then (b, None)
    else
      var b1 := b.(registry := Publish(b.registry, snapshot.schema));
      match AdmitLive(snapshot, snapshot.schema, false)
      case Rejected(_) => (b1, None)
      case Accepted(seeded) =>
        (b1.(shards := b1.shards[b.nextShard := Record(accept, snapshot.schema, seeded, grant, 0, true)],
             nextShard := b.nextShard + 1,
             granted := b1.granted[b.nextShard := grant],
             stated := b1.stated[b.nextShard := snapshot.schema]),
         Some(b.nextShard))
  }

  function UnregisterShard(b: Bus, id: ShardId): Bus {
    if id !in b.shards then b
    else b.(shards := b.shards - {id}, departed := b.departed[id := |b.handled|])
  }

  function Update(b: Bus, id: ShardId, r: Record): Bus { b.(shards := b.shards[id := r]) }

  function Emit(b: Bus, e: Event): Bus { b.(log := b.log + [e]) }

  function Kill(b: Bus, id: ShardId): Bus {
    if id !in b.shards then b
    else Emit(Update(b, id, b.shards[id].(alive := false)), Died(id, StateShape(b.shards[id])))
  }

  /** lifecycle_policy_schema */
  const POLICY_NAME: bytes := [0x4C, 0x69, 0x66, 0x65, 0x63, 0x79, 0x63, 0x6C, 0x65, 0x50, 0x6F, 0x6C, 0x69, 0x63, 0x79]
  const MAX_RELOADS: bytes := [0x6D, 0x61, 0x78, 0x5F, 0x72, 0x65, 0x6C, 0x6F, 0x61, 0x64, 0x73]
  const REVIVE_FROM_LAST_GOOD: bytes :=
    [0x72, 0x65, 0x76, 0x69, 0x76, 0x65, 0x5F, 0x66, 0x72, 0x6F, 0x6D, 0x5F, 0x6C, 0x61, 0x73, 0x74, 0x5F, 0x67, 0x6F, 0x6F, 0x64]
  const POLICY_FIELDS: seq<Field> := [Field(MAX_RELOADS, IntT, true), Field(REVIVE_FROM_LAST_GOOD, BoolT, true)]

  function PolicySchema(): Schema {
    Schema(POLICY_NAME, 1, POLICY_FIELDS, ContentId(POLICY_NAME, 1, POLICY_FIELDS))
  }

  datatype Policy = Policy(maxReloads: i64, reviveFromLastGood: bool)

  /** What a policy that passed the gate says. */
  function PolicyOf(v: Value): Policy
    requires Conforms(v, PolicySchema())
  {
    PolicyFields(v);
    Policy(Get(v, MAX_RELOADS).value.i, Get(v, REVIVE_FROM_LAST_GOOD).value.b)
  }

  /** Reading a gated policy never meets an absent or mistyped field. */
  lemma PolicyFields(v: Value)
    requires Conforms(v, PolicySchema())
    ensures Get(v, MAX_RELOADS).Some? && Get(v, MAX_RELOADS).value.IntC?
    ensures Get(v, REVIVE_FROM_LAST_GOOD).Some? && Get(v, REVIVE_FROM_LAST_GOOD).value.BoolC?
  {
    hide ContentId, Conforms, Get;
    FieldIsThere(v, PolicySchema(), 0);
    FieldIsThere(v, PolicySchema(), 1);
  }

  /** The native path never consults float text. */
  function NoFloatText(): FloatText { FloatText((_: u64) => [], (_: bytes) => None) }

  /** parse, then admit under the state schema. */
  function AdmitBytes(candidate: bytes, door: Schema): Admission {
    Admit(Parse(candidate), door, false, NoFloatText())
  }

  datatype ReviveOutcome =
    | Unknown
    | PolicyMalformed(error: Error)
    | Exhausted
    | RevivedFresh
    | RevivedLastGood(refusal: Error)
    | CandidateRefused(refusal: Error)

  /** The shard is handed a state, which becomes its last-known-good. */
  function Restore(b: Bus, id: ShardId, state: Value, spend: nat): Bus
    requires id in b.shards
  {
    var r := b.shards[id];
    Update(b, id, r.(lastKnownGood := state, reloadsUsed := r.reloadsUsed + spend, alive := true))
      .(restored := b.restored + [(id, state)])
  }

  /** reload: crash revival, on the shard's budget. */
  function Reload(b: Bus, id: ShardId, policy: Value, candidate: bytes): (Bus, ReviveOutcome) {
    if id !in b.shards then (b, Unknown)
    else
      var r := b.shards[id];
      var gate := AdmitLive(policy, PolicySchema(), false);
      if gate.Rejected? then (b, PolicyMalformed(FirstError(gate)))
      else
        AdmissionRun.LiveAdmits(policy, PolicySchema(), false);
        var p := PolicyOf(policy);
        if r.reloadsUsed >= p.maxReloads then (b, Exhausted)
        else
          var a := AdmitBytes(candidate, r.stateSchema);
          if a.Accepted? then
            (Emit(Restore(b, id, a.value, 1), Revived(id, StateShape(r), false, None)), RevivedFresh)
          else if p.reviveFromLastGood then
            (Emit(Restore(b, id, r.lastKnownGood, 1), Revived(id, StateShape(r), true, Some(GateRefused(FirstError(a))))),
             RevivedLastGood(FirstError(a)))
          else (Emit(b, RevivalRefused(id, StateShape(r), GateRefused(FirstError(a)))), CandidateRefused(FirstError(a)))
  }

  /** swap_state: an intentional swap, off the budget and without a fallback. */
  function SwapState(b: Bus, id: ShardId, candidate: bytes): (Bus, ReviveOutcome) {
    if id !in b.shards then (b, Unknown)
    else
      var r := b.shards[id];
      var a := AdmitBytes(candidate, r.stateSchema);
      if a.Accepted? then (Emit(Restore(b, id, a.value, 0), Revived(id, StateShape(r), false, None)), RevivedFresh)
      else (Emit(b, RevivalRefused(id, StateShape(r), GateRefused(FirstError(a)))), CandidateRefused(FirstError(a)))
  }

  // ---- runs ------------------------------------------------------------------------------

  datatype Op =
    | OpRegister(accepts: seq<Schema>, snapshot: Value, grant: seq<SendRule>)
    | OpUnregister(id: ShardId)
    | OpSend(target: ShardId, msg: Message)
    | OpPublish(msg: Message)
    | OpSendAs(id: ShardId, target: ShardId, msg: Message)
    | OpPublishAs(id: ShardId, msg: Message)
    | OpPump(script: seq<seq<Action>>)
    | OpResume(script: seq<seq<Action>>)
    | OpStop
    | OpKill(id: ShardId)
    | OpReload(id: ShardId, policy: Value, candidate: bytes)
    | OpSwap(id: ShardId, candidate: bytes)

  function Apply(b: Bus, op: Op): Bus {
    match op
    case OpRegister(accepts, snapshot, grant) => RegisterShard(b, accepts, snapshot, grant).0
    case OpUnregister(id) => UnregisterShard(b, id)
    case OpSend(target, msg) => Send(b, target, msg)
    case OpPublish(msg) => PublishMessage(b, msg)
    case OpSendAs(id, target, msg) => SendAs(b, id, target, msg, Host(id))
    case OpPublishAs(id, msg) => PublishAs(b, id, msg, Host(id))
    case OpPump(script) => Pumped(b, script)
    case OpResume(script) => Resumed(b, script)
    case OpStop => b.(stopRequested := true)
    case OpKill(id) => Kill(b, id)
    case OpReload(id, policy, candidate) => Reload(b, id, policy, candidate).0
    case OpSwap(id, candidate) => SwapState(b, id, candidate).0
  }

  /** The state a sequence of operations leads to. */
  function Run(b: Bus, ops: seq<Op>): Bus
    decreases |ops|
  {
    if ops == [] then b else Run(Apply(b, ops[0]), ops[1..])
  }
}
