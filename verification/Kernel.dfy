/** The kernel (src/kernel/kernel.cpp): shards loaded from libraries, hot-reloaded in place and
    unloaded, with every step of it allowed to fail. */
module Kernel {
  import opened Bytes
  import opened Model
  import opened Admission
  import opened Registry
  import opened Grant
  import opened SchemaCodec
  import opened SchemaTransport
  import opened Libraries
  import B = Bus
  import BusRuns

  /** HostAdapter: the shard on the bus, and the instance and library behind it. */
  datatype Adapter = Adapter(name: bytes, instance: nat, lib: nat, state: Schema)

  datatype Loaded = Loaded(lib: nat, id: B.ShardId)

  datatype Kernel = Kernel(
    bus: B.Bus,
    registry: Schemas,
    libs: map<bytes, Loaded>,
    adapters: map<B.ShardId, Adapter>,
    // ---- history -----------------------------------------------------------------
    trace: seq<Event>,
    handles: nat,       // opens so far
    instances: nat,     // instances so far
    leaked: set<nat>)   // handles forgotten while open

  const NEW_KERNEL: Kernel := Kernel(B.NEW_BUS, map[], map[], map[], [], 0, 0, {})

  /** What the loader and the library's thunks answer during one call; None is a failed status. */
  datatype World = World(opens: bool, abi: bool, creates: bool,
                         manifest: Option<bytes>, snapshot: Option<bytes>, revives: bool)

  const ALLOW_ANY: seq<SendRule> := [SendRule(None, None)]

  function Log(k: Kernel, es: seq<Event>): Kernel { k.(trace := k.trace + es) }

  /** reconstruct: the registry after, and the accept-set and state schema, or None where it throws. */
  function Rebuild(manifest: Option<bytes>, m: Schemas): (Schemas, Option<(seq<Schema>, Schema)>) {
    if manifest.None? then (m, None)
    else
      var a := B.AdmitBytes(manifest.value, ManifestSchema());
      if a.Rejected? then (m, None)
      else
        BusRuns.AdmittedBytes(manifest.value, ManifestSchema());
        Reconstruct(a.value, m)
  }

  /** HostAdapter::snapshot, re-admitted host-side; None where it throws. */
  function SnapshotOf(answer: Option<bytes>, state: Schema): Option<Value> {
    if answer.None? then None
    else
      var a := B.AdmitBytes(answer.value, state);
      if a.Rejected? then None else Some(a.value)
  }

  /** register_shard of an adapter: the bus after, the id or None where it throws, and whether the
      snapshot thunk was reached. */
  function Enroll(b: B.Bus, accept: seq<Schema>, state: Schema, answer: Option<bytes>): (B.Bus, Option<B.ShardId>, bool) {
    var (m, canonical) := B.RegisterEach(b.registry, accept);
    if canonical.None? then (b.(registry := m), None, false)
    else
      match SnapshotOf(answer, state)
      case None => (b.(registry := m), None, true)
      case Some(v) =>
        var (c, id) := B.RegisterShard(b, accept, v, ALLOW_ANY);
        (c, id, true)
  }

  // ---- load, reload, unload -----------------------------------------------------------------------

  /** A library that was opened and given up at once. */
  function OpenAndClose(h: nat): seq<Event> { [Opened(h), Fetched(h), Closed(h)] }

  /** A library whose instance was made, asked for its manifest and maybe its snapshot, and given up. */
  function TryAndClose(h: nat, i: nat, asked: bool): seq<Event> {
    [Opened(h), Fetched(h), Created(i, h), Called(i)] + (if asked then [Called(i)] else []) + [Destroyed(i), Closed(h)]
  }

  function OpenAndKeep(h: nat, i: nat): seq<Event> { [Opened(h), Fetched(h), Created(i, h), Called(i)] }

  function Load(k: Kernel, name: bytes, w: World): Kernel {
    if name in k.libs || !w.opens then k
    else
      var h, i := k.handles, k.instances;
      if !w.abi || !w.creates then Log(k.(handles := h + 1), OpenAndClose(h))
      else
        var (m, schemas) := Rebuild(w.manifest, k.registry);
        var k1 := k.(handles := h + 1, instances := i + 1, registry := m);
        if schemas.None? then Log(k1, TryAndClose(h, i, false))
        else
          var (b, id, asked) := Enroll(k.bus, schemas.value.0, schemas.value.1, w.snapshot);
          if id.None? then Log(k1.(bus := b), TryAndClose(h, i, asked))
          else Log(k1.(bus := b, libs := k.libs[name := Loaded(h, id.value)],
                       adapters := k.adapters[id.value := Adapter(name, i, h, schemas.value.1)]),
                   OpenAndKeep(h, i) + [Called(i)])
  }

  datatype ReloadResult = NotLoaded | SnapshotFailed | NewRefused | VersionMismatch | SwapRefused | Reloaded | Threw

  predicate SameIdentity(s: Schema, t: Schema) { s.name == t.name && s.version == t.version && s.id == t.id }

  function ReloadFrom(k: Kernel, name: bytes, w: World): (Kernel, ReloadResult) {
    if name !in k.libs then (k, NotLoaded)
    else
      var id := k.libs[name].id;
      if id !in k.bus.shards || id !in k.adapters then (k, SnapshotFailed)
      else
        var a := k.adapters[id];
        var k0 := Log(k, [Called(a.instance)]);
        match SnapshotOf(w.snapshot, a.state)
        case None => (k0, SnapshotFailed)
        case Some(v) =>
          if Serialize(v).None? then (k0, SnapshotFailed)
          else if !w.opens then (k0, NewRefused)
          else Replace(k0, name, w, Serialize(v).value)
  }

  /** reload_from, once the snapshot is taken and the new library is open. */
  function Replace(k: Kernel, name: bytes, w: World, snapshot: bytes): (Kernel, ReloadResult)
    requires name in k.libs && k.libs[name].id in k.adapters
  {
    var id, h, i := k.libs[name].id, k.handles, k.instances;
    var a := k.adapters[id];
    if !w.abi || !w.creates then (Log(k.(handles := h + 1), OpenAndClose(h)), NewRefused)
    else
      var (m, schemas) := Rebuild(w.manifest, k.registry);
      var k1 := k.(handles := h + 1, instances := i + 1, registry := m);
      if schemas.None? then (Log(k1, TryAndClose(h, i, false)), NewRefused)
      else if !SameIdentity(schemas.value.1, a.state) then (Log(k1, TryAndClose(h, i, false)), VersionMismatch)
      else
        var k2 := Log(k1.(libs := k.libs[name := Loaded(h, id)], adapters := k.adapters[id := Adapter(name, i, h, a.state)]),
                      OpenAndKeep(h, i) + [Destroyed(a.instance)]);
        var (b, out) := B.SwapState(k.bus, id, snapshot);
        if !out.RevivedFresh? then (Log(k2.(bus := b), [Closed(k.libs[name].lib)]), SwapRefused)
        else if !w.revives then (Log(k2, [Called(i)]).(leaked := k.leaked + {k.libs[name].lib}), Threw)
        else (Log(k2.(bus := b), [Called(i), Closed(k.libs[name].lib)]), Reloaded)
  }

  function Unload(k: Kernel, name: bytes): Kernel {
    if name !in k.libs then k
    else
      var rec := k.libs[name];
      var k1 := k.(libs := k.libs - {name}, bus := B.UnregisterShard(k.bus, rec.id), adapters := k.adapters - {rec.id});
      Log(k1, (if rec.id in k.adapters then [Destroyed(k.adapters[rec.id].instance)] else []) + [Closed(rec.lib)])
  }

  // ---- what else runs library code ---------------------------------------------------------------------

  /** The host takes a shard off the bus itself and drops it. */
  function Detach(k: Kernel, id: B.ShardId): Kernel {
    Log(k.(bus := B.UnregisterShard(k.bus, id), adapters := k.adapters - {id}),
        if id in k.adapters then [Destroyed(k.adapters[id].instance)] else [])
  }

  function Calls(adapters: map<B.ShardId, Adapter>, ids: seq<B.ShardId>): seq<Event> {
    if ids == [] then []
    else (if ids[0] in adapters then [Called(adapters[ids[0]].instance)] else []) + Calls(adapters, ids[1..])
  }

  function Targets(es: seq<B.Envelope>): seq<B.ShardId> {
    if es == [] then [] else [es[0].target] + Targets(es[1..])
  }

  function Restorees(rs: seq<(B.ShardId, Value)>): seq<B.ShardId> {
    if rs == [] then [] else [rs[0].0] + Restorees(rs[1..])
  }

  /** The shards a bus operation calls into: a policy question, handlers, revivals. */
  function Reached(b: B.Bus, c: B.Bus, op: B.Op): seq<B.ShardId> {
    (if op.OpReload? then [op.id] else [])
    + (if |b.handled| <= |c.handled| then Targets(c.handled[|b.handled|..]) else [])
    + (if |b.restored| <= |c.restored| then Restorees(c.restored[|b.restored|..]) else [])
  }

  function OnBus(k: Kernel, op: B.Op): Kernel {
    var b := B.Apply(k.bus, op);
    Log(k.(bus := b), Calls(k.adapters, Reached(k.bus, b, op)))
  }

  datatype KernelOp =
    | DoLoad(name: bytes, w: World)
    | DoReload(name: bytes, w: World)
    | DoUnload(name: bytes)
    | DoDetach(id: B.ShardId)
    | DoBus(op: B.Op)

  function Apply(k: Kernel, op: KernelOp): Kernel {
    match op
    case DoLoad(name, w) => Load(k, name, w)
    case DoReload(name, w) => ReloadFrom(k, name, w).0
    case DoUnload(name) => Unload(k, name)
    case DoDetach(id) => Detach(k, id)
    case DoBus(op) => if op.OpUnregister? then Detach(k, op.id) else OnBus(k, op)
  }

  function Run(k: Kernel, ops: seq<KernelOp>): Kernel
    decreases |ops|
  {
    if ops == [] then k else Run(Apply(k, ops[0]), ops[1..])
  }
}
