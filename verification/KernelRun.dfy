/** The kernel as it runs (src/kernel/kernel.cpp): libraries opened, swapped and closed step by
    step through a loader that accepts only safe steps. */
module KernelRun {
  import opened Bytes
  import opened Model
  import opened Gate
  import opened Admission
  import opened AdmissionRun
  import opened Registry
  import opened Grant
  import opened SchemaId
  import opened SchemaCodec
  import opened SchemaTransport
  import opened ManifestRun
  import opened Libraries
  import opened Switchboard
  import IsolationHost
  import B = Bus
  import BusRuns
  import K = Kernel
  import opened KernelRuns

  /** dlopen, dlsym, dlclose and the thunks. Each method demands that its step be safe now. */
  class Loader {
    ghost var trace: seq<Event>
    var handles: nat
    var instances: nat

    constructor ()
      ensures trace == [] && handles == 0 && instances == 0
    {
      trace, handles, instances := [], 0, 0;
    }

    twostate predicate Did(e: Event)
      reads this
    {
      && trace == old(trace) + [e] && After(trace) == Advance(old(After(trace)), e)
      && handles == old(handles) + (if e.Opened? then 1 else 0)
      && instances == old(instances) + (if e.Created? then 1 else 0)
    }

    method Open() returns (h: nat)
      requires Allowed(After(trace), Opened(handles))
      modifies this
      ensures h == old(handles) && Did(Opened(h))
    {
      h := handles;
      Step(trace, Opened(h));
      handles := handles + 1;
      trace := trace + [Opened(h)];
    }

    method Fetch(h: nat)
      requires Allowed(After(trace), Fetched(h))
      modifies this
      ensures Did(Fetched(h))
    {
      Step(trace, Fetched(h));
      trace := trace + [Fetched(h)];
    }

    method Close(h: nat)
      requires Allowed(After(trace), Closed(h))
      modifies this
      ensures Did(Closed(h))
    {
      Step(trace, Closed(h));
      trace := trace + [Closed(h)];
    }

    method Create(h: nat) returns (i: nat)
      requires Allowed(After(trace), Created(instances, h))
      modifies this
      ensures i == old(instances) && Did(Created(i, h))
    {
      i := instances;
      Step(trace, Created(i, h));
      instances := instances + 1;
      trace := trace + [Created(i, h)];
    }

    method Call(i: nat)
      requires Allowed(After(trace), Called(i))
      modifies this
      ensures Did(Called(i))
    {
      Step(trace, Called(i));
      trace := trace + [Called(i)];
    }

    method Destroy(i: nat)
      requires Allowed(After(trace), Destroyed(i))
      modifies this
      ensures Did(Destroyed(i))
    {
      Step(trace, Destroyed(i));
      trace := trace + [Destroyed(i)];
    }
  }

  lemma Step(trace: seq<Event>, e: Event)
    ensures After(trace + [e]) == Advance(After(trace), e)
  {
    hide Advance;
    assert (trace + [e])[..|trace|] == trace;
  }

  /** The next event of a safe list is safe, and so is the rest after it. */
  lemma NextOf(p: Platform, e: Event, es: seq<Event>)
    requires AllowedAll(p, [e] + es)
    ensures Allowed(p, e) && AllowedAll(Advance(p, e), es)
  {
    hide Advance, Allowed;
    InTurn(p, [e], es);
    Singly(p, e);
  }

  predicate Wf(k: K.Kernel) { AllWf(k.registry) && forall id :: id in k.adapters ==> WfSchema(k.adapters[id].state) }

  class Kernel {
    const bus: Switchboard
    const registry: Registry
    const loader: Loader
    var libs: map<bytes, K.Loaded>
    var adapters: map<B.ShardId, K.Adapter>
    ghost var leaked: set<nat>

    constructor (bus: Switchboard)
      ensures this.bus == bus && fresh(registry) && fresh(loader)
      ensures State() == K.NEW_KERNEL.(bus := bus.State())
    {
      this.bus := bus;
      registry := new Registry();
      loader := new Loader();
      libs, adapters, leaked := map[], map[], {};
    }

    ghost function State(): K.Kernel
      reads this, bus, bus.registry, registry, loader
    {
      K.Kernel(bus.State(), registry.current, libs, adapters, loader.trace, loader.handles, loader.instances, leaked)
    }

    /** The kernel's own registry is not the bus's; every schema known was built. */
    ghost predicate Valid()
      reads this, bus, bus.registry, registry, loader
    {
      registry != bus.registry && Wf(State())
    }

    /** reconstruct */
    method RebuildManifest(manifest: Option<bytes>) returns (r: Option<(seq<Schema>, Schema)>)
      requires AllWf(registry.current)
      modifies registry
      ensures (registry.current, r) == K.Rebuild(manifest, old(registry.current))
      ensures AllWf(registry.current) && (r.Some? ==> WfSchema(r.value.1))
    {
      hide B.AdmitBytes, Reconstruct, ManifestSchema, Conforms, WfSchema;
      if manifest.None? {
        return None;
      }
      IsolationHost.MetaAreWf();
      var a := GateBytes(manifest.value, ManifestSchema());
      if a.Rejected? {
        return None;
      }
      BusRuns.AdmittedBytes(manifest.value, ManifestSchema());
      ReconstructIsWf(a.value, registry.current);
      r := ReconstructManifest(a.value, registry);
    }

    /** Give a just-opened library back. */
    method GiveUp(h: nat, i: nat)
      requires AllowedAll(After(loader.trace), [Destroyed(i)] + [Closed(h)])
      modifies loader
      ensures loader.trace == old(loader.trace) + [Destroyed(i), Closed(h)]
      ensures loader.handles == old(loader.handles) && loader.instances == old(loader.instances)
    {
      hide Advance, Allowed;
      NextOf(After(loader.trace), Destroyed(i), [Closed(h)]);
      loader.Destroy(i);
      Singly(After(loader.trace), Closed(h));
      loader.Close(h);
    }

    method Unload(name: bytes) returns (known: bool)
      requires Valid() && Inv(State())
      modifies this, bus, loader
      ensures Valid() && State() == K.Unload(old(State()), name) && known == (name in old(libs))
    {
      hide Inv, Advance, Allowed, Safe, After, AllowedAll, AdvanceAll, B.UnregisterShard, WfSchema, K.Unload,
           AllWf, Distinct, Backed, Handles, Fresh, OnTheBus;
      ghost var k := State();
      if name !in libs {
        UnloadUnknown(k, name);
        return false;
      }
      Parts(k);
      UnloadIsSafe(k, After(k.trace), name);
      UnloadIs(k, name);
      var rec := libs[name];
      libs := libs - {name};
      var found := bus.UnregisterShard(rec.id);
      if rec.id in adapters {
        var a := adapters[rec.id];
        adapters := adapters - {rec.id};
        NextOf(After(loader.trace), Destroyed(a.instance), [Closed(rec.lib)]);
        loader.Destroy(a.instance);
      } else {
        NoAdapter(adapters, rec);
      }
      Singly(After(loader.trace), Closed(rec.lib));
      loader.Close(rec.lib);
      known := true;
    }

    method Load(name: bytes, w: K.World) returns (id: Option<B.ShardId>)
      requires Valid() && Inv(State())
      modifies this, bus, bus.registry, registry, loader
      ensures Valid() && State() == K.Load(old(State()), name, w)
    {
      hide Inv, Advance, Allowed, Safe, After, AllowedAll, AdvanceAll, WfSchema, K.Load, AllWf;
      ghost var k := State();
      id := None;
      if name in libs || !w.opens {
        LoadNothing(k, name, w);
        return;
      }
      PlatformHolds(k);
      OpensFreshly(After(k.trace), loader.handles, loader.instances);
      var h := loader.Open();
      loader.Fetch(h);
      if !w.abi || !w.creates {
        loader.Close(h);
        LoadAborted(k, name, w);
        return;
      }
      var i := loader.Create(h);
      loader.Call(i);
      id := Bring(name, w, h, i, k);
    }

    /** The rest of load: what the instance says about itself, and its place on the bus. */
    method Bring(name: bytes, w: K.World, h: nat, i: nat, ghost k: K.Kernel) returns (id: Option<B.ShardId>)
      requires Valid() && name !in libs && w.opens && w.abi && w.creates
      requires State() == Made(k) && h == k.handles && i == k.instances
      requires var p := After(loader.trace);
               Allowed(p, Called(i)) && Advance(p, Called(i)) == p && AllowedAll(p, [Destroyed(i)] + [Closed(h)])
      modifies this, bus, bus.registry, registry, loader
      ensures Valid() && State() == K.Load(k, name, w)
    {
      hide Advance, Allowed, Safe, After, AllowedAll, AdvanceAll, WfSchema, K.Rebuild, K.Load, B.Adopt,
           B.RegisterEach, B.AdmitBytes, AllWf, K.SnapshotOf;
      id := None;
      var mf := RebuildManifest(w.manifest);
      if mf.None? {
        GiveUp(h, i);
        LoadRefused(k, name, w);
        return;
      }
      var (accept, state) := mf.value;
      var canonical := bus.RegisterAccepts(accept);
      if canonical.None? {
        GiveUp(h, i);
        LoadNotEnrolled(k, name, w);
        return;
      }
      id := Enlist(name, w, h, i, canonical.value, accept, state, k);
    }

    method Enlist(name: bytes, w: K.World, h: nat, i: nat, canonical: seq<Schema>, accept: seq<Schema>, state: Schema, ghost k: K.Kernel)
      returns (id: Option<B.ShardId>)
      requires Valid() && name !in libs && w.opens && w.abi && w.creates && WfSchema(state)
      requires h == k.handles && i == k.instances
      requires K.Rebuild(w.manifest, k.registry).1 == Some((accept, state)) && B.RegisterEach(k.bus.registry, accept).1 == Some(canonical)
      requires State() == Made(k).(registry := K.Rebuild(w.manifest, k.registry).0, bus := k.bus.(registry := B.RegisterEach(k.bus.registry, accept).0))
      requires var p := After(loader.trace);
               Allowed(p, Called(i)) && Advance(p, Called(i)) == p && AllowedAll(p, [Destroyed(i)] + [Closed(h)])
      modifies this, bus, bus.registry, loader
      ensures Valid() && State() == K.Load(k, name, w)
    {
      hide Advance, Allowed, Safe, After, AllowedAll, AdvanceAll, WfSchema, K.Rebuild, K.Load, B.RegisterEach,
           AllWf, K.Enroll;
      id := TakeOn(i, canonical, accept, state, w.snapshot, k.bus);
      if id.None? {
        GiveUp(h, i);
        LoadNotEnrolled(k, name, w);
        return;
      }
      adapters := adapters[id.value := K.Adapter(name, i, h, state)];
      libs := libs[name := K.Loaded(h, id.value)];
      LoadDone(k, name, w);
    }

    /** The rest of register_shard for an adapter: ask for its snapshot, gate it, adopt it. */
    method TakeOn(i: nat, canonical: seq<Schema>, accept: seq<Schema>, state: Schema, answer: Option<bytes>, ghost b: B.Bus)
      returns (id: Option<B.ShardId>)
      requires WfSchema(state) && Allowed(After(loader.trace), Called(i))
      requires B.RegisterEach(b.registry, accept).1 == Some(canonical)
      requires bus.State() == b.(registry := B.RegisterEach(b.registry, accept).0)
      modifies bus, bus.registry, loader
      ensures (bus.State(), id, true) == K.Enroll(b, accept, state, answer)
      ensures loader.Did(Called(i))
    {
      hide Advance, Allowed, After, WfSchema, B.Adopt, B.RegisterEach, B.AdmitBytes, K.SnapshotOf, K.Enroll;
      EnrollIs(b, accept, state, answer);
      loader.Call(i);
      var v := Snapshot(answer, state);
      if v.None? {
        return None;
      }
      id := bus.Adopt(canonical, v.value, K.ALLOW_ANY);
    }

    // ---- hot reload ----------------------------------------------------------------------------

    method ReloadFrom(name: bytes, w: K.World) returns (out: K.ReloadResult)
      requires Valid() && Inv(State())
      modifies this, bus, registry, loader
      ensures Valid() && (State(), out) == K.ReloadFrom(old(State()), name, w)
    {
      hide Inv, Advance, Allowed, Safe, After, AllowedAll, AdvanceAll, WfSchema, K.Replace, AllWf, Serialize,
           K.SnapshotOf;
      ghost var k := State();
      if name !in libs {
        return K.NotLoaded;
      }
      var id := libs[name].id;
      if id !in bus.shards || id !in adapters {
        return K.SnapshotFailed;
      }
      var a := adapters[id];
      CallKeeps(k, id);
      CallIsSafe(k, id);
      loader.Call(a.instance);
      assert State() == K.Log(k, [Called(a.instance)]);
      var v := Snapshot(w.snapshot, a.state);
      if v.None? {
        return K.SnapshotFailed;
      }
      var ok, snapshot := SerializeValue(v.value);
      if !ok {
        return K.SnapshotFailed;
      }
      if !w.opens {
        return K.NewRefused;
      }
      out := ReplaceWith(name, w, snapshot);
    }

    /** The new library, once it is open: try it, then swap it in behind the same shard. */
    method ReplaceWith(name: bytes, w: K.World, snapshot: bytes) returns (out: K.ReloadResult)
      requires Valid() && Inv(State()) && name in libs && libs[name].id in adapters
      modifies this, bus, registry, loader
      ensures Valid() && (State(), out) == K.Replace(old(State()), name, w, snapshot)
    {
      hide Inv, Advance, Allowed, Safe, After, AllowedAll, AdvanceAll, WfSchema, K.Replace, AllWf, K.Rebuild;
      ghost var k := State();
      PlatformHolds(k);
      OpensFreshly(After(k.trace), loader.handles, loader.instances);
      var h := loader.Open();
      loader.Fetch(h);
      if !w.abi || !w.creates {
        loader.Close(h);
        ReplaceAborted(k, name, w, snapshot);
        return K.NewRefused;
      }
      var i := loader.Create(h);
      loader.Call(i);
      assert After(loader.trace) == With(After(k.trace), h, i) by { MadeIsWith(After(k.trace), h, i); }
      out := TryNew(name, w, snapshot, h, i, k);
    }

    /** The new instance describes itself; a shard with another state schema is refused. */
    method TryNew(name: bytes, w: K.World, snapshot: bytes, h: nat, i: nat, ghost k: K.Kernel) returns (out: K.ReloadResult)
      requires Valid() && Inv(k) && name in libs && libs[name].id in adapters && w.abi && w.creates
      requires h == k.handles && i == k.instances && State() == Made(k)
      requires After(loader.trace) == With(After(k.trace), h, i) && AllowedAll(After(loader.trace), [Destroyed(i)] + [Closed(h)])
      modifies this, bus, registry, loader
      ensures Valid() && (State(), out) == K.Replace(k, name, w, snapshot)
    {
      hide Inv, Advance, Allowed, Safe, After, AllowedAll, AdvanceAll, WfSchema, K.Replace, AllWf, K.Rebuild,
           K.SameIdentity, With;
      var mf := RebuildManifest(w.manifest);
      if mf.None? {
        GiveUp(h, i);
        ReplaceRefused(k, name, w, snapshot);
        return K.NewRefused;
      }
      if !K.SameIdentity(mf.value.1, adapters[libs[name].id].state) {
        GiveUp(h, i);
        ReplaceRefused(k, name, w, snapshot);
        return K.VersionMismatch;
      }
      out := Commit(name, w, snapshot, h, i, k);
    }

    /** rebind, then swap_state, then close the old library; a revive that throws forgets it. */
    method Commit(name: bytes, w: K.World, snapshot: bytes, h: nat, i: nat, ghost k: K.Kernel) returns (out: K.ReloadResult)
      requires Valid() && Inv(k) && name in libs && libs[name].id in adapters && w.abi && w.creates
      requires h == k.handles && i == k.instances && State() == Made(k).(registry := K.Rebuild(w.manifest, k.registry).0)
      requires After(loader.trace) == With(After(k.trace), h, i)
      requires var mf := K.Rebuild(w.manifest, k.registry).1; mf.Some? && K.SameIdentity(mf.value.1, k.adapters[k.libs[name].id].state)
      modifies this, bus, loader
      ensures Valid() && (State(), out) == K.Replace(k, name, w, snapshot)
    {
      hide Inv, Advance, Allowed, Safe, After, AllowedAll, AdvanceAll, WfSchema, K.Replace, AllWf, K.Rebuild,
           B.AdmitBytes, B.SwapState;
      SwapSteps(k, name);
      ReplaceCommits(k, name, w, snapshot);
      var id, gone := libs[name].id, libs[name].lib;
      Rebind(name, h, i);
      SwapGate(k, id, snapshot);
      SwapWf(k, id);
      var admitted := Admits(id, adapters[id].state, snapshot);
      if admitted {
        loader.Call(i);
        if !w.revives {
          leaked := leaked + {gone};
          return K.Threw;
        }
      }
      var ro := bus.SwapState(id, snapshot);
      loader.Close(gone);
      out := if ro.RevivedFresh? then K.Reloaded else K.SwapRefused;
    }

    /** HostAdapter::rebind: the old instance is destroyed while its library is still open. */
    method Rebind(name: bytes, h: nat, i: nat)
      requires name in libs && libs[name].id in adapters && Wf(State())
      requires Allowed(After(loader.trace), Destroyed(adapters[libs[name].id].instance))
      modifies this`libs, this`adapters, loader
      ensures var id := old(libs)[name].id; var a := old(adapters)[id];
              && loader.Did(Destroyed(a.instance)) && Wf(State())
              && libs == old(libs)[name := K.Loaded(h, id)] && adapters == old(adapters)[id := K.Adapter(name, i, h, a.state)]
    {
      hide Advance, Allowed, After, WfSchema, AllWf;
      var id := libs[name].id;
      var a := adapters[id];
      loader.Destroy(a.instance);
      adapters := adapters[id := K.Adapter(name, i, h, a.state)];
      libs := libs[name := K.Loaded(h, id)];
    }

    /** Whether swap_state will hand the snapshot to the shard. */
    method Admits(id: B.ShardId, state: Schema, snapshot: bytes) returns (ok: bool)
      requires WfSchema(state)
      ensures ok <==> id in bus.shards && B.AdmitBytes(snapshot, state).Accepted?
    {
      hide B.AdmitBytes;
      if id !in bus.shards {
        return false;
      }
      var gate := GateBytes(snapshot, state);
      ok := gate.Accepted?;
    }

    /** HostAdapter::snapshot, re-admitted. */
    method Snapshot(answer: Option<bytes>, state: Schema) returns (v: Option<Value>)
      requires WfSchema(state)
      ensures v == K.SnapshotOf(answer, state)
    {
      hide B.AdmitBytes;
      if answer.None? {
        return None;
      }
      var a := GateBytes(answer.value, state);
      v := if a.Rejected? then None else Some(a.value);
    }
  }

  // ---- the branches of load and unload, one by one ----------------------------------------------

  /** k after a library was opened and an instance made and asked for its manifest. */
  ghost function Made(k: K.Kernel): K.Kernel {
    var h, i := k.handles, k.instances;
    k.(handles := h + 1, instances := i + 1, trace := k.trace + [Opened(h)] + [Fetched(h)] + [Created(i, h)] + [Called(i)])
  }

  lemma EnrollIs(b: B.Bus, accept: seq<Schema>, state: Schema, answer: Option<bytes>)
    requires B.RegisterEach(b.registry, accept).1.Some?
    ensures var (m, canonical) := B.RegisterEach(b.registry, accept); var b1 := b.(registry := m);
            K.Enroll(b, accept, state, answer) ==
            match K.SnapshotOf(answer, state)
            case None => (b1, None, true)
            case Some(v) =>
              var (c, id) := B.Adopt(b1, canonical.value, v, K.ALLOW_ANY);
              (c, id, true)
  {
    hide B.RegisterEach, B.Adopt, K.SnapshotOf;
  }

  lemma LoadNothing(k: K.Kernel, name: bytes, w: K.World)
    requires name in k.libs || !w.opens
    ensures K.Load(k, name, w) == k
  {
  }

  lemma LoadAborted(k: K.Kernel, name: bytes, w: K.World)
    requires name !in k.libs && w.opens && (!w.abi || !w.creates)
    ensures K.Load(k, name, w) == k.(handles := k.handles + 1, trace := k.trace + [Opened(k.handles)] + [Fetched(k.handles)] + [Closed(k.handles)])
  {
    assert k.trace + K.OpenAndClose(k.handles) == k.trace + [Opened(k.handles)] + [Fetched(k.handles)] + [Closed(k.handles)];
  }

  lemma LoadRefused(k: K.Kernel, name: bytes, w: K.World)
    requires name !in k.libs && w.opens && w.abi && w.creates && K.Rebuild(w.manifest, k.registry).1.None?
    ensures K.Load(k, name, w) ==
            Made(k).(registry := K.Rebuild(w.manifest, k.registry).0, trace := Made(k).trace + [Destroyed(k.instances), Closed(k.handles)])
  {
    hide K.Rebuild, K.Enroll;
    assert k.trace + K.TryAndClose(k.handles, k.instances, false) == Made(k).trace + [Destroyed(k.instances), Closed(k.handles)];
  }

  lemma LoadNotEnrolled(k: K.Kernel, name: bytes, w: K.World)
    requires name !in k.libs && w.opens && w.abi && w.creates && K.Rebuild(w.manifest, k.registry).1.Some?
    requires var (accept, state) := K.Rebuild(w.manifest, k.registry).1.value; K.Enroll(k.bus, accept, state, w.snapshot).1.None?
    ensures var (accept, state) := K.Rebuild(w.manifest, k.registry).1.value;
            var (b, id, asked) := K.Enroll(k.bus, accept, state, w.snapshot);
            K.Load(k, name, w) ==
            Made(k).(registry := K.Rebuild(w.manifest, k.registry).0, bus := b,
                     trace := (if asked then Made(k).trace + [Called(k.instances)] else Made(k).trace) + [Destroyed(k.instances), Closed(k.handles)])
  {
    hide K.Rebuild, K.Enroll;
    var h, i := k.handles, k.instances;
    assert k.trace + K.TryAndClose(h, i, false) == Made(k).trace + [Destroyed(i), Closed(h)];
    assert k.trace + K.TryAndClose(h, i, true) == Made(k).trace + [Called(i)] + [Destroyed(i), Closed(h)];
  }

  lemma LoadDone(k: K.Kernel, name: bytes, w: K.World)
    requires name !in k.libs && w.opens && w.abi && w.creates && K.Rebuild(w.manifest, k.registry).1.Some?
    requires var (accept, state) := K.Rebuild(w.manifest, k.registry).1.value; K.Enroll(k.bus, accept, state, w.snapshot).1.Some?
    ensures var (accept, state) := K.Rebuild(w.manifest, k.registry).1.value;
            var (b, id, _) := K.Enroll(k.bus, accept, state, w.snapshot); var h, i := k.handles, k.instances;
            K.Load(k, name, w) ==
            Made(k).(registry := K.Rebuild(w.manifest, k.registry).0, bus := b, trace := Made(k).trace + [Called(i)],
                     libs := k.libs[name := K.Loaded(h, id.value)], adapters := k.adapters[id.value := K.Adapter(name, i, h, state)])
  {
    hide K.Rebuild, K.Enroll;
    assert k.trace + (K.OpenAndKeep(k.handles, k.instances) + [Called(k.instances)]) == Made(k).trace + [Called(k.instances)];
  }

  lemma CallIsSafe(k: K.Kernel, id: B.ShardId)
    requires Inv(k) && id in k.adapters
    ensures Allowed(After(k.trace), Called(k.adapters[id].instance))
  {
    hide BusRuns.Inv, After, Safe, Handles, Distinct, OnTheBus, Fresh;
    AliveWasMade(k.trace);
  }

  lemma MadeIsWith(p: Platform, h: nat, i: nat)
    ensures Advance(Advance(p, Opened(h)), Fetched(h)) == Advance(p, Opened(h))
    ensures Advance(Advance(p, Opened(h)), Created(i, h)) == With(p, h, i)
    ensures Advance(With(p, h, i), Called(i)) == With(p, h, i)
  {
  }

  /** Each step of a commit is safe in turn. */
  lemma SwapSteps(k: K.Kernel, name: bytes)
    requires Inv(k) && name in k.libs && k.libs[name].id in k.adapters
    ensures var p := With(After(k.trace), k.handles, k.instances); var a := k.adapters[k.libs[name].id];
            && Allowed(p, Destroyed(a.instance))
            && var q := Advance(p, Destroyed(a.instance));
               Allowed(q, Called(k.instances)) && Advance(q, Called(k.instances)) == q && Allowed(q, Closed(k.libs[name].lib))
  {
    hide BusRuns.Inv, Inv, After, Safe, Handles, Distinct, Backed, OnTheBus, Fresh, AllowedAll, AdvanceAll;
    PlatformHolds(k);
    Parts(k);
    LiveOfName(k, After(k.trace), name);
    EndIsSafe(k, After(k.trace), name, [Closed(k.libs[name].lib)], true);
    var p, a := With(After(k.trace), k.handles, k.instances), k.adapters[k.libs[name].id];
    Singly(Advance(p, Destroyed(a.instance)), Closed(k.libs[name].lib));
  }

  lemma SwapGate(k: K.Kernel, id: B.ShardId, snapshot: bytes)
    requires Inv(k) && id in k.adapters
    ensures B.SwapState(k.bus, id, snapshot).1.RevivedFresh? <==>
            id in k.bus.shards && B.AdmitBytes(snapshot, k.adapters[id].state).Accepted?
  {
    hide BusRuns.Inv, After, Safe, Handles, Distinct, Backed, Fresh, B.AdmitBytes;
  }

  lemma SwapWf(k: K.Kernel, id: B.ShardId)
    requires Inv(k) && id in k.adapters && WfSchema(k.adapters[id].state)
    ensures id in k.bus.shards ==> WfSchema(k.bus.shards[id].stateSchema)
  {
    hide BusRuns.Inv, After, Safe, Handles, Distinct, Backed, Fresh, WfSchema;
  }

  lemma ReplaceAborted(k: K.Kernel, name: bytes, w: K.World, snapshot: bytes)
    requires name in k.libs && k.libs[name].id in k.adapters && (!w.abi || !w.creates)
    ensures K.Replace(k, name, w, snapshot) ==
            (k.(handles := k.handles + 1, trace := k.trace + [Opened(k.handles)] + [Fetched(k.handles)] + [Closed(k.handles)]), K.NewRefused)
  {
    assert k.trace + K.OpenAndClose(k.handles) == k.trace + [Opened(k.handles)] + [Fetched(k.handles)] + [Closed(k.handles)];
  }

  lemma ReplaceRefused(k: K.Kernel, name: bytes, w: K.World, snapshot: bytes)
    requires name in k.libs && k.libs[name].id in k.adapters && w.abi && w.creates
    requires var mf := K.Rebuild(w.manifest, k.registry).1;
             mf.None? || !K.SameIdentity(mf.value.1, k.adapters[k.libs[name].id].state)
    ensures K.Replace(k, name, w, snapshot) ==
            (Made(k).(registry := K.Rebuild(w.manifest, k.registry).0, trace := Made(k).trace + [Destroyed(k.instances), Closed(k.handles)]),
             if K.Rebuild(w.manifest, k.registry).1.None? then K.NewRefused else K.VersionMismatch)
  {
    hide K.Rebuild, B.SwapState;
    assert k.trace + K.TryAndClose(k.handles, k.instances, false) == Made(k).trace + [Destroyed(k.instances), Closed(k.handles)];
  }

  /** The three ways a commit ends. */
  lemma ReplaceCommits(k: K.Kernel, name: bytes, w: K.World, snapshot: bytes)
    requires name in k.libs && k.libs[name].id in k.adapters && w.abi && w.creates
    requires var mf := K.Rebuild(w.manifest, k.registry).1; mf.Some? && K.SameIdentity(mf.value.1, k.adapters[k.libs[name].id].state)
    ensures var id, h, i, gone := k.libs[name].id, k.handles, k.instances, k.libs[name].lib;
            var a := k.adapters[id];
            var (b, ro) := B.SwapState(k.bus, id, snapshot);
            var k1 := Made(k).(registry := K.Rebuild(w.manifest, k.registry).0,
                               libs := k.libs[name := K.Loaded(h, id)], adapters := k.adapters[id := K.Adapter(name, i, h, a.state)],
                               trace := Made(k).trace + [Destroyed(a.instance)]);
            K.Replace(k, name, w, snapshot) ==
            if !ro.RevivedFresh? then (k1.(bus := b, trace := k1.trace + [Closed(gone)]), K.SwapRefused)
            else if !w.revives then (k1.(leaked := k.leaked + {gone}, trace := k1.trace + [Called(i)]), K.Threw)
            else (k1.(bus := b, trace := k1.trace + [Called(i)] + [Closed(gone)]), K.Reloaded)
  {
    hide K.Rebuild, B.SwapState;
    var i, gone := k.instances, k.libs[name].lib;
    var swap := K.OpenAndKeep(k.handles, i) + [Destroyed(k.adapters[k.libs[name].id].instance)];
    var done := Made(k).trace + [Destroyed(k.adapters[k.libs[name].id].instance)];
    assert k.trace + swap == done;
    assert done + [Called(i), Closed(gone)] == done + [Called(i)] + [Closed(gone)];
  }

  lemma UnloadUnknown(k: K.Kernel, name: bytes)
    requires name !in k.libs
    ensures K.Unload(k, name) == k
  {
  }

  lemma UnloadIs(k: K.Kernel, name: bytes)
    requires name in k.libs
    ensures var rec := k.libs[name];
            K.Unload(k, name) ==
            k.(libs := k.libs - {name}, bus := B.UnregisterShard(k.bus, rec.id), adapters := k.adapters - {rec.id},
               trace := (if rec.id in k.adapters then k.trace + [Destroyed(k.adapters[rec.id].instance)] else k.trace) + [Closed(rec.lib)])
  {
    hide B.UnregisterShard;
    var rec := k.libs[name];
    if rec.id in k.adapters {
      var d := [Destroyed(k.adapters[rec.id].instance)];
      assert k.trace + (d + [Closed(rec.lib)]) == k.trace + d + [Closed(rec.lib)];
    } else {
      assert [] + [Closed(rec.lib)] == [Closed(rec.lib)];
    }
  }

  lemma NoAdapter(adapters: map<B.ShardId, K.Adapter>, rec: K.Loaded)
    requires rec.id !in adapters
    ensures adapters - {rec.id} == adapters && [] + [Closed(rec.lib)] == [Closed(rec.lib)]
  {
  }

  /** The steps of opening a library, making an instance, asking it things and giving it up are
      each safe in turn. */
  lemma OpensFreshly(p: Platform, h: nat, i: nat)
    requires h !in p.everOpened && i !in p.everCreated && p.open <= p.everOpened && p.live.Keys <= p.everCreated
    requires forall j :: j in p.live ==> p.live[j] in p.open
    ensures Allowed(p, Opened(h))
    ensures var q := Advance(p, Opened(h)); Allowed(q, Fetched(h)) && Advance(q, Fetched(h)) == q && Allowed(q, Closed(h)) && Allowed(q, Created(i, h))
    ensures var r := Advance(Advance(p, Opened(h)), Created(i, h));
            Allowed(r, Called(i)) && Advance(r, Called(i)) == r && AllowedAll(r, [Destroyed(i)] + [Closed(h)])
  {
    var q := Advance(p, Opened(h));
    var r := Advance(q, Created(i, h));
    InTurn(r, [Destroyed(i)], [Closed(h)]);
    Singly(r, Destroyed(i));
    Singly(Advance(r, Destroyed(i)), Closed(h));
  }
}
