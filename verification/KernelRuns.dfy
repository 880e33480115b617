/** Library lifetime safety: over every sequence of loads, reloads, unloads and deliveries, no
    thunk runs on a destroyed instance or through a closed library. */
module KernelRuns {
  import opened Bytes
  import opened Model
  import opened Gate
  import opened Admission
  import opened Registry
  import opened Grant
  import opened Libraries
  import opened Kernel
  import B = Bus
  import BusRuns
  import BusGuarantees
  import SupervisorRuns

  function Handles(libs: map<bytes, Loaded>): set<nat> { set n | n in libs :: libs[n].lib }

  /** Names, handles and ids of the loaded libraries do not clash, and none is forgotten. */
  predicate Distinct(libs: map<bytes, Loaded>, leaked: set<nat>, nextShard: nat) {
    && (forall n, m :: n in libs && m in libs && n != m ==> libs[n].lib != libs[m].lib && libs[n].id != libs[m].id)
    && (forall n :: n in libs ==> libs[n].lib !in leaked && libs[n].id < nextShard)
  }

  /** Every adapter is backed by a live instance of the library loaded under its name. */
  predicate Backed(adapters: map<B.ShardId, Adapter>, libs: map<bytes, Loaded>, live: map<nat, nat>) {
    && (forall id :: id in adapters ==>
          var a := adapters[id];
          a.name in libs && libs[a.name] == Loaded(a.lib, id) && a.instance in live && live[a.instance] == a.lib)
    && (forall id, jd :: id in adapters && jd in adapters && id != jd ==> adapters[id].instance != adapters[jd].instance)
    && forall i :: i in live ==> exists id :: id in adapters && adapters[id].instance == i
  }

  /** Adapters are the bus's shards, with the state schema they were built with. */
  predicate OnTheBus(adapters: map<B.ShardId, Adapter>, b: B.Bus) {
    forall id :: id in adapters ==> id in b.shards && b.shards[id].stateSchema == adapters[id].state
  }

  predicate Fresh(p: Platform, handles: nat, instances: nat) {
    (forall h :: h in p.everOpened ==> h < handles) && (forall i :: i in p.everCreated ==> i < instances)
  }

  ghost predicate Inv(k: Kernel) {
    var p := After(k.trace);
    && BusRuns.Reachable(k.bus)
    && Safe(k.trace)
    && p.open == Handles(k.libs) + k.leaked
    && Distinct(k.libs, k.leaked, k.bus.nextShard)
    && Backed(k.adapters, k.libs, p.live)
    && OnTheBus(k.adapters, k.bus)
    && Fresh(p, k.handles, k.instances)
  }

  // ---- opening a library and giving it up ----------------------------------------------------------

  lemma OpenAndCloseIsSafe(p: Platform, h: nat)
    requires h !in p.everOpened && p.open <= p.everOpened && forall i :: i in p.live ==> p.live[i] in p.open
    ensures AllowedAll(p, OpenAndClose(h))
    ensures AdvanceAll(p, OpenAndClose(h)) == p.(everOpened := p.everOpened + {h})
  {
    var p1 := Advance(p, Opened(h));
    assert OpenAndClose(h)[1..] == [Fetched(h), Closed(h)] && [Fetched(h), Closed(h)][1..] == [Closed(h)];
    assert Advance(p1, Closed(h)).open == p.open;
    Singly(p1, Closed(h));
  }

  lemma Singly(p: Platform, e: Event)
    ensures AllowedAll(p, [e]) <==> Allowed(p, e)
    ensures AdvanceAll(p, [e]) == Advance(p, e)
  {
    hide Advance, Allowed;
    assert [e][1..] == [];
  }

  lemma {:induction false} InTurn(p: Platform, es: seq<Event>, fs: seq<Event>)
    ensures AllowedAll(p, es + fs) <==> AllowedAll(p, es) && AllowedAll(AdvanceAll(p, es), fs)
    ensures AdvanceAll(p, es + fs) == AdvanceAll(AdvanceAll(p, es), fs)
    decreases |es|
  {
    hide Advance, Allowed;
    if es == [] {
      assert es + fs == fs;
    } else {
      assert (es + fs)[1..] == es[1..] + fs;
      InTurn(Advance(p, es[0]), es[1..], fs);
    }
  }

  /** The platform with one more open library and one live instance of it. */
  function With(p: Platform, h: nat, i: nat): Platform {
    Platform(p.open + {h}, p.live[i := h], p.everOpened + {h}, p.everCreated + {i})
  }

  lemma OpenAndKeepIsSafe(p: Platform, h: nat, i: nat)
    requires h !in p.everOpened && i !in p.everCreated
    ensures AllowedAll(p, OpenAndKeep(h, i)) && AdvanceAll(p, OpenAndKeep(h, i)) == With(p, h, i)
  {
    hide AllowedAll, AdvanceAll;
    var p1 := Advance(p, Opened(h));
    var p2 := Advance(p1, Created(i, h));
    assert OpenAndKeep(h, i) == [Opened(h)] + ([Fetched(h)] + ([Created(i, h)] + [Called(i)]));
    InTurn(p, [Opened(h)], [Fetched(h)] + ([Created(i, h)] + [Called(i)]));
    InTurn(p1, [Fetched(h)], [Created(i, h)] + [Called(i)]);
    InTurn(p1, [Created(i, h)], [Called(i)]);
    Singly(p, Opened(h));
    Singly(p1, Fetched(h));
    Singly(p1, Created(i, h));
    Singly(p2, Called(i));
    assert p2 == With(p, h, i);
  }

  lemma TryAndCloseIsSafe(p: Platform, h: nat, i: nat, asked: bool)
    requires h !in p.everOpened && i !in p.everCreated && p.open <= p.everOpened && p.live.Keys <= p.everCreated
    requires forall j :: j in p.live ==> p.live[j] in p.open
    ensures AllowedAll(p, TryAndClose(h, i, asked))
    ensures AdvanceAll(p, TryAndClose(h, i, asked)) ==
            p.(everOpened := p.everOpened + {h}, everCreated := p.everCreated + {i})
  {
    hide AllowedAll, AdvanceAll;
    var q := With(p, h, i);
    var ask := if asked then [Called(i)] else [];
    assert TryAndClose(h, i, asked) == OpenAndKeep(h, i) + (ask + ([Destroyed(i)] + [Closed(h)]));
    OpenAndKeepIsSafe(p, h, i);
    InTurn(p, OpenAndKeep(h, i), ask + ([Destroyed(i)] + [Closed(h)]));
    InTurn(q, ask, [Destroyed(i)] + [Closed(h)]);
    Singly(q, Called(i));
    Nothing(q);
    var r := Advance(q, Destroyed(i));
    assert r.live == p.live;
    InTurn(q, [Destroyed(i)], [Closed(h)]);
    Singly(q, Destroyed(i));
    Singly(r, Closed(h));
    assert Advance(r, Closed(h)).open == p.open;
  }

  lemma Nothing(p: Platform)
    ensures AllowedAll(p, []) && AdvanceAll(p, []) == p
  {
  }

  /** Any transition of the rest of the state, together with the events that go with it. */
  lemma LogKeeps(k: Kernel, k1: Kernel, es: seq<Event>, q: Platform)
    requires Inv(k) && k1.trace == k.trace
    requires AllowedAll(After(k.trace), es) && AdvanceAll(After(k.trace), es) == q
    requires BusRuns.Reachable(k1.bus)
    requires q.open == Handles(k1.libs) + k1.leaked && Distinct(k1.libs, k1.leaked, k1.bus.nextShard)
    requires Backed(k1.adapters, k1.libs, q.live) && OnTheBus(k1.adapters, k1.bus) && Fresh(q, k1.handles, k1.instances)
    ensures Inv(Log(k1, es))
  {
    hide BusRuns.Inv, Handles, Distinct, Backed, OnTheBus, Fresh, AllowedAll, AdvanceAll, After, Safe;
    Append(k.trace, es);
  }

  lemma PlatformHolds(k: Kernel)
    requires Inv(k)
    ensures var p := After(k.trace);
            && p.open <= p.everOpened && p.live.Keys <= p.everCreated && (forall i :: i in p.live ==> p.live[i] in p.open)
            && k.handles !in p.everOpened && k.instances !in p.everCreated
  {
    hide BusRuns.Inv, Handles, Distinct, Backed, OnTheBus;
    AliveWasMade(k.trace);
  }

  /** A bus that only grew keeps what the kernel knows of it. */
  predicate Grew(b: B.Bus, c: B.Bus) {
    && b.nextShard <= c.nextShard
    && forall id :: id in b.shards ==> id in c.shards && c.shards[id].stateSchema == b.shards[id].stateSchema
  }

  lemma GiveUpKeeps(k: Kernel, b: B.Bus, m: Schemas, es: seq<Event>, handles: nat, instances: nat)
    requires Inv(k) && BusRuns.Reachable(b) && Grew(k.bus, b)
    requires AllowedAll(After(k.trace), es)
    requires var p, q := After(k.trace), AdvanceAll(After(k.trace), es);
             q.open == p.open && q.live == p.live && Fresh(q, handles, instances)
    ensures Inv(Log(k.(bus := b, registry := m, handles := handles, instances := instances), es))
  {
    hide BusRuns.Inv, Handles, Backed, Fresh, AllowedAll, AdvanceAll, After, Safe;
    LogKeeps(k, k.(bus := b, registry := m, handles := handles, instances := instances), es, AdvanceAll(After(k.trace), es));
  }

  // ---- load ------------------------------------------------------------------------------------------

  lemma EnrollIsSound(b: B.Bus, accept: seq<Schema>, state: Schema, answer: Option<bytes>)
    requires BusRuns.Reachable(b)
    ensures var (c, id, asked) := Enroll(b, accept, state, answer);
            && BusRuns.Reachable(c) && Grew(b, c)
            && (id.Some? ==> asked && id.value == b.nextShard && c.nextShard == b.nextShard + 1 && id.value in c.shards &&
                             c.shards[id.value].stateSchema == state)
  {
    hide BusRuns.Inv, B.RegisterEach, B.AdmitBytes, AdmitLive;
    var (m, canonical) := B.RegisterEach(b.registry, accept);
    assert Keyed(b.registry) by { BusRuns.RegistryIsKeyed(b); }
    assert Keyed(m) && Extends(b.registry, m) by { BusRuns.EachIsCanonical(b.registry, accept); }
    BusRuns.GrowKeeps(b, m);
    if canonical.Some? && SnapshotOf(answer, state).Some? {
      var v := SnapshotOf(answer, state).value;
      assert v.schema == state by { BusRuns.AdmittedBytes(answer.value, state); }
      BusRuns.ApplyKeeps(b, B.OpRegister(accept, v, ALLOW_ANY));
      RegisterGrows(b, accept, v, ALLOW_ANY);
    }
  }

  lemma RegisterGrows(b: B.Bus, accept: seq<Schema>, v: Value, grant: seq<SendRule>)
    requires BusRuns.Reachable(b)
    ensures var (c, id) := B.RegisterShard(b, accept, v, grant);
            && Grew(b, c)
            && (id.Some? ==> id.value == b.nextShard && c.nextShard == b.nextShard + 1 && id.value in c.shards &&
                             c.shards[id.value].stateSchema == v.schema)
  {
    hide BusRuns.Inv, B.RegisterEach, AdmitLive;
    forall id | id in b.shards ensures id < b.nextShard {
      BusRuns.KnownIsOld(b, id);
    }
  }

  lemma LoadKeeps(k: Kernel, name: bytes, w: World)
    requires Inv(k)
    ensures Inv(Load(k, name, w))
  {
    hide BusRuns.Inv, Inv, Rebuild, Enroll, After, AllowedAll, AdvanceAll, OpenAndClose, TryAndClose, OpenAndKeep,
         Grew, Fresh, Log;
    if name !in k.libs && w.opens {
      var p, h, i := After(k.trace), k.handles, k.instances;
      PlatformHolds(k);
      BusHolds(k);
      if !w.abi || !w.creates {
        OpenAndCloseIsSafe(p, h);
        FreshAfter(k, p.(everOpened := p.everOpened + {h}), h + 1, i);
        GiveUpKeeps(k, k.bus, k.registry, OpenAndClose(h), h + 1, i);
      } else {
        var (m, schemas) := Rebuild(w.manifest, k.registry);
        var q := p.(everOpened := p.everOpened + {h}, everCreated := p.everCreated + {i});
        FreshAfter(k, q, h + 1, i + 1);
        TryAndCloseIsSafe(p, h, i, false);
        if schemas.None? {
          GiveUpKeeps(k, k.bus, m, TryAndClose(h, i, false), h + 1, i + 1);
        } else {
          var (accept, state) := schemas.value;
          EnrollIsSound(k.bus, accept, state, w.snapshot);
          var (b, id, asked) := Enroll(k.bus, accept, state, w.snapshot);
          if id.None? {
            TryAndCloseIsSafe(p, h, i, asked);
            GiveUpKeeps(k, b, m, TryAndClose(h, i, asked), h + 1, i + 1);
          } else {
            LoadedKeeps(k, b, m, name, id.value, state);
          }
        }
      }
    }
  }

  lemma BusHolds(k: Kernel)
    requires Inv(k)
    ensures BusRuns.Reachable(k.bus) && Grew(k.bus, k.bus)
  {
    hide BusRuns.Inv, Handles, Distinct, Backed, OnTheBus, After, Safe, Fresh;
  }

  lemma FreshAfter(k: Kernel, q: Platform, handles: nat, instances: nat)
    requires Inv(k) && k.handles <= handles && k.instances <= instances
    requires forall h :: h in q.everOpened ==> h in After(k.trace).everOpened || h < handles
    requires forall i :: i in q.everCreated ==> i in After(k.trace).everCreated || i < instances
    ensures Fresh(q, handles, instances)
  {
    hide BusRuns.Inv, Handles, Distinct, Backed, OnTheBus, After, Safe;
  }

  lemma HandlesWith(libs: map<bytes, Loaded>, name: bytes, rec: Loaded)
    ensures name !in libs ==> Handles(libs[name := rec]) == Handles(libs) + {rec.lib}
    ensures name in libs && (forall n :: n in libs && n != name ==> libs[n].lib != libs[name].lib) ==>
              Handles(libs[name := rec]) == Handles(libs) - {libs[name].lib} + {rec.lib} &&
              Handles(libs - {name}) == Handles(libs) - {libs[name].lib}
    ensures forall n :: n in libs ==> libs[n].lib in Handles(libs)
  {
    var with := libs[name := rec];
    forall h | h in Handles(libs) && (name in libs ==> h != libs[name].lib) ensures h in Handles(with) {
      var n :| n in libs && libs[n].lib == h;
      assert with[n].lib == h;
    }
    assert with[name].lib == rec.lib;
    var without := libs - {name};
    forall h | h in Handles(libs) && (name in libs ==> h != libs[name].lib) ensures h in Handles(without) {
      var n :| n in libs && libs[n].lib == h;
      assert without[n].lib == h;
    }
  }

  /** The parts of the invariant, by name. */
  lemma Parts(k: Kernel)
    requires Inv(k)
    ensures var p := After(k.trace);
            && p.open == Handles(k.libs) + k.leaked && Distinct(k.libs, k.leaked, k.bus.nextShard)
            && Backed(k.adapters, k.libs, p.live) && OnTheBus(k.adapters, k.bus) && Fresh(p, k.handles, k.instances)
  {
    hide BusRuns.Inv, Handles, Distinct, Backed, OnTheBus, Fresh, After, Safe;
  }

  lemma LoadedKeeps(k: Kernel, b: B.Bus, m: Schemas, name: bytes, id: B.ShardId, state: Schema)
    requires Inv(k) && name !in k.libs && BusRuns.Reachable(b) && Grew(k.bus, b)
    requires id == k.bus.nextShard && b.nextShard == id + 1 && id in b.shards && b.shards[id].stateSchema == state
    ensures var h, i := k.handles, k.instances;
            Inv(Log(k.(handles := h + 1, instances := i + 1, registry := m, bus := b, libs := k.libs[name := Loaded(h, id)],
                       adapters := k.adapters[id := Adapter(name, i, h, state)]), OpenAndKeep(h, i) + [Called(i)]))
  {
    hide BusRuns.Inv, Inv, AllowedAll, AdvanceAll, After, Safe, OpenAndKeep, Handles, Distinct, Backed, OnTheBus,
         Fresh, Grew, Advance, Allowed;
    var p, h, i := After(k.trace), k.handles, k.instances;
    PlatformHolds(k);
    Parts(k);
    OpenAndKeepIsSafe(p, h, i);
    var q := With(p, h, i);
    InTurn(p, OpenAndKeep(h, i), [Called(i)]);
    CallLast(p, h, i);
    var libs := k.libs[name := Loaded(h, id)];
    var adapters := k.adapters[id := Adapter(name, i, h, state)];
    HandlesWith(k.libs, name, Loaded(h, id));
    DistinctAdds(k, p, name, id);
    NewId(k, id);
    BackedAdds(k, p, name, id, state);
    FreshAfter(k, q, h + 1, i + 1);
    OnTheBusAdds(k, b, name, id, state);
    LogKeeps(k, k.(handles := h + 1, instances := i + 1, registry := m, bus := b, libs := libs, adapters := adapters),
             OpenAndKeep(h, i) + [Called(i)], q);
  }

  lemma CallLast(p: Platform, h: nat, i: nat)
    ensures AllowedAll(With(p, h, i), [Called(i)]) && AdvanceAll(With(p, h, i), [Called(i)]) == With(p, h, i)
  {
    Singly(With(p, h, i), Called(i));
  }

  lemma NewId(k: Kernel, id: B.ShardId)
    requires Inv(k) && id == k.bus.nextShard
    ensures id !in k.adapters
  {
    hide BusRuns.Inv, After, Safe, Handles, Distinct, Backed, Fresh;
    if id in k.adapters {
      BusRuns.KnownIsOld(k.bus, id);
    }
  }

  lemma OnTheBusAdds(k: Kernel, b: B.Bus, name: bytes, id: B.ShardId, state: Schema)
    requires OnTheBus(k.adapters, k.bus) && Grew(k.bus, b) && id in b.shards && b.shards[id].stateSchema == state
    ensures OnTheBus(k.adapters[id := Adapter(name, k.instances, k.handles, state)], b)
  {
  }

  lemma DistinctAdds(k: Kernel, p: Platform, name: bytes, id: B.ShardId)
    requires Distinct(k.libs, k.leaked, k.bus.nextShard) && name !in k.libs && id == k.bus.nextShard
    requires p.open == Handles(k.libs) + k.leaked && k.handles !in p.open
    ensures Distinct(k.libs[name := Loaded(k.handles, id)], k.leaked, id + 1)
  {
    HandlesWith(k.libs, name, Loaded(k.handles, id));
  }

  lemma BackedAdds(k: Kernel, p: Platform, name: bytes, id: B.ShardId, state: Schema)
    requires Backed(k.adapters, k.libs, p.live) && name !in k.libs && id !in k.adapters && k.instances !in p.live
    ensures Backed(k.adapters[id := Adapter(name, k.instances, k.handles, state)], k.libs[name := Loaded(k.handles, id)],
                   p.live[k.instances := k.handles])
  {
    var adapters := k.adapters[id := Adapter(name, k.instances, k.handles, state)];
    var live := p.live[k.instances := k.handles];
    forall i | i in live ensures exists jd :: jd in adapters && adapters[jd].instance == i {
      if i == k.instances {
        assert adapters[id].instance == i;
      } else {
        var jd :| jd in k.adapters && k.adapters[jd].instance == i;
        assert adapters[jd].instance == i;
      }
    }
  }

  // ---- reload --------------------------------------------------------------------------------------

  lemma CallKeeps(k: Kernel, id: B.ShardId)
    requires Inv(k) && id in k.adapters
    ensures Inv(Log(k, [Called(k.adapters[id].instance)]))
  {
    hide BusRuns.Inv, Handles, Distinct, OnTheBus, Fresh, After, Safe;
    var p := After(k.trace);
    AliveWasMade(k.trace);
    Singly(p, Called(k.adapters[id].instance));
    LogKeeps(k, k, [Called(k.adapters[id].instance)], p);
  }

  /** The swap of a reload is always admitted: the snapshot was gated against the same schema when
      it was taken, and canonical bytes re-admit as the value they encode. */
  lemma SwapIsAdmitted(b: B.Bus, id: B.ShardId, answer: bytes, state: Schema)
    requires id in b.shards && b.shards[id].stateSchema == state
    requires B.AdmitBytes(answer, state).Accepted?
    ensures Serialize(B.AdmitBytes(answer, state).value) == Some(answer)
    ensures B.SwapState(b, id, answer).1.RevivedFresh?
  {
    hide B.AdmitBytes, Serialize;
    SupervisorRuns.CanonicalBytes(answer, state);
  }

  lemma SwapGrows(b: B.Bus, id: B.ShardId, bs: bytes)
    requires BusRuns.Reachable(b)
    ensures var c := B.SwapState(b, id, bs).0; BusRuns.Reachable(c) && Grew(b, c) && c.nextShard == b.nextShard
  {
    hide BusRuns.Inv, B.AdmitBytes, B.Restore, B.Emit, Grew;
    BusRuns.ApplyKeeps(b, B.OpSwap(id, bs));
    SayingGrows(b, id);
    if id in b.shards {
      RestoringGrows(b, id);
    }
  }

  lemma ReloadKeeps(k: Kernel, name: bytes, w: World)
    requires Inv(k)
    ensures Inv(ReloadFrom(k, name, w).0)
  {
    hide BusRuns.Inv, Inv, SnapshotOf, Serialize, Replace, Log;
    if name in k.libs {
      var id := k.libs[name].id;
      if id in k.bus.shards && id in k.adapters {
        CallKeeps(k, id);
        var k0 := Log(k, [Called(k.adapters[id].instance)]);
        assert k0.libs == k.libs && k0.adapters == k.adapters by { LogKeepsRest(k, [Called(k.adapters[id].instance)]); }
        var s := SnapshotOf(w.snapshot, k.adapters[id].state);
        if s.Some? && Serialize(s.value).Some? && w.opens {
          ReplaceKeeps(k0, name, w, Serialize(s.value).value);
        }
      }
    }
  }

  lemma LogKeepsRest(k: Kernel, es: seq<Event>)
    ensures Log(k, es) == k.(trace := Log(k, es).trace)
  {
  }

  lemma ReplaceKeeps(k: Kernel, name: bytes, w: World, snapshot: bytes)
    requires Inv(k) && name in k.libs && k.libs[name].id in k.adapters
    ensures Inv(Replace(k, name, w, snapshot).0)
  {
    hide BusRuns.Inv, Inv, Rebuild, B.SwapState, After, AllowedAll, AdvanceAll, OpenAndClose, TryAndClose,
         OpenAndKeep, Grew, Fresh, Log;
    var p, h, i := After(k.trace), k.handles, k.instances;
    PlatformHolds(k);
    BusHolds(k);
    if !w.abi || !w.creates {
      OpenAndCloseIsSafe(p, h);
      FreshAfter(k, p.(everOpened := p.everOpened + {h}), h + 1, i);
      GiveUpKeeps(k, k.bus, k.registry, OpenAndClose(h), h + 1, i);
    } else {
      var (m, schemas) := Rebuild(w.manifest, k.registry);
      FreshAfter(k, p.(everOpened := p.everOpened + {h}, everCreated := p.everCreated + {i}), h + 1, i + 1);
      TryAndCloseIsSafe(p, h, i, false);
      GiveUpKeeps(k, k.bus, m, TryAndClose(h, i, false), h + 1, i + 1);
      if schemas.Some? && SameIdentity(schemas.value.1, k.adapters[k.libs[name].id].state) {
        SwapGrows(k.bus, k.libs[name].id, snapshot);
        var (b, out) := B.SwapState(k.bus, k.libs[name].id, snapshot);
        var old' := k.libs[name].lib;
        CommitKeeps(k, b, m, name, [Closed(old')], k.leaked);
        CommitKeeps(k, k.bus, m, name, [Called(i)], k.leaked + {old'});
        CommitKeeps(k, b, m, name, [Called(i), Closed(old')], k.leaked);
        Twice(k, m, name, [Closed(old')]);
        Twice(k, m, name, [Called(i)]);
        Twice(k, m, name, [Called(i), Closed(old')]);
      }
    }
  }

  function Committed(k: Kernel, m: Schemas, name: bytes): Kernel
    requires name in k.libs && k.libs[name].id in k.adapters
  {
    var id, h, i := k.libs[name].id, k.handles, k.instances;
    k.(handles := h + 1, instances := i + 1, registry := m, libs := k.libs[name := Loaded(h, id)],
       adapters := k.adapters[id := Adapter(name, i, h, k.adapters[id].state)])
  }

  function Swap(k: Kernel, name: bytes): seq<Event>
    requires name in k.libs && k.libs[name].id in k.adapters
  {
    OpenAndKeep(k.handles, k.instances) + [Destroyed(k.adapters[k.libs[name].id].instance)]
  }

  lemma Twice(k: Kernel, m: Schemas, name: bytes, es: seq<Event>)
    requires name in k.libs && k.libs[name].id in k.adapters
    ensures var k1 := Committed(k, m, name);
            && Log(Log(k1, Swap(k, name)), es) == Log(k1, Swap(k, name) + es)
            && (forall b :: Log(Log(k1, Swap(k, name)).(bus := b), es) == Log(k1.(bus := b), Swap(k, name) + es))
            && (forall l :: Log(Log(k1, Swap(k, name)), es).(leaked := l) == Log(k1.(leaked := l), Swap(k, name) + es))
  {
    hide Swap;
    assert k.trace + Swap(k, name) + es == k.trace + (Swap(k, name) + es);
  }

  /** The commit: the new instance takes the old one's place, the old instance is destroyed while
      its library is open, and then that library is closed or, if revive threw, forgotten. */
  lemma CommitKeeps(k: Kernel, b: B.Bus, m: Schemas, name: bytes, es: seq<Event>, leaked: set<nat>)
    requires Inv(k) && name in k.libs && k.libs[name].id in k.adapters
    requires BusRuns.Reachable(b) && Grew(k.bus, b) && b.nextShard == k.bus.nextShard
    requires var i, h := k.instances, k.libs[name].lib;
             || (leaked == k.leaked && (es == [Closed(h)] || es == [Called(i), Closed(h)]))
             || (leaked == k.leaked + {h} && es == [Called(i)])
    ensures Inv(Log(Committed(k, m, name).(bus := b, leaked := leaked), Swap(k, name) + es))
  {
    hide BusRuns.Inv, Inv, After, AllowedAll, AdvanceAll, Handles, Safe, Distinct, Backed, OnTheBus, Fresh, Grew,
         Swap, Advance, Allowed;
    var p, h, i := After(k.trace), k.handles, k.instances;
    var id, gone := k.libs[name].id, k.libs[name].lib;
    PlatformHolds(k);
    Parts(k);
    OwnName(k, name);
    SwapIsSafe(k, p, name);
    var q := Swapped(k, p, name);
    var closes := es != [Called(i)];
    var r := if closes then q.(open := q.open - {gone}) else q;
    EndIsSafe(k, p, name, es, closes);
    InTurn(p, Swap(k, name), es);
    HandlesWith(k.libs, name, Loaded(h, id));
    OpenAfterCommit(k, p, name, r.open, leaked);
    BackedSwaps(k, p, name);
    DistinctSwaps(k, p, name, leaked);
    FreshAfter(k, r, h + 1, i + 1);
    OnTheBusSwaps(k, b, name);
    LogKeeps(k, Committed(k, m, name).(bus := b, leaked := leaked), Swap(k, name) + es, r);
  }

  /** The platform once the new instance is made and the old one destroyed. */
  function Swapped(k: Kernel, p: Platform, name: bytes): Platform
    requires name in k.libs && k.libs[name].id in k.adapters
  {
    var q := With(p, k.handles, k.instances);
    q.(live := q.live - {k.adapters[k.libs[name].id].instance})
  }

  lemma SwapIsSafe(k: Kernel, p: Platform, name: bytes)
    requires name in k.libs && k.libs[name].id in k.adapters && Backed(k.adapters, k.libs, p.live)
    requires k.handles !in p.everOpened && k.instances !in p.everCreated && p.live.Keys <= p.everCreated
    requires forall j :: j in p.live ==> p.live[j] in p.open
    ensures AllowedAll(p, Swap(k, name)) && AdvanceAll(p, Swap(k, name)) == Swapped(k, p, name)
  {
    hide AllowedAll, AdvanceAll, OpenAndKeep;
    var gone := k.adapters[k.libs[name].id].instance;
    LiveBehind(k, p, k.libs[name].id);
    OpenAndKeepIsSafe(p, k.handles, k.instances);
    InTurn(p, OpenAndKeep(k.handles, k.instances), [Destroyed(gone)]);
    Singly(With(p, k.handles, k.instances), Destroyed(gone));
  }

  lemma EndIsSafe(k: Kernel, p: Platform, name: bytes, es: seq<Event>, closes: bool)
    requires name in k.libs && k.libs[name].id in k.adapters
    requires Distinct(k.libs, k.leaked, k.bus.nextShard) && Backed(k.adapters, k.libs, p.live)
    requires p.open == Handles(k.libs) + k.leaked && k.handles !in p.open && k.instances !in p.live
    requires var i, h := k.instances, k.libs[name].lib;
             if closes then es == [Closed(h)] || es == [Called(i), Closed(h)] else es == [Called(i)]
    ensures var q := Swapped(k, p, name);
            && AllowedAll(q, es)
            && AdvanceAll(q, es) == if closes then q.(open := q.open - {k.libs[name].lib}) else q
  {
    hide AllowedAll, AdvanceAll, Backed, Distinct, Handles;
    var q, i, gone := Swapped(k, p, name), k.instances, k.libs[name].lib;
    HandlesWith(k.libs, name, k.libs[name]);
    OldIsUnused(k, p, name);
    LiveBehind(k, p, k.libs[name].id);
    Singly(q, Called(i));
    Singly(q, Closed(gone));
    InTurn(q, [Called(i)], [Closed(gone)]);
    assert [Called(i)] + [Closed(gone)] == [Called(i), Closed(gone)];
  }

  lemma DistinctSwaps(k: Kernel, p: Platform, name: bytes, leaked: set<nat>)
    requires Distinct(k.libs, k.leaked, k.bus.nextShard) && name in k.libs
    requires p.open == Handles(k.libs) + k.leaked && k.handles !in p.open
    requires leaked == k.leaked || leaked == k.leaked + {k.libs[name].lib}
    ensures Distinct(k.libs[name := Loaded(k.handles, k.libs[name].id)], leaked, k.bus.nextShard)
  {
    hide Handles;
    HandlesWith(k.libs, name, k.libs[name]);
  }

  lemma OnTheBusSwaps(k: Kernel, b: B.Bus, name: bytes)
    requires OnTheBus(k.adapters, k.bus) && Grew(k.bus, b) && name in k.libs && k.libs[name].id in k.adapters
    ensures var id := k.libs[name].id;
            OnTheBus(k.adapters[id := Adapter(name, k.instances, k.handles, k.adapters[id].state)], b)
  {
  }

  lemma OwnName(k: Kernel, name: bytes)
    requires Inv(k) && name in k.libs && k.libs[name].id in k.adapters
    ensures var a := k.adapters[k.libs[name].id]; a.lib == k.libs[name].lib && a.name == name
  {
    hide BusRuns.Inv, After, Handles, Safe, OnTheBus, Fresh;
  }

  /** Once the instance behind a name is gone, nothing alive came from its library. */
  lemma OldIsUnused(k: Kernel, p: Platform, name: bytes)
    requires Distinct(k.libs, k.leaked, k.bus.nextShard) && Backed(k.adapters, k.libs, p.live)
    requires name in k.libs && k.libs[name].id in k.adapters && k.libs[name].lib != k.handles
    ensures var live := p.live[k.instances := k.handles] - {k.adapters[k.libs[name].id].instance};
            forall j :: j in live ==> live[j] != k.libs[name].lib
  {
    forall j | j in p.live && j != k.adapters[k.libs[name].id].instance ensures p.live[j] != k.libs[name].lib {
      var id :| id in k.adapters && k.adapters[id].instance == j;
      assert k.adapters[id].name != name;
    }
  }

  lemma OpenAfterCommit(k: Kernel, p: Platform, name: bytes, open: set<nat>, leaked: set<nat>)
    requires name in k.libs && Distinct(k.libs, k.leaked, k.bus.nextShard) && p.open == Handles(k.libs) + k.leaked
    requires k.handles !in p.open
    requires var gone := k.libs[name].lib;
             || (leaked == k.leaked && open == p.open + {k.handles} - {gone})
             || (leaked == k.leaked + {gone} && open == p.open + {k.handles})
    ensures open == Handles(k.libs[name := Loaded(k.handles, k.libs[name].id)]) + leaked
  {
    hide Handles;
    HandlesWith(k.libs, name, Loaded(k.handles, k.libs[name].id));
  }

  lemma BackedSwaps(k: Kernel, p: Platform, name: bytes)
    requires Distinct(k.libs, k.leaked, k.bus.nextShard) && Backed(k.adapters, k.libs, p.live)
    requires name in k.libs && k.libs[name].id in k.adapters && k.instances !in p.live
    ensures var id := k.libs[name].id; var a := k.adapters[id];
            Backed(k.adapters[id := Adapter(name, k.instances, k.handles, a.state)], k.libs[name := Loaded(k.handles, id)],
                   p.live[k.instances := k.handles] - {a.instance})
  {
    var id := k.libs[name].id;
    var gone := k.adapters[id].instance;
    var adapters := k.adapters[id := Adapter(name, k.instances, k.handles, k.adapters[id].state)];
    var libs := k.libs[name := Loaded(k.handles, id)];
    var live := p.live[k.instances := k.handles] - {gone};
    forall jd | jd in adapters
      ensures var a := adapters[jd];
              a.name in libs && libs[a.name] == Loaded(a.lib, jd) && a.instance in live && live[a.instance] == a.lib
    {
      if jd != id {
        assert k.adapters[jd].name != name && k.adapters[jd].instance != gone;
      }
    }
    forall i | i in live ensures exists jd :: jd in adapters && adapters[jd].instance == i {
      if i == k.instances {
        assert adapters[id].instance == i;
      } else {
        var jd :| jd in k.adapters && k.adapters[jd].instance == i;
        assert jd != id && adapters[jd].instance == i;
      }
    }
  }

  // ---- unload, detach, traffic ------------------------------------------------------------------------

  lemma BackedRemoves(k: Kernel, p: Platform, id: B.ShardId, libs: map<bytes, Loaded>)
    requires Backed(k.adapters, k.libs, p.live) && id in k.adapters
    requires libs == k.libs || libs == k.libs - {k.adapters[id].name}
    ensures Backed(k.adapters - {id}, libs, p.live - {k.adapters[id].instance})
  {
    var gone := k.adapters[id].instance;
    var adapters := k.adapters - {id};
    var live := p.live - {gone};
    forall jd | jd in adapters
      ensures var a := adapters[jd];
              a.name in libs && libs[a.name] == Loaded(a.lib, jd) && a.instance in live && live[a.instance] == a.lib
    {
      assert k.libs[k.adapters[jd].name].id == jd && k.adapters[jd].instance != gone;
    }
    forall i | i in live ensures exists jd :: jd in adapters && adapters[jd].instance == i {
      var jd :| jd in k.adapters && k.adapters[jd].instance == i;
      assert jd in adapters;
    }
  }

  lemma UnregisterHolds(k: Kernel, id: B.ShardId)
    requires Inv(k)
    ensures var b := B.UnregisterShard(k.bus, id);
            BusRuns.Reachable(b) && b.nextShard == k.bus.nextShard && OnTheBus(k.adapters - {id}, b)
  {
    hide BusRuns.Inv, After, Handles, Safe, Fresh, Backed, Distinct;
    BusRuns.ApplyKeeps(k.bus, B.OpUnregister(id));
  }

  lemma DetachKeeps(k: Kernel, id: B.ShardId)
    requires Inv(k)
    ensures Inv(Detach(k, id))
  {
    hide BusRuns.Inv, After, Handles, Safe, AllowedAll, AdvanceAll, B.UnregisterShard, Distinct;
    UnregisterHolds(k, id);
    var p := After(k.trace);
    AliveWasMade(k.trace);
    var k1 := k.(bus := B.UnregisterShard(k.bus, id), adapters := k.adapters - {id});
    if id in k.adapters {
      var i := k.adapters[id].instance;
      Singly(p, Destroyed(i));
      BackedRemoves(k, p, id, k.libs);
      LogKeeps(k, k1, [Destroyed(i)], Advance(p, Destroyed(i)));
    } else {
      Nothing(p);
      assert k.adapters - {id} == k.adapters;
      LogKeeps(k, k1, [], p);
    }
  }

  lemma UnloadKeeps(k: Kernel, name: bytes)
    requires Inv(k)
    ensures Inv(Unload(k, name))
  {
    hide BusRuns.Inv, Inv, After, Handles, Safe, AllowedAll, AdvanceAll, B.UnregisterShard, Distinct, Backed,
         OnTheBus, Fresh, Advance, Allowed;
    if name in k.libs {
      var p, rec := After(k.trace), k.libs[name];
      UnregisterHolds(k, rec.id);
      Parts(k);
      PlatformHolds(k);
      HandlesWith(k.libs, name, rec);
      DistinctRemoves(k, p, name);
      var k1 := k.(libs := k.libs - {name}, bus := B.UnregisterShard(k.bus, rec.id), adapters := k.adapters - {rec.id});
      var es := (if rec.id in k.adapters then [Destroyed(k.adapters[rec.id].instance)] else []) + [Closed(rec.lib)];
      UnloadIsSafe(k, p, name);
      UnloadedIsBacked(k, p, name);
      FreshAfter(k, Unloaded(k, p, name), k.handles, k.instances);
      LogKeeps(k, k1, es, Unloaded(k, p, name));
    }
  }

  function Unloaded(k: Kernel, p: Platform, name: bytes): Platform
    requires name in k.libs
  {
    var id := k.libs[name].id;
    p.(open := p.open - {k.libs[name].lib},
       live := if id in k.adapters then p.live - {k.adapters[id].instance} else p.live)
  }

  lemma UnloadIsSafe(k: Kernel, p: Platform, name: bytes)
    requires Distinct(k.libs, k.leaked, k.bus.nextShard) && Backed(k.adapters, k.libs, p.live) && name in k.libs
    requires p.open == Handles(k.libs) + k.leaked
    ensures var rec := k.libs[name];
            var es := (if rec.id in k.adapters then [Destroyed(k.adapters[rec.id].instance)] else []) + [Closed(rec.lib)];
            AllowedAll(p, es) && AdvanceAll(p, es) == Unloaded(k, p, name)
  {
    hide AllowedAll, AdvanceAll, Handles, Distinct, Backed;
    var rec := k.libs[name];
    LibIsUnused(k, p, name);
    HandlesWith(k.libs, name, rec);
    if rec.id in k.adapters {
      var i := k.adapters[rec.id].instance;
      LiveOfName(k, p, name);
      InTurn(p, [Destroyed(i)], [Closed(rec.lib)]);
      Singly(p, Destroyed(i));
      Singly(Advance(p, Destroyed(i)), Closed(rec.lib));
    } else {
      Singly(p, Closed(rec.lib));
      assert [] + [Closed(rec.lib)] == [Closed(rec.lib)];
    }
  }

  lemma LiveOfName(k: Kernel, p: Platform, name: bytes)
    requires Distinct(k.libs, k.leaked, k.bus.nextShard) && Backed(k.adapters, k.libs, p.live)
    requires name in k.libs && k.libs[name].id in k.adapters
    ensures var a := k.adapters[k.libs[name].id];
            a.name == name && a.lib == k.libs[name].lib && a.instance in p.live && p.live[a.instance] == a.lib
  {
  }

  lemma UnloadedIsBacked(k: Kernel, p: Platform, name: bytes)
    requires Distinct(k.libs, k.leaked, k.bus.nextShard) && Backed(k.adapters, k.libs, p.live) && name in k.libs
    ensures Backed(k.adapters - {k.libs[name].id}, k.libs - {name}, Unloaded(k, p, name).live)
  {
    var id := k.libs[name].id;
    if id in k.adapters {
      LiveOfName(k, p, name);
      BackedRemoves(k, p, id, k.libs - {name});
    } else {
      assert k.adapters - {id} == k.adapters;
      forall jd | jd in k.adapters ensures k.adapters[jd].name != name {
        assert k.libs[k.adapters[jd].name].id == jd;
      }
    }
  }

  lemma DistinctRemoves(k: Kernel, p: Platform, name: bytes)
    requires Distinct(k.libs, k.leaked, k.bus.nextShard) && name in k.libs && p.open == Handles(k.libs) + k.leaked
    ensures Distinct(k.libs - {name}, k.leaked, k.bus.nextShard)
    ensures Unloaded(k, p, name).open == Handles(k.libs - {name}) + k.leaked
  {
    hide Handles;
    HandlesWith(k.libs, name, k.libs[name]);
  }

  lemma LibIsUnused(k: Kernel, p: Platform, name: bytes)
    requires Distinct(k.libs, k.leaked, k.bus.nextShard) && Backed(k.adapters, k.libs, p.live) && name in k.libs
    ensures forall j :: j in p.live && p.live[j] == k.libs[name].lib ==>
              k.libs[name].id in k.adapters && j == k.adapters[k.libs[name].id].instance
  {
    forall j | j in p.live && p.live[j] == k.libs[name].lib
      ensures k.libs[name].id in k.adapters && j == k.adapters[k.libs[name].id].instance
    {
      var id :| id in k.adapters && k.adapters[id].instance == j;
      assert k.adapters[id].name == name;
    }
  }

  lemma {:induction false} CallsAreSafe(k: Kernel, p: Platform, ids: seq<B.ShardId>)
    requires Backed(k.adapters, k.libs, p.live) && forall i :: i in p.live ==> p.live[i] in p.open
    ensures AllowedAll(p, Calls(k.adapters, ids)) && AdvanceAll(p, Calls(k.adapters, ids)) == p
  {
    hide Backed;
    if ids == [] {
      Nothing(p);
    } else {
      CallsAreSafe(k, p, ids[1..]);
      if ids[0] in k.adapters {
        var i := k.adapters[ids[0]].instance;
        assert i in p.live by { LiveBehind(k, p, ids[0]); }
        InTurn(p, [Called(i)], Calls(k.adapters, ids[1..]));
        Singly(p, Called(i));
      } else {
        assert [] + Calls(k.adapters, ids[1..]) == Calls(k.adapters, ids[1..]);
      }
    }
  }

  lemma LiveBehind(k: Kernel, p: Platform, id: B.ShardId)
    requires Backed(k.adapters, k.libs, p.live) && id in k.adapters
    ensures k.adapters[id].instance in p.live
  {
  }

  lemma OpGrows(b: B.Bus, op: B.Op)
    requires BusRuns.Reachable(b) && !op.OpUnregister?
    ensures BusRuns.Reachable(B.Apply(b, op)) && Grew(b, B.Apply(b, op))
  {
    hide BusRuns.Inv, B.Dispatch, B.EnqueueAll, B.Recipients, B.RegisterShard, B.Kill, B.Reload, B.SwapState;
    BusRuns.ApplyKeeps(b, op);
    match op
    case OpRegister(accept, v, grant) => RegisterGrows(b, accept, v, grant);
    case OpKill(i) => KillGrows(b, i);
    case OpPump(script) =>
      BusRuns.FlagsKeep(b, None, false, true, false);
      PumpGrows(b.(inDispatch := true, stopRequested := false), script);
    case OpResume(script) => PumpGrows(b, script);
    case OpPublish(msg) => PublishGrows(b, msg, B.Recipients(b, B.ShapeOf(msg.payload), 1), false, B.Root);
    case OpPublishAs(i, msg) => PublishGrows(b, msg.(sender := i), B.Recipients(b, B.ShapeOf(msg.payload), 1), true, B.Host(i));
    case OpReload(i, policy, candidate) => ReloadGrows(b, i, policy, candidate);
    case OpSwap(i, candidate) => SwapGrows(b, i, candidate);
    case _ =>
  }

  lemma KillGrows(b: B.Bus, i: B.ShardId)
    ensures Grew(b, B.Kill(b, i))
  {
  }

  lemma PumpGrows(b: B.Bus, script: seq<seq<B.Action>>)
    requires BusRuns.Reachable(b)
    ensures Grew(b, B.Dispatch(b, script))
  {
    hide BusRuns.Inv, B.Dispatch;
    BusGuarantees.DispatchKeepsShards(b, script);
    BusGuarantees.DispatchLater(b, script);
  }

  lemma PublishGrows(b: B.Bus, msg: B.Message, targets: seq<B.ShardId>, gated: bool, who: B.Origin)
    ensures Grew(b, B.EnqueueAll(b, msg, targets, gated, who))
  {
    hide B.EnqueueAll;
    BusGuarantees.EnqueueKeepsShards(b, msg, targets, gated, who);
    BusGuarantees.EnqueueAllLater(b, msg, targets, gated, who);
  }

  lemma ReloadGrows(b: B.Bus, i: B.ShardId, policy: Value, candidate: bytes)
    ensures Grew(b, B.Reload(b, i, policy, candidate).0)
  {
    hide AdmitLive, B.AdmitBytes, B.PolicySchema, B.PolicyOf, Conforms, B.Restore, B.Emit, Grew;
    SayingGrows(b, i);
    if i in b.shards {
      RestoringGrows(b, i);
    }
  }

  lemma SayingGrows(b: B.Bus, id: B.ShardId)
    ensures Grew(b, b)
    ensures id in b.shards ==> forall e :: Grew(b, B.Emit(b, e))
    ensures forall e :: B.Emit(b, e).nextShard == b.nextShard
  {
  }

  lemma RestoringGrows(b: B.Bus, id: B.ShardId)
    requires id in b.shards
    ensures forall v, n: nat, e ::
              Grew(b, B.Emit(B.Restore(b, id, v, n), e)) && B.Emit(B.Restore(b, id, v, n), e).nextShard == b.nextShard
  {
    hide Grew;
    var r := b.shards[id];
    forall v, n: nat, e ensures Grew(b, B.Emit(B.Restore(b, id, v, n), e)) && B.Emit(B.Restore(b, id, v, n), e).nextShard == b.nextShard {
      RecordGrows(b, id, r.(lastKnownGood := v, reloadsUsed := r.reloadsUsed + n, alive := true), b.log + [e], b.restored + [(id, v)]);
    }
  }

  lemma RecordGrows(b: B.Bus, id: B.ShardId, r: B.Record, log: seq<B.Event>, restored: seq<(B.ShardId, Value)>)
    requires id in b.shards && r.stateSchema == b.shards[id].stateSchema
    ensures Grew(b, b.(shards := b.shards[id := r], log := log, restored := restored))
  {
  }

  lemma OnBusKeeps(k: Kernel, op: B.Op)
    requires Inv(k) && !op.OpUnregister?
    ensures Inv(OnBus(k, op))
  {
    hide BusRuns.Inv, After, Handles, Safe, AllowedAll, AdvanceAll, B.Apply, Reached, Calls;
    OpGrows(k.bus, op);
    AliveWasMade(k.trace);
    var b := B.Apply(k.bus, op);
    var es := Calls(k.adapters, Reached(k.bus, b, op));
    CallsAreSafe(k, After(k.trace), Reached(k.bus, b, op));
    LogKeeps(k, k.(bus := b), es, After(k.trace));
  }

  lemma ApplyKeeps(k: Kernel, op: KernelOp)
    requires Inv(k)
    ensures Inv(Apply(k, op))
  {
    hide Inv, Load, ReloadFrom, Unload, Detach, OnBus;
    match op
    case DoLoad(name, w) => LoadKeeps(k, name, w);
    case DoReload(name, w) => ReloadKeeps(k, name, w);
    case DoUnload(name) => UnloadKeeps(k, name);
    case DoDetach(id) => DetachKeeps(k, id);
    case DoBus(op) =>
      if op.OpUnregister? {
        DetachKeeps(k, op.id);
      } else {
        OnBusKeeps(k, op);
      }
  }

  lemma {:induction false} EveryRunKeeps(k: Kernel, ops: seq<KernelOp>)
    requires Inv(k)
    ensures Inv(Run(k, ops))
    decreases |ops|
  {
    hide Inv, Apply;
    if ops != [] {
      ApplyKeeps(k, ops[0]);
      EveryRunKeeps(Apply(k, ops[0]), ops[1..]);
    }
  }

  lemma NewKernelHolds()
    ensures Inv(NEW_KERNEL)
  {
    hide BusRuns.Inv;
    BusRuns.NewIsReachable();
    assert Handles(map[]) == {};
  }

  // ---- the guarantees --------------------------------------------------------------------------------

  /** Library lifetime safety, over every run: the trace of what was done to libraries is safe. */
  lemma LibrariesAreSafe(ops: seq<KernelOp>)
    ensures Safe(Run(NEW_KERNEL, ops).trace)
  {
    hide BusRuns.Inv, Run, Handles, Distinct, Backed, OnTheBus, Fresh, After;
    NewKernelHolds();
    EveryRunKeeps(NEW_KERNEL, ops);
  }

  /** A reload never changes which shard a name is: whatever happens, the name keeps its id, and
      after a reload that went through the shard runs the new library. */
  lemma ReloadKeepsIdentity(k: Kernel, name: bytes, w: World)
    requires Inv(k) && name in k.libs
    ensures var (m, out) := ReloadFrom(k, name, w);
            && name in m.libs && m.libs[name].id == k.libs[name].id
            && m.adapters.Keys == k.adapters.Keys
            && (out == Reloaded ==> m.libs[name].lib == k.handles && k.libs[name].lib !in After(m.trace).open)
            && (out != Reloaded && out != Threw && out != SwapRefused ==> m.libs == k.libs && m.adapters == k.adapters)
            && out != SwapRefused
  {
    hide BusRuns.Inv, Rebuild, B.SwapState, Serialize, SnapshotOf, After, Safe, OpenAndClose, TryAndClose,
         OpenAndKeep, Handles, Backed, Fresh, Log;
    var (m, out) := ReloadFrom(k, name, w);
    var id := k.libs[name].id;
    if id in k.bus.shards && id in k.adapters {
      var a := k.adapters[id];
      var s := SnapshotOf(w.snapshot, a.state);
      var k0 := Log(k, [Called(a.instance)]);
      LogKeepsRest(k, [Called(a.instance)]);
      if s.Some? && Serialize(s.value).Some? && w.opens {
        ReplaceShape(k0, name, w, Serialize(s.value).value);
        assert out != SwapRefused by { SnapshotSwaps(k, name, w); }
        if out == Reloaded {
          ClosedLast(k, m, name, w);
        }
      }
    }
  }

  /** What Replace does to the tables. */
  lemma ReplaceShape(k: Kernel, name: bytes, w: World, snapshot: bytes)
    requires name in k.libs && k.libs[name].id in k.adapters
    ensures var (m, out) := Replace(k, name, w, snapshot); var id := k.libs[name].id;
            && (out == SwapRefused <==> out !in {NewRefused, VersionMismatch, Threw, Reloaded})
            && (out == SwapRefused ==> !B.SwapState(k.bus, id, snapshot).1.RevivedFresh?)
            && name in m.libs && m.libs[name].id == id && m.adapters.Keys == k.adapters.Keys
            && (out == Reloaded ==> m.libs[name].lib == k.handles)
            && (out == NewRefused || out == VersionMismatch ==> m.libs == k.libs && m.adapters == k.adapters)
  {
    hide Rebuild, B.SwapState, OpenAndClose, TryAndClose, OpenAndKeep;
  }

  lemma SnapshotSwaps(k: Kernel, name: bytes, w: World)
    requires Inv(k) && name in k.libs && k.libs[name].id in k.adapters
    requires var s := SnapshotOf(w.snapshot, k.adapters[k.libs[name].id].state); s.Some? && Serialize(s.value).Some?
    ensures var s := SnapshotOf(w.snapshot, k.adapters[k.libs[name].id].state).value;
            B.SwapState(k.bus, k.libs[name].id, Serialize(s).value).1.RevivedFresh?
  {
    hide BusRuns.Inv, B.SwapState, Serialize, B.AdmitBytes, After, Safe, Handles, Backed, Fresh, Distinct;
    var id := k.libs[name].id;
    SwapIsAdmitted(k.bus, id, w.snapshot.value, k.adapters[id].state);
  }

  lemma ClosedLast(k: Kernel, m: Kernel, name: bytes, w: World)
    requires Inv(k) && name in k.libs && ReloadFrom(k, name, w) == (m, Reloaded)
    ensures k.libs[name].lib !in After(m.trace).open
  {
    hide BusRuns.Inv, Rebuild, B.SwapState, Serialize, SnapshotOf, Safe, OpenAndClose, TryAndClose, OpenAndKeep,
         Handles, Backed, Fresh, Distinct, OnTheBus;
    var gone := k.libs[name].lib;
    assert m.trace[|m.trace| - 1] == Closed(gone);
  }
}
