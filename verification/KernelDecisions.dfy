/** What loading, reloading and unloading a library decide and leave behind, and that what was
    unloaded is never reached again (src/kernel/kernel.cpp). */
module KernelDecisions {
  import opened Bytes
  import opened Model
  import opened Gate
  import opened Admission
  import opened Registry
  import opened Grant
  import opened Libraries
  import opened Kernel
  import opened KernelRuns
  import opened KernelLeaks
  import opened BusDecisions
  import B = Bus
  import BusRuns
  import BusGuarantees

  // ---- loading ----------------------------------------------------------------------------------

  /** Everything a load needs: a free name, a library that opens, has the ABI and makes an instance, a
      manifest that rebuilds, no conflict of its schemas with the bus, and a snapshot that is admitted
      under its state schema. */
  predicate Loads(k: Kernel, name: bytes, w: World) {
    && name !in k.libs && w.opens && w.abi && w.creates
    && var r := Rebuild(w.manifest, k.registry).1;
       && r.Some? && NoConflict(k.bus.registry, r.value.0 + [r.value.1])
       && SnapshotOf(w.snapshot, r.value.1).Some?
  }

  /** The shard a library describes: alive, with the accept-set and state schema of its manifest, its
      snapshot as last-known-good, no revival spent, and leave to send anything to anyone. */
  ghost predicate ShardOf(r: B.Record, accept: seq<Schema>, state: Schema, snapshot: Value) {
    && r.stateSchema == state && r.lastKnownGood == snapshot && r.reloadsUsed == 0 && r.alive
    && (forall shape, target: nat :: Permits(r.grant, shape, target))
    && |r.accept| == |accept|
    && forall i :: 0 <= i < |accept| ==> KeyOf(r.accept[i]) == KeyOf(accept[i]) && r.accept[i].id == accept[i].id
  }

  /** A load goes through exactly when everything it needs is there; then the name runs a fresh
      instance of a freshly opened library behind a fresh shard, and every other name and shard is as
      it was. One that does not go through changes no name and no shard, and leaves nothing open. */
  lemma LoadDecides(k: Kernel, name: bytes, w: World)
    requires Inv(k)
    ensures var m := Load(k, name, w);
            if Loads(k, name, w) then
              var (accept, state) := Rebuild(w.manifest, k.registry).1.value; var id := k.bus.nextShard;
              && m.libs == k.libs[name := Loaded(k.handles, id)]
              && m.adapters == k.adapters[id := Adapter(name, k.instances, k.handles, state)]
              && m.bus.shards.Keys == k.bus.shards.Keys + {id} && id !in k.bus.shards
              && (forall i :: i in k.bus.shards ==> m.bus.shards[i] == k.bus.shards[i])
              && ShardOf(m.bus.shards[id], accept, state, SnapshotOf(w.snapshot, state).value)
            else
              && m.libs == k.libs && m.adapters == k.adapters && m.bus.shards == k.bus.shards
              && After(m.trace).open == After(k.trace).open && After(m.trace).live == After(k.trace).live
  {
    hide BusRuns.Inv, Inv, Rebuild, Enroll, After, Safe, OpenAndClose, TryAndClose, OpenAndKeep, NoConflict, ShardOf, SnapshotOf;
    LoadShape(k, name, w);
    BusHolds(k);
    var r := Rebuild(w.manifest, k.registry).1;
    if name !in k.libs && w.opens && w.abi && w.creates && r.Some? {
      EnrollDecides(k.bus, r.value.0, r.value.1, w.snapshot);
    }
    if !Loads(k, name, w) {
      LoadKeeps(k, name, w);
      SameLibsSamePlatform(k, Load(k, name, w));
    }
  }

  lemma LoadShape(k: Kernel, name: bytes, w: World)
    ensures var m := Load(k, name, w);
            if name in k.libs || !w.opens || !w.abi || !w.creates || Rebuild(w.manifest, k.registry).1.None? then
              m.libs == k.libs && m.adapters == k.adapters && m.bus == k.bus && m.leaked == k.leaked
            else
              var (accept, state) := Rebuild(w.manifest, k.registry).1.value;
              var e := Enroll(k.bus, accept, state, w.snapshot); var id := e.1;
              && m.bus == e.0 && m.leaked == k.leaked
              && (id.None? ==> m.libs == k.libs && m.adapters == k.adapters)
              && (id.Some? ==>
                    m.libs == k.libs[name := Loaded(k.handles, id.value)] &&
                    m.adapters == k.adapters[id.value := Adapter(name, k.instances, k.handles, state)])
  {
    hide Rebuild, Enroll, OpenAndClose, TryAndClose, OpenAndKeep;
  }

  lemma EnrollDecides(b: B.Bus, accept: seq<Schema>, state: Schema, answer: Option<bytes>)
    requires BusRuns.Reachable(b)
    ensures var e := Enroll(b, accept, state, answer); var c, id, v := e.0, e.1, SnapshotOf(answer, state);
            && (id.Some? <==> NoConflict(b.registry, accept + [state]) && v.Some?)
            && (id.None? ==> c.shards == b.shards)
            && (id.Some? ==>
                  && id.value == b.nextShard && id.value !in b.shards && c.shards.Keys == b.shards.Keys + {id.value}
                  && (forall i :: i in b.shards ==> c.shards[i] == b.shards[i])
                  && ShardOf(c.shards[id.value], accept, state, v.value))
  {
    hide BusRuns.Inv, B.RegisterEach, B.RegisterShard, B.AdmitBytes, NoConflict, Conforms;
    EachRegisters(b.registry, accept, state);
    if SnapshotOf(answer, state).Some? {
      var v := SnapshotOf(answer, state).value;
      BusRuns.AdmittedBytes(answer.value, state);
      RegisterDecides(b, accept, v, ALLOW_ANY);
      forall shape, target: nat ensures Permits(ALLOW_ANY, shape, target) {
        assert RulePermits(ALLOW_ANY[0], shape, target);
      }
    }
  }

  /** The same libraries behind the same shards, the same things open and alive. */
  lemma SameLibsSamePlatform(k: Kernel, m: Kernel)
    requires Inv(k) && Inv(m) && m.libs == k.libs && m.adapters == k.adapters && m.leaked == k.leaked
    ensures After(m.trace).open == After(k.trace).open && After(m.trace).live == After(k.trace).live
  {
    hide Inv, After, Handles;
    OpenParts(k);
    OpenParts(m);
    BackedLive(k);
    BackedLive(m);
    var p, q := After(k.trace), After(m.trace);
    assert q.live.Keys == p.live.Keys;
    assert q.live == p.live;
  }

  /** What is alive is precisely what the adapters hold, from the libraries they name. */
  lemma BackedLive(k: Kernel)
    requires Inv(k)
    ensures var p := After(k.trace);
            && (forall i :: i in p.live <==> exists id :: id in k.adapters && k.adapters[id].instance == i)
            && (forall id :: id in k.adapters ==> k.adapters[id].instance in p.live && p.live[k.adapters[id].instance] == k.adapters[id].lib)
  {
    hide BusRuns.Inv, Handles, Distinct, OnTheBus, Fresh, After, Safe;
  }

  // ---- reloading ----------------------------------------------------------------------------------

  /** A reload that went through handed the new instance the very value the old one gave as its
      snapshot, off the revival budget, and changed nothing else of the bus. */
  lemma ReloadHandsOver(k: Kernel, name: bytes, w: World)
    requires Inv(k) && ReloadFrom(k, name, w).1 == Reloaded
    ensures name in k.libs && k.libs[name].id in k.adapters && k.libs[name].id in k.bus.shards
    ensures var (m, _) := ReloadFrom(k, name, w); var id := k.libs[name].id;
            var v := SnapshotOf(w.snapshot, k.adapters[id].state);
            && v.Some? && m.bus == Handed(k.bus, id, v.value, 0, None)
            && m.libs == k.libs[name := Loaded(k.handles, id)]
            && m.adapters == k.adapters[id := Adapter(name, k.instances, k.handles, k.adapters[id].state)]
  {
    hide BusRuns.Inv, Inv, Rebuild, B.SwapState, Serialize, B.AdmitBytes, OpenAndClose, TryAndClose, OpenAndKeep, SameIdentity, Handed;
    ThrewWhen(k, name, w);
    var id := k.libs[name].id;
    var v := SnapshotOf(w.snapshot, k.adapters[id].state).value;
    StateOnTheBus(k, id);
    SwapIsAdmitted(k.bus, id, w.snapshot.value, k.adapters[id].state);
    SwapDecides(k.bus, id, w.snapshot.value);
  }

  lemma StateOnTheBus(k: Kernel, id: B.ShardId)
    requires Inv(k) && id in k.adapters
    ensures id in k.bus.shards && k.bus.shards[id].stateSchema == k.adapters[id].state
  {
    hide BusRuns.Inv, Handles, Distinct, Backed, Fresh, After, Safe;
  }

  // ---- unloading ------------------------------------------------------------------------------------

  /** An unload takes the name, its shard and its adapter away, destroys the instance and closes the
      library; every other name, shard, instance and library stays. */
  lemma UnloadDecides(k: Kernel, name: bytes)
    requires Inv(k)
    ensures name !in k.libs ==> Unload(k, name) == k
    ensures name in k.libs ==>
              var m := Unload(k, name); var rec := k.libs[name];
              && m.libs == k.libs - {name} && m.adapters == k.adapters - {rec.id}
              && rec.id !in m.bus.shards && m.bus == B.UnregisterShard(k.bus, rec.id)
              && After(m.trace).open == After(k.trace).open - {rec.lib}
              && (forall i :: i in After(k.trace).live && After(k.trace).live[i] == rec.lib ==> i !in After(m.trace).live)
              && (forall i :: i in After(k.trace).live && After(k.trace).live[i] != rec.lib ==> i in After(m.trace).live)
  {
    hide BusRuns.Inv, Inv, After, Handles, Safe, AllowedAll, AdvanceAll, B.UnregisterShard, Distinct, Backed, OnTheBus, Fresh;
    if name in k.libs {
      var p, rec := After(k.trace), k.libs[name];
      var es := (if rec.id in k.adapters then [Destroyed(k.adapters[rec.id].instance)] else []) + [Closed(rec.lib)];
      Parts(k);
      UnloadIsSafe(k, p, name);
      Append(k.trace, es);
      UnregisterDecides(k.bus, rec.id);
      LibIsUnused(k, p, name);
      if rec.id in k.adapters {
        LiveOfName(k, p, name);
      }
    }
  }

  // ---- calls into libraries ------------------------------------------------------------------------------

  lemma {:induction false} CallsHas(adapters: map<B.ShardId, Adapter>, ids: seq<B.ShardId>, id: B.ShardId)
    requires id in ids && id in adapters
    ensures Called(adapters[id].instance) in Calls(adapters, ids)
  {
    if ids[0] != id {
      assert id in ids[1..];
      CallsHas(adapters, ids[1..], id);
    }
  }

  lemma {:induction false} TargetsHas(es: seq<B.Envelope>, i: nat)
    requires i < |es|
    ensures es[i].target in Targets(es)
  {
    if i > 0 {
      TargetsHas(es[1..], i - 1);
    }
  }

  lemma {:induction false} RestoreesHas(rs: seq<(B.ShardId, Value)>, i: nat)
    requires i < |rs|
    ensures rs[i].0 in Restorees(rs)
  {
    if i > 0 {
      RestoreesHas(rs[1..], i - 1);
    }
  }

  /** Every shard in `adapters` that was handled to or handed a state between `b` and `c` was called. */
  ghost predicate CallsEachReached(adapters: map<B.ShardId, Adapter>, b: B.Bus, c: B.Bus, calls: seq<Event>) {
    && b.handled <= c.handled && b.restored <= c.restored
    && (forall i :: |b.handled| <= i < |c.handled| && c.handled[i].target in adapters ==>
          Called(adapters[c.handled[i].target].instance) in calls)
    && (forall i :: |b.restored| <= i < |c.restored| && c.restored[i].0 in adapters ==>
          Called(adapters[c.restored[i].0].instance) in calls)
  }

  /** Traffic on the bus calls into the instance behind every loaded shard that handles a message, is
      handed a state, or is asked for its policy, and changes nothing else of the kernel. */
  lemma TrafficCalls(k: Kernel, op: B.Op)
    requires Inv(k) && !op.OpUnregister?
    ensures var m := Apply(k, DoBus(op));
            && m == k.(bus := B.Apply(k.bus, op), trace := m.trace) && k.trace <= m.trace
            && CallsEachReached(k.adapters, k.bus, m.bus, m.trace[|k.trace|..])
            && (op.OpReload? && op.id in k.adapters ==> Called(k.adapters[op.id].instance) in m.trace[|k.trace|..])
  {
    hide BusRuns.Inv, Inv, B.Apply, Calls;
    BusHolds(k);
    BusGuarantees.ApplyLater(k.bus, op);
    var ids := Reached(k.bus, B.Apply(k.bus, op), op);
    assert OnBus(k, op).trace[|k.trace|..] == Calls(k.adapters, ids);
    EachReached(k.adapters, k.bus, B.Apply(k.bus, op), ids);
    if op.OpReload? && op.id in k.adapters {
      assert [op.id][0] in ids;
      CallsHas(k.adapters, ids, op.id);
    }
  }

  lemma EachReached(adapters: map<B.ShardId, Adapter>, b: B.Bus, c: B.Bus, ids: seq<B.ShardId>)
    requires b.handled <= c.handled && b.restored <= c.restored
    requires forall x :: x in Targets(c.handled[|b.handled|..]) ==> x in ids
    requires forall x :: x in Restorees(c.restored[|b.restored|..]) ==> x in ids
    ensures CallsEachReached(adapters, b, c, Calls(adapters, ids))
  {
    hide Calls, Targets, Restorees;
    forall i | |b.handled| <= i < |c.handled| && c.handled[i].target in adapters
      ensures Called(adapters[c.handled[i].target].instance) in Calls(adapters, ids)
    {
      TargetsHas(c.handled[|b.handled|..], i - |b.handled|);
      CallsHas(adapters, ids, c.handled[i].target);
    }
    forall i | |b.restored| <= i < |c.restored| && c.restored[i].0 in adapters
      ensures Called(adapters[c.restored[i].0].instance) in Calls(adapters, ids)
    {
      RestoreesHas(c.restored[|b.restored|..], i - |b.restored|);
      CallsHas(adapters, ids, c.restored[i].0);
    }
  }

  // ---- never reached again ----------------------------------------------------------------------------

  lemma LoadRefuses(k: Kernel, name: bytes, w: World, id: B.ShardId)
    requires Inv(k) && Gone(k.bus, id)
    ensures var m := Load(k, name, w); Gone(m.bus, id) && Refusals(k.bus, m.bus, id)
  {
    hide BusRuns.Inv, Inv, Rebuild, Enroll, Refusals;
    SilentRefusals(k.bus, k.bus, id);
    LoadShape(k, name, w);
    BusHolds(k);
    var r := Rebuild(w.manifest, k.registry).1;
    if name !in k.libs && w.opens && w.abi && w.creates && r.Some? {
      EnrollRefuses(k.bus, r.value.0, r.value.1, w.snapshot, id);
    }
  }

  lemma EnrollRefuses(b: B.Bus, accept: seq<Schema>, state: Schema, answer: Option<bytes>, id: B.ShardId)
    requires BusRuns.Reachable(b) && Gone(b, id)
    ensures var c := Enroll(b, accept, state, answer).0; Gone(c, id) && Refusals(b, c, id)
  {
    hide BusRuns.Inv, B.RegisterEach, B.RegisterShard, SnapshotOf, Refusals;
    SilentRefusals(b, b.(registry := B.RegisterEach(b.registry, accept).0), id);
    var v := SnapshotOf(answer, state);
    if v.Some? {
      ApplyRefuses(b, B.OpRegister(accept, v.value, ALLOW_ANY), id);
    }
  }

  lemma ReloadRefuses(k: Kernel, name: bytes, w: World, id: B.ShardId)
    requires Inv(k) && Gone(k.bus, id)
    ensures var m := ReloadFrom(k, name, w).0; Gone(m.bus, id) && Refusals(k.bus, m.bus, id)
  {
    hide BusRuns.Inv, Inv, Rebuild, B.SwapState, Serialize, SnapshotOf, OpenAndClose, TryAndClose, OpenAndKeep, SameIdentity, Refusals;
    SilentRefusals(k.bus, k.bus, id);
    BusHolds(k);
    if name in k.libs {
      forall bs ensures var c := B.SwapState(k.bus, k.libs[name].id, bs).0; Gone(c, id) && Refusals(k.bus, c, id) {
        ApplyRefuses(k.bus, B.OpSwap(k.libs[name].id, bs), id);
      }
    }
  }

  lemma StepRefuses(k: Kernel, op: KernelOp, id: B.ShardId)
    requires Inv(k) && Gone(k.bus, id)
    ensures Gone(Apply(k, op).bus, id) && Refusals(k.bus, Apply(k, op).bus, id)
  {
    hide BusRuns.Inv, Inv, Load, ReloadFrom, B.UnregisterShard, B.Apply, Refusals, Calls, Reached;
    BusHolds(k);
    SilentRefusals(k.bus, k.bus, id);
    match op
    case DoLoad(name, w) => LoadRefuses(k, name, w, id);
    case DoReload(name, w) => ReloadRefuses(k, name, w, id);
    case DoUnload(name) =>
      if name in k.libs {
        UnregisterRefuses(k.bus, k.libs[name].id, id);
      }
    case DoDetach(i) => UnregisterRefuses(k.bus, i, id);
    case DoBus(bop) =>
      if bop.OpUnregister? {
        UnregisterRefuses(k.bus, bop.id, id);
      } else {
        ApplyRefuses(k.bus, bop, id);
      }
  }

  lemma UnregisterRefuses(b: B.Bus, i: B.ShardId, id: B.ShardId)
    requires BusRuns.Reachable(b) && Gone(b, id)
    ensures var c := B.UnregisterShard(b, i); Gone(c, id) && Refusals(b, c, id)
  {
    hide BusRuns.Inv, B.UnregisterShard, Refusals;
    ApplyRefuses(b, B.OpUnregister(i), id);
  }

  lemma {:induction false} RunRefuses(k: Kernel, ops: seq<KernelOp>, id: B.ShardId)
    requires Inv(k) && Gone(k.bus, id)
    ensures Gone(Run(k, ops).bus, id) && Refusals(k.bus, Run(k, ops).bus, id)
    decreases |ops|
  {
    hide Inv, Apply, Gone, Refusals;
    if ops == [] {
      SilentRefusals(k.bus, k.bus, id);
    } else {
      StepRefuses(k, ops[0], id);
      ApplyKeeps(k, ops[0]);
      RunRefuses(Apply(k, ops[0]), ops[1..], id);
      RefusalsTransitive(k.bus, Apply(k, ops[0]).bus, Run(Apply(k, ops[0]), ops[1..]).bus, id);
    }
  }

  /** Between `b` and `c` nothing reached `id`: it is not on the bus at the end, no message was
      handled there, nothing was handed to its revive, and each delivery was refused for want of a target. */
  ghost predicate NeverReached(b: B.Bus, c: B.Bus, id: B.ShardId) {
    && id !in c.shards
    && b.handled <= c.handled && b.log <= c.log && b.restored <= c.restored
    && (forall i :: |b.handled| <= i < |c.handled| ==> c.handled[i].target != id)
    && (forall i :: |b.restored| <= i < |c.restored| ==> c.restored[i].0 != id)
    && (forall j :: |b.log| <= j < |c.log| && c.log[j].target == id ==>
          c.log[j].Decided? && c.log[j].outcome == B.Declined(B.NoSuchTarget))
  }

  /** What was unloaded, or taken off the bus by the host, is never reached again: whatever the kernel
      and the bus do afterwards, its shard is not on the bus, its handler is never called, nothing is
      handed to its revive, and every delivery to it is refused for want of a target. */
  lemma UnloadedIsNeverReached(k: Kernel, gone: KernelOp, id: B.ShardId, ops: seq<KernelOp>)
    requires Inv(k) && id in k.bus.shards
    requires gone == DoDetach(id) || (gone.DoUnload? && gone.name in k.libs && k.libs[gone.name].id == id)
    ensures NeverReached(k.bus, Run(Apply(k, gone), ops).bus, id)
  {
    hide BusRuns.Inv, Inv, B.UnregisterShard, Run;
    BusHolds(k);
    BusRuns.KnownIsOld(k.bus, id);
    UnregisterDecides(k.bus, id);
    ApplyKeeps(k, gone);
    RunRefuses(Apply(k, gone), ops, id);
  }

  // ---- never reached without a library ----------------------------------------------------------------

  /** Every delivery to a loaded shard is a call into a live instance of an open library: as long as
      the shard is on the bus, its adapter is there and what it holds is alive. */
  ghost predicate StillBacked(k: Kernel, id: B.ShardId) {
    id in k.bus.shards ==>
      && id in k.adapters && var a := k.adapters[id];
         && a.instance in After(k.trace).live && After(k.trace).live[a.instance] == a.lib && a.lib in After(k.trace).open
         && a.name in k.libs && k.libs[a.name] == Loaded(a.lib, id)
  }

  lemma AdapterIsBacked(k: Kernel, id: B.ShardId)
    requires Inv(k) && id in k.adapters
    ensures StillBacked(k, id)
  {
    hide BusRuns.Inv, Handles, Distinct, OnTheBus, Fresh, After, Safe;
    AliveWasMade(k.trace);
  }

  /** A step keeps the adapter of a shard that stays on the bus. */
  lemma StepKeepsAdapter(k: Kernel, op: KernelOp, id: B.ShardId)
    requires Inv(k) && id in k.adapters
    ensures id in Apply(k, op).adapters || id !in Apply(k, op).bus.shards
  {
    hide BusRuns.Inv, Inv, Rebuild, Enroll, B.SwapState, Serialize, SnapshotOf, B.Apply, OpenAndClose, TryAndClose, OpenAndKeep,
         SameIdentity, Calls, Reached, B.UnregisterShard;
    match op
    case DoUnload(name) =>
      if name in k.libs {
        UnregisterDecides(k.bus, k.libs[name].id);
      }
    case DoDetach(i) => UnregisterDecides(k.bus, i);
    case DoBus(bop) =>
      if bop.OpUnregister? {
        UnregisterDecides(k.bus, bop.id);
      }
    case _ =>
  }

  lemma StepIdsGrow(k: Kernel, op: KernelOp)
    requires Inv(k)
    ensures k.bus.nextShard <= Apply(k, op).bus.nextShard
  {
    hide BusRuns.Inv, Inv, Load, Rebuild, Enroll, B.SwapState, Serialize, SnapshotOf, B.Apply, OpenAndClose, TryAndClose, OpenAndKeep,
         SameIdentity, Calls, Reached, B.UnregisterShard;
    BusHolds(k);
    match op
    case DoLoad(name, w) =>
      LoadShape(k, name, w);
      var r := Rebuild(w.manifest, k.registry).1;
      if r.Some? {
        EnrollIsSound(k.bus, r.value.0, r.value.1, w.snapshot);
      }
    case DoReload(name, w) =>
      if name in k.libs {
        forall bs ensures k.bus.nextShard <= B.SwapState(k.bus, k.libs[name].id, bs).0.nextShard {
          SwapGrows(k.bus, k.libs[name].id, bs);
        }
      }
    case DoUnload(name) =>
      if name in k.libs {
        UnregisterDecides(k.bus, k.libs[name].id);
      }
    case DoDetach(i) => UnregisterDecides(k.bus, i);
    case DoBus(bop) =>
      if bop.OpUnregister? {
        UnregisterDecides(k.bus, bop.id);
      } else {
        OpGrows(k.bus, bop);
      }
  }

  lemma {:induction false} LoadedStaysBacked(k: Kernel, ops: seq<KernelOp>, id: B.ShardId)
    requires Inv(k) && id in k.adapters
    ensures StillBacked(Run(k, ops), id)
    decreases |ops|
  {
    hide BusRuns.Inv, Inv, Apply, StillBacked;
    if ops == [] {
      AdapterIsBacked(k, id);
    } else {
      var k1 := Apply(k, ops[0]);
      ApplyKeeps(k, ops[0]);
      StepKeepsAdapter(k, ops[0], id);
      if id in k1.adapters {
        LoadedStaysBacked(k1, ops[1..], id);
      } else {
        StateOnTheBus(k, id);
        BusHolds(k);
        BusRuns.KnownIsOld(k.bus, id);
        assert id < k1.bus.nextShard by { StepIdsGrow(k, ops[0]); }
        RunRefuses(k1, ops[1..], id);
        assert id !in Run(k, ops).bus.shards;
        NotThere(Run(k, ops), id);
      }
    }
  }

  lemma NotThere(k: Kernel, id: B.ShardId)
    requires id !in k.bus.shards
    ensures StillBacked(k, id)
  {
  }
}
