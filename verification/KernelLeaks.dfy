/** What is never closed (src/kernel/kernel.cpp): a reload whose revive thunk throws loses the old
    library's handle, and nothing else does. */
module KernelLeaks {
  import opened Bytes
  import opened Admission
  import opened Libraries
  import opened Kernel
  import opened KernelRuns
  import B = Bus
  import BusRuns

  // ---- when one reload throws -----------------------------------------------------------------

  /** The old side of a reload goes through: the name is loaded, its shard is on the bus, and the
      snapshot it gives is admitted and can be written. */
  predicate Snapshots(k: Kernel, name: bytes, w: World) {
    && name in k.libs && k.libs[name].id in k.bus.shards && k.libs[name].id in k.adapters
    && var s := SnapshotOf(w.snapshot, k.adapters[k.libs[name].id].state); s.Some? && Serialize(s.value).Some?
  }

  /** The new side does: the library opens, has the right ABI, makes an instance, and its manifest
      rebuilds with the state schema of the shard it replaces. */
  predicate Replaces(k: Kernel, name: bytes, w: World)
    requires name in k.libs && k.libs[name].id in k.adapters
  {
    && w.opens && w.abi && w.creates
    && var r := Rebuild(w.manifest, k.registry).1; r.Some? && SameIdentity(r.value.1, k.adapters[k.libs[name].id].state)
  }

  /** A reload reaches the new instance's revive exactly when both sides go through; then it throws
      exactly when revive does. */
  lemma ThrewWhen(k: Kernel, name: bytes, w: World)
    requires Inv(k)
    ensures ReloadFrom(k, name, w).1 == Threw <==> Snapshots(k, name, w) && Replaces(k, name, w) && !w.revives
    ensures ReloadFrom(k, name, w).1 == Reloaded <==> Snapshots(k, name, w) && Replaces(k, name, w) && w.revives
  {
    hide Inv, Rebuild, B.SwapState, Serialize, SnapshotOf, OpenAndClose, TryAndClose, OpenAndKeep, SameIdentity;
    if Snapshots(k, name, w) {
      SnapshotSwaps(k, name, w);
    }
  }

  // ---- what one step leaks --------------------------------------------------------------------

  predicate Throws(k: Kernel, op: KernelOp) { op.DoReload? && ReloadFrom(k, op.name, op.w).1 == Threw }

  lemma ThrowsLoaded(k: Kernel, op: KernelOp)
    requires Throws(k, op)
    ensures op.DoReload? && op.name in k.libs && !op.w.revives
  {
    hide Rebuild, B.SwapState, Serialize, SnapshotOf;
  }

  /** A throwing reload leaks the library it was replacing; no other step leaks anything. */
  lemma LeakStep(k: Kernel, op: KernelOp)
    ensures Throws(k, op) ==> op.name in k.libs
    ensures Apply(k, op).leaked == if Throws(k, op) then k.leaked + {k.libs[op.name].lib} else k.leaked
  {
    hide Rebuild, Enroll, B.SwapState, B.Apply, SnapshotOf, Serialize, Calls, Reached, B.UnregisterShard;
  }

  // ---- what a run leaks -----------------------------------------------------------------------

  predicate ThrowsAt(k: Kernel, ops: seq<KernelOp>, j: nat)
    requires j < |ops|
  {
    Throws(Run(k, ops[..j]), ops[j])
  }

  /** How many reloads of the run threw. */
  function Throwing(k: Kernel, ops: seq<KernelOp>): nat
    decreases |ops|
  {
    if ops == [] then 0 else (if Throws(k, ops[0]) then 1 else 0) + Throwing(Apply(k, ops[0]), ops[1..])
  }

  lemma OwnLibrary(k: Kernel, name: bytes)
    requires Inv(k) && name in k.libs
    ensures k.libs[name].lib !in k.leaked
  {
    hide BusRuns.Inv, Handles, Backed, OnTheBus, Fresh, After, Safe;
  }

  /** Each throw leaks one library more. */
  lemma {:induction false} LeaksAreThrows(k: Kernel, ops: seq<KernelOp>)
    requires Inv(k)
    ensures |Run(k, ops).leaked| == |k.leaked| + Throwing(k, ops)
    decreases |ops|
  {
    hide Inv, Apply, Throws;
    if ops != [] {
      LeakStep(k, ops[0]);
      if Throws(k, ops[0]) {
        ThrowsLoaded(k, ops[0]);
        OwnLibrary(k, ops[0].name);
      }
      ApplyKeeps(k, ops[0]);
      LeaksAreThrows(Apply(k, ops[0]), ops[1..]);
    }
  }

  lemma {:induction false} ThrowingSome(k: Kernel, ops: seq<KernelOp>)
    ensures Throwing(k, ops) > 0 <==> exists j: nat :: j < |ops| && ThrowsAt(k, ops, j)
    decreases |ops|
  {
    hide Apply, Throws;
    if ops != [] {
      var k1, rest := Apply(k, ops[0]), ops[1..];
      ThrowingSome(k1, rest);
      assert ThrowsAt(k, ops, 0) == Throws(k, ops[0]);
      forall j: nat | 0 < j < |ops| ensures ThrowsAt(k, ops, j) == ThrowsAt(k1, rest, j - 1) {
        assert ops[..j][1..] == rest[..j - 1] && rest[j - 1] == ops[j];
      }
      if j: nat :| j < |rest| && ThrowsAt(k1, rest, j) {
        assert ThrowsAt(k, ops, j + 1);
      }
    }
  }

  /** Over every run from the start: the open libraries are the loaded ones and those forgotten
      by throwing reloads, one for each throw; so every open library is a loaded one exactly when
      no reload threw, which is so whenever no revive throws. Every live instance is behind a shard. */
  lemma NothingElseLeaks(ops: seq<KernelOp>)
    ensures var k := Run(NEW_KERNEL, ops);
            && After(k.trace).open == Handles(k.libs) + k.leaked && Handles(k.libs) !! k.leaked
            && |k.leaked| == Throwing(NEW_KERNEL, ops)
            && (After(k.trace).open == Handles(k.libs) <==> !exists j: nat :: j < |ops| && ThrowsAt(NEW_KERNEL, ops, j))
            && (forall i :: i in After(k.trace).live ==> exists id :: id in k.adapters && k.adapters[id].instance == i)
    ensures (forall j :: 0 <= j < |ops| && ops[j].DoReload? ==> ops[j].w.revives) ==> Run(NEW_KERNEL, ops).leaked == {}
  {
    hide Inv, Run, After, Handles, ThrowsAt, Throwing;
    NewKernelHolds();
    EveryRunKeeps(NEW_KERNEL, ops);
    OpenParts(Run(NEW_KERNEL, ops));
    LeaksAreThrows(NEW_KERNEL, ops);
    ThrowingSome(NEW_KERNEL, ops);
    if forall j :: 0 <= j < |ops| && ops[j].DoReload? ==> ops[j].w.revives {
      forall j: nat | j < |ops| ensures !ThrowsAt(NEW_KERNEL, ops, j) {
        NoThrow(NEW_KERNEL, ops, j);
      }
    }
  }

  lemma OpenParts(k: Kernel)
    requires Inv(k)
    ensures After(k.trace).open == Handles(k.libs) + k.leaked && Handles(k.libs) !! k.leaked
    ensures forall i :: i in After(k.trace).live ==> exists id :: id in k.adapters && k.adapters[id].instance == i
  {
    hide BusRuns.Inv, OnTheBus, Fresh, After, Safe;
  }

  lemma NoThrow(k: Kernel, ops: seq<KernelOp>, j: nat)
    requires j < |ops| && (ops[j].DoReload? ==> ops[j].w.revives)
    ensures !ThrowsAt(k, ops, j)
  {
    hide Throws, Run;
    if ThrowsAt(k, ops, j) {
      ThrowsLoaded(Run(k, ops[..j]), ops[j]);
    }
  }
}
