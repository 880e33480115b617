/** What the platform loader does to us (src/kernel/kernel.cpp): library handles and instances,
    and which uses of them are safe. Every successful open is its own counted reference. */
module Libraries {

  /** One thing done to a library or through it. */
  datatype Event =
    | Opened(lib: nat)
    | Fetched(lib: nat)                 // the descriptor function was called
    | Closed(lib: nat)
    | Created(instance: nat, lib: nat)
    | Called(instance: nat)             // any thunk of a live instance
    | Destroyed(instance: nat)

  /** What is open and alive, and what ever was. */
  datatype Platform = Platform(open: set<nat>, live: map<nat, nat>, everOpened: set<nat>, everCreated: set<nat>)

  const IDLE: Platform := Platform({}, map[], {}, {})

  function Advance(p: Platform, e: Event): Platform {
    match e
    case Opened(h) => p.(open := p.open + {h}, everOpened := p.everOpened + {h})
    case Fetched(_) => p
    case Closed(h) => p.(open := p.open - {h})
    case Created(i, h) => p.(live := p.live[i := h], everCreated := p.everCreated + {i})
    case Called(_) => p
    case Destroyed(i) => p.(live := p.live - {i})
  }

  /** Code runs only in open libraries and on live instances; a library is closed only when
      nothing alive came from it. */
  predicate Allowed(p: Platform, e: Event) {
    match e
    case Opened(h) => h !in p.everOpened
    case Fetched(h) => h in p.open
    case Closed(h) => h in p.open && forall i :: i in p.live ==> p.live[i] != h
    case Created(i, h) => h in p.open && i !in p.everCreated
    case Called(i) => i in p.live && p.live[i] in p.open
    case Destroyed(i) => i in p.live && p.live[i] in p.open
  }

  function After(trace: seq<Event>): Platform {
    if trace == [] then IDLE else Advance(After(trace[..|trace| - 1]), trace[|trace| - 1])
  }

  predicate Safe(trace: seq<Event>) {
    trace == [] || (Safe(trace[..|trace| - 1]) && Allowed(After(trace[..|trace| - 1]), trace[|trace| - 1]))
  }

  function AdvanceAll(p: Platform, es: seq<Event>): Platform
    decreases |es|
  {
    if es == [] then p else AdvanceAll(Advance(p, es[0]), es[1..])
  }

  predicate AllowedAll(p: Platform, es: seq<Event>)
    decreases |es|
  {
    es == [] || (Allowed(p, es[0]) && AllowedAll(Advance(p, es[0]), es[1..]))
  }

  lemma {:induction false} Append(trace: seq<Event>, es: seq<Event>)
    ensures After(trace + es) == AdvanceAll(After(trace), es)
    ensures Safe(trace + es) <==> Safe(trace) && AllowedAll(After(trace), es)
    decreases |es|
  {
    hide Advance, Allowed;
    if es == [] {
      assert trace + es == trace;
    } else {
      var one := trace + [es[0]];
      assert one[..|trace|] == trace && one[|trace|] == es[0];
      assert trace + es == one + es[1..];
      Append(one, es[1..]);
    }
  }

  // ---- what safety of a trace means ---------------------------------------------------------------

  lemma {:induction false} SafePrefix(trace: seq<Event>, k: nat)
    requires Safe(trace) && k <= |trace|
    ensures Safe(trace[..k])
    decreases |trace|
  {
    if k < |trace| {
      SafePrefix(trace[..|trace| - 1], k);
      assert trace[..|trace| - 1][..k] == trace[..k];
    } else {
      assert trace[..k] == trace;
    }
  }

  /** What is live was created, what is open was opened. */
  lemma {:induction false} AliveWasMade(trace: seq<Event>)
    requires Safe(trace)
    ensures var p := After(trace);
            && p.open <= p.everOpened && p.live.Keys <= p.everCreated
            && forall i :: i in p.live ==> p.live[i] in p.open
  {
    if trace != [] {
      AliveWasMade(trace[..|trace| - 1]);
    }
  }

  /** What was opened or created stays known, and once gone it stays gone. */
  lemma {:induction false} GoneStaysGone(trace: seq<Event>, k: nat)
    requires Safe(trace) && k <= |trace|
    ensures var p, q := After(trace[..k]), After(trace);
            && p.everOpened <= q.everOpened && p.everCreated <= q.everCreated
            && (forall h :: h in p.everOpened && h !in p.open ==> h !in q.open)
            && (forall i :: i in p.everCreated && i !in p.live ==> i !in q.live)
            && (forall i :: i in p.live && i in q.live ==> p.live[i] == q.live[i])
    decreases |trace|
  {
    if k == |trace| {
      assert trace[..k] == trace;
      AliveWasMade(trace);
    } else {
      var front := trace[..|trace| - 1];
      GoneStaysGone(front, k);
      assert front[..k] == trace[..k];
      AliveWasMade(front);
      SafePrefix(trace, k);
      AliveWasMade(trace[..k]);
    }
  }

  /** In a safe trace an instance is destroyed at most once and never used afterwards, and a
      library is closed at most once. */
  lemma NothingAfterTheEnd(trace: seq<Event>, j: nat, k: nat)
    requires Safe(trace) && j < k < |trace|
    ensures trace[j].Destroyed? ==>
              trace[k] != Destroyed(trace[j].instance) && trace[k] != Called(trace[j].instance)
    ensures trace[j].Closed? ==> trace[k] != Closed(trace[j].lib) && trace[k] != Fetched(trace[j].lib)
  {
    hide Allowed, Advance;
    var before, mid := trace[..j], trace[..j + 1];
    SafePrefix(trace, k + 1);
    SafePrefix(trace, k);
    SafePrefix(trace, j + 1);
    AliveWasMade(before) by { SafePrefix(trace, j); }
    StepOf(trace, j);
    StepOf(trace, k);
    GoneStaysGone(trace[..k], j + 1);
    assert trace[..k][..j + 1] == mid;
    EndIsEnd(After(before), trace[j]);
    UseNeedsLife(After(trace[..k]), trace[k]);
  }

  lemma StepOf(trace: seq<Event>, j: nat)
    requires Safe(trace) && j < |trace|
    ensures Allowed(After(trace[..j]), trace[j]) && After(trace[..j + 1]) == Advance(After(trace[..j]), trace[j])
  {
    hide Allowed, Advance;
    SafePrefix(trace, j + 1);
    assert trace[..j + 1][..j] == trace[..j];
  }

  lemma EndIsEnd(p: Platform, e: Event)
    requires Allowed(p, e) && p.open <= p.everOpened && p.live.Keys <= p.everCreated
    ensures e.Destroyed? ==> e.instance in Advance(p, e).everCreated && e.instance !in Advance(p, e).live
    ensures e.Closed? ==> e.lib in Advance(p, e).everOpened && e.lib !in Advance(p, e).open
  {
  }

  lemma UseNeedsLife(p: Platform, e: Event)
    requires Allowed(p, e)
    ensures e.Destroyed? || e.Called? ==> e.instance in p.live
    ensures e.Closed? || e.Fetched? ==> e.lib in p.open
  {
  }

  /** In a safe trace no thunk runs through a closed library: whenever an instance is called or
      destroyed, the library it was created from has been opened and not yet closed. */
  lemma CallsRunInOpenLibraries(trace: seq<Event>, c: nat, j: nat, k: nat)
    requires Safe(trace) && c < j < |trace| && c < k < |trace|
    requires trace[c].Created? && trace[j] == Closed(trace[c].lib)
    requires trace[k] == Called(trace[c].instance) || trace[k] == Destroyed(trace[c].instance)
    ensures k < j
  {
    hide Allowed, Advance;
    if k > j {
      StepOf(trace, c);
      StepOf(trace, j);
      StepOf(trace, k);
      SafePrefix(trace, k);
      SafePrefix(trace, j);
      SafePrefix(trace, c);
      SafePrefix(trace, j + 1);
      GoneStaysGone(trace[..k], c + 1);
      GoneStaysGone(trace[..k], j + 1);
      assert trace[..k][..c + 1] == trace[..c + 1] && trace[..k][..j + 1] == trace[..j + 1];
      AliveWasMade(trace[..k]);
      AliveWasMade(trace[..j]);
      CreatedIsLive(After(trace[..c]), trace[c]);
      EndIsEnd(After(trace[..j]), trace[j]);
      UseNeedsLife(After(trace[..k]), trace[k]);
    }
  }

  lemma CreatedIsLive(p: Platform, e: Event)
    requires e.Created?
    ensures e.instance in Advance(p, e).live && Advance(p, e).live[e.instance] == e.lib
  {
  }
}
