/** The schema registry (src/registry.cpp): one published shape per (name, version), for good;
    and admission under whatever door a claim names. */
module Registry {
  import opened Bytes
  import opened Model
  import opened Wire
  import opened Gate
  import opened Native
  import opened Compat
  import opened Admission
  import ByteIdentity
  import AdmissionRun

  datatype Key = Key(name: bytes, version: u32)

  type Schemas = map<Key, Schema>

  function KeyOf(s: Schema): Key { Key(s.name, s.version) }

  /** SchemaConflict carries both content ids. */
  datatype Registration = Registered(schema: Schema, inserted: bool) | Conflict(existing: u64, incoming: u64)

  function Register(m: Schemas, s: Schema): Registration {
    if KeyOf(s) !in m then Registered(s, true)
    else if m[KeyOf(s)].id == s.id then Registered(m[KeyOf(s)], false)
    else Conflict(m[KeyOf(s)].id, s.id)
  }

  function Publish(m: Schemas, s: Schema): Schemas {
    if KeyOf(s) in m then m else m[KeyOf(s) := s]
  }

  function PublishAll(m: Schemas, ss: seq<Schema>): Schemas
    decreases |ss|
  {
    if ss == [] then m else PublishAll(Publish(m, ss[0]), ss[1..])
  }

  /** Every schema sits under its own name and version. */
  predicate Keyed(m: Schemas) { forall k :: k in m ==> KeyOf(m[k]) == k }

  predicate Extends(m: Schemas, n: Schemas) { forall k :: k in m ==> k in n && n[k] == m[k] }

  /** A published schema is frozen: whatever is registered later, in any order, every name and
      version known keeps the schema it has, and a new one gets the first schema offered. */
  lemma {:induction false} PublishedIsFrozen(m: Schemas, ss: seq<Schema>)
    requires Keyed(m)
    ensures Keyed(PublishAll(m, ss)) && Extends(m, PublishAll(m, ss))
    ensures forall k :: k in PublishAll(m, ss) <==> k in m || exists i :: 0 <= i < |ss| && KeyOf(ss[i]) == k
    ensures forall i :: 0 <= i < |ss| && KeyOf(ss[i]) !in m && (forall j :: 0 <= j < i ==> KeyOf(ss[j]) != KeyOf(ss[i])) ==>
              PublishAll(m, ss)[KeyOf(ss[i])] == ss[i]
    decreases |ss|
  {
    if ss != [] {
      var n := Publish(m, ss[0]);
      PublishedIsFrozen(n, ss[1..]);
      forall k ensures k in PublishAll(m, ss) <==> k in m || exists i :: 0 <= i < |ss| && KeyOf(ss[i]) == k {
        if i :| 0 <= i < |ss| && KeyOf(ss[i]) == k {
          assert i > 0 ==> ss[1..][i - 1] == ss[i];
        }
        if i :| 0 <= i < |ss| - 1 && KeyOf(ss[1..][i]) == k {
          assert ss[1..][i] == ss[i + 1];
        }
      }
      forall i | 0 <= i < |ss| && KeyOf(ss[i]) !in m && forall j :: 0 <= j < i ==> KeyOf(ss[j]) != KeyOf(ss[i])
        ensures PublishAll(m, ss)[KeyOf(ss[i])] == ss[i]
      {
        if i > 0 {
          assert ss[1..][i - 1] == ss[i] && KeyOf(ss[0]) != KeyOf(ss[i]);
          assert forall j :: 0 <= j < i - 1 ==> ss[1..][j] == ss[j + 1];
        }
      }
    }
  }

  /** Registration decides by content id alone: a second registration under a known name and
      version succeeds iff the ids agree, and then hands back the schema already there. */
  lemma RegistrationDecides(m: Schemas, first: Schema, between: seq<Schema>, second: Schema)
    requires Keyed(m) && Register(m, first).Registered? && KeyOf(first) == KeyOf(second)
    ensures var n := PublishAll(Publish(m, first), between);
            && (Register(n, second).Registered? <==> first.id == second.id)
            && (Register(n, second).Registered? ==> Register(n, second) == Registered(Register(m, first).schema, false))
  {
    PublishedIsFrozen(Publish(m, first), between);
  }

  /** A list under construction in front of what the rest of it comes to. */
  function Prepend(done: seq<Schema>, r: (Schemas, Option<seq<Schema>>)): (Schemas, Option<seq<Schema>>) {
    (r.0, if r.1.None? then None else Some(done + r.1.value))
  }

  lemma PrependNothing(r: (Schemas, Option<seq<Schema>>))
    ensures Prepend([], r) == r
  {
    if r.1.Some? {
      assert [] + r.1.value == r.1.value;
    }
  }

  lemma PrependTwice(done: seq<Schema>, s: Schema, r: (Schemas, Option<seq<Schema>>))
    ensures Prepend(done, Prepend([s], r)) == Prepend(done + [s], r)
  {
    if r.1.Some? {
      assert done + ([s] + r.1.value) == done + [s] + r.1.value;
    }
  }

  /** The registry as it runs: registration swaps in a copy of the map with one more entry. */
  class Registry {
    var current: Schemas

    constructor ()
      ensures current == map[]
    {
      current := map[];
    }

    method RegisterSchema(s: Schema) returns (r: Registration)
      modifies this
      ensures r == Register(old(current), s)
      ensures current == Publish(old(current), s)
    {
      var key := KeyOf(s);
      if key in current {
        var existing := current[key];
        if existing.id == s.id {
          return Registered(existing, false);
        }
        return Conflict(existing.id, s.id);
      }
      var next := current;
      next := next[key := s];
      current := next;
      return Registered(s, true);
    }

    method Lookup(name: bytes, version: u32) returns (r: Option<Schema>)
      ensures r == Resolve(current, name, version)
    {
      var key := Key(name, version);
      if key !in current {
        return None;
      }
      return Some(current[key]);
    }
  }

  function Resolve(m: Schemas, name: bytes, version: u32): Option<Schema> {
    if Key(name, version) in m then Some(m[Key(name, version)]) else None
  }

  // ---- admission under the door a claim names ------------------------------------------------

  /** admit(Unverified, Registry) */
  function AdmitNamed(u: Unverified, m: Schemas, all: bool, ft: FloatText): Admission {
    if u.Malformed? then Rejected([Error(MalformedBytes, [])])
    else
      match Resolve(m, u.name, u.version)
      case None => Rejected([Error(UnknownSchema, [])])
      case Some(door) => AdmitAgainst(u, door, all, ft)
  }

  /** Bytes admitted by name are the canonical bytes of a value of the registered schema, and
      no later registration changes the verdict. */
  lemma NamedAdmission(b: bytes, m: Schemas, later: seq<Schema>, all: bool, ft: FloatText)
    requires Keyed(m) && AdmitNamed(Parse(b), m, all, ft).Accepted?
    ensures var v := AdmitNamed(Parse(b), m, all, ft).value;
            && Serialize(v) == Some(b)
            && KeyOf(v.schema) in m && m[KeyOf(v.schema)] == v.schema && Conforms(v, v.schema)
            && AdmitNamed(Parse(b), PublishAll(m, later), all, ft) == Accepted(v)
  {
    hide Conforms, AdmitAgainst, Serialize, Parse;
    var u := Parse(b);
    var door := m[Key(u.name, u.version)];
    assert AdmitNamed(u, m, all, ft) == Admit(u, door, all, ft);
    ByteIdentity.CanonicalAcceptance(b, door, all, ft);
    AdmissionRun.AdmittedConforms(u, Admit(u, door, all, ft).value, door, all, ft);
    PublishedIsFrozen(m, later);
  }
}
