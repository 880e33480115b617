/** Descriptors on the wire: a schema described, serialized, parsed, admitted and rebuilt is the
    schema it was; and a manifest rebuilds every schema it lists. */
module SchemaTransport {
  import opened Bytes
  import opened Model
  import opened Utf8
  import opened Gate
  import opened Native
  import opened Canonical
  import opened Compat
  import opened Admission
  import opened SchemaId
  import opened Registry
  import opened SchemaCodec
  import ByteIdentity
  import JsonUtf8
  import Hash

  // ---- what fits -----------------------------------------------------------------------------

  predicate TextFits(s: bytes) { |s| <= MAX_FIELD_BYTES && ValidUtf8(s) }

  predicate TypeFits(t: Type) {
    match t
    case MessageT(s) => TextFits(s.name)
    case ListT(e) => TypeFits(e)
    case _ => true
  }

  predicate FieldFits(f: Field) { TextFits(f.name) && TypeFits(f.ty) && |EncodeType(f.ty)| <= MAX_LIST_COUNT }

  /** What the codec can carry: names that are UTF-8 and not too long, not too many fields, no
      list nested too deep. */
  predicate SchemaFits(s: Schema) {
    TextFits(s.name) && |s.fields| <= MAX_LIST_COUNT && forall i :: 0 <= i < |s.fields| ==> FieldFits(s.fields[i])
  }

  predicate CellsFit(cs: seq<Cell>, depth: nat) { forall k :: 0 <= k < |cs| ==> CellWithinCaps(cs[k], depth) }

  lemma TokenFits(k: byte, ref: Option<Schema>, depth: nat)
    requires depth <= 10
    ensures WithinCaps(Token(k, ref), depth) <==> (ref.Some? ==> TextFits(ref.value.name))
  {
    hide ValidUtf8;
    var v := Token(k, ref);
    SlotsFit3(v, depth);
  }

  lemma SlotsFit3(v: Value, depth: nat)
    requires |v.slots| == 3 && depth <= MAX_DEPTH
    ensures WithinCaps(v, depth) <==>
            (v.slots[0].Some? ==> CellWithinCaps(v.slots[0].value, depth)) &&
            (v.slots[1].Some? ==> CellWithinCaps(v.slots[1].value, depth)) &&
            (v.slots[2].Some? ==> CellWithinCaps(v.slots[2].value, depth))
  {
    hide CellWithinCaps;
  }

  lemma {:induction false} TokensFit(t: Type, depth: nat)
    requires depth < 10
    ensures CellsFit(EncodeType(t), depth) <==> TypeFits(t)
  {
    hide TextFits, WithinCaps, Token;
    var cs := EncodeType(t);
    var ref := if t.MessageT? then Some(t.schema) else None;
    TokenFits(KindCode(t), ref, depth + 1);
    assert cs[0] == MessageC(Some(Token(KindCode(t), ref)));
    if t.ListT? {
      TokensFit(t.elem, depth);
      assert CellsFit(cs, depth) <==> CellWithinCaps(cs[0], depth) && CellsFit(cs[1..], depth) by {
        assert forall k :: 0 < k < |cs| ==> cs[k] == cs[1..][k - 1];
      }
      assert cs[1..] == EncodeType(t.elem);
    }
  }

  lemma EncodedFieldFits(f: Field, depth: nat)
    requires depth < 8
    ensures WithinCaps(EncodeField(f), depth) <==> FieldFits(f)
  {
    hide ValidUtf8, EncodeType, TypeFits;
    var v := EncodeField(f);
    SlotsFit3(v, depth);
    TokensFit(f.ty, depth + 1);
    ListFits(EncodeType(f.ty), depth);
  }

  lemma ListFits(cs: seq<Cell>, depth: nat)
    requires depth <= MAX_DEPTH
    ensures CellWithinCaps(ListC(cs), depth) <==> |cs| <= MAX_LIST_COUNT && CellsFit(cs, depth + 1)
  {
  }

  /** A descriptor is within the wire format's caps exactly when its schema fits. */
  lemma DescriptorFits(s: Schema, depth: nat)
    requires depth < 5
    ensures WithinCaps(EncodeSchema(s), depth) <==> SchemaFits(s)
  {
    hide ValidUtf8, EncodeField, FieldFits, WithinCaps;
    var v, cs := EncodeSchema(s), SchemaCodec.EncodeFields(s.fields);
    SlotsFit3(v, depth);
    ListFits(cs, depth);
    forall k | 0 <= k < |cs| ensures CellWithinCaps(cs[k], depth + 1) <==> FieldFits(s.fields[k]) {
      EncodedFieldFits(s.fields[k], depth + 2);
    }
    assert forall k :: 0 <= k < |s.fields| ==> (CellWithinCaps(cs[k], depth + 1) <==> FieldFits(s.fields[k]));
    assert CellsFit(cs, depth + 1) <==> forall i :: 0 <= i < |s.fields| ==> FieldFits(s.fields[i]) by {
      if CellsFit(cs, depth + 1) {
        forall i | 0 <= i < |s.fields| ensures FieldFits(s.fields[i]) {
          assert CellWithinCaps(cs[i], depth + 1);
        }
      }
    }
  }

  predicate ManifestFits(accepted: seq<Schema>, state: Schema) {
    |accepted| <= MAX_LIST_COUNT && SchemaFits(state) && forall i :: 0 <= i < |accepted| ==> SchemaFits(accepted[i])
  }

  lemma EncodedManifestFits(accepted: seq<Schema>, state: Schema)
    ensures WithinCaps(EncodeManifest(accepted, state), 0) <==> ManifestFits(accepted, state)
  {
    hide SchemaFits, EncodeSchema, WithinCaps;
    var v, cs := EncodeManifest(accepted, state), EncodeSchemas(accepted);
    SlotsFit2(v);
    ListFits(cs, 0);
    DescriptorFits(state, 1);
    forall k | 0 <= k < |cs| ensures CellWithinCaps(cs[k], 1) <==> SchemaFits(accepted[k]) {
      DescriptorFits(accepted[k], 2);
    }
    assert CellsFit(cs, 1) <==> forall i :: 0 <= i < |accepted| ==> SchemaFits(accepted[i]) by {
      if CellsFit(cs, 1) {
        forall i | 0 <= i < |accepted| ensures SchemaFits(accepted[i]) {
          assert CellWithinCaps(cs[i], 1);
        }
      }
    }
  }

  lemma SlotsFit2(v: Value)
    requires |v.slots| == 2
    ensures WithinCaps(v, 0) <==>
            (v.slots[0].Some? ==> CellWithinCaps(v.slots[0].value, 0)) &&
            (v.slots[1].Some? ==> CellWithinCaps(v.slots[1].value, 0))
  {
    hide CellWithinCaps;
  }

  // ---- nothing to normalise ------------------------------------------------------------------

  predicate NoFloats(s: Schema) { forall i :: 0 <= i < |s.fields| ==> NoFloatsIn(s.fields[i].ty) }

  predicate NoFloatsIn(t: Type) {
    match t
    case FloatT => false
    case MessageT(s) => NoFloats(s)
    case ListT(e) => NoFloatsIn(e)
    case _ => true
  }

  /** Values of float-free schemas travel bit for bit. */
  lemma {:induction false} NothingToNormalise(v: Value, s: Schema)
    requires Instance(v, s) && NoFloats(s)
    ensures Norm(v) == v
    decreases v, 1
  {
    hide NormCell, CellInstance, NoFloatsIn;
    forall i | 0 <= i < |v.slots| ensures Norm(v).slots[i] == v.slots[i] {
      if v.slots[i].Some? {
        NothingToNormaliseIn(v.slots[i].value, s.fields[i].ty);
      }
    }
    assert Norm(v).slots == v.slots;
  }

  lemma {:induction false} NothingToNormaliseIn(c: Cell, t: Type)
    requires CellInstance(c, t) && NoFloatsIn(t)
    ensures NormCell(c) == c
    decreases c, 0
  {
    hide Norm, Instance, NoFloats;
    match c
    case MessageC(m) => NothingToNormalise(m.value, t.schema);
    case ListC(cs) =>
      forall k | 0 <= k < |cs| ensures NormCell(cs[k]) == cs[k] {
        NothingToNormaliseIn(cs[k], t.elem);
      }
      assert NormCell(c).cells == cs;
    case _ =>
  }

  lemma MetaHaveNoFloats()
    ensures NoFloats(DescSchema()) && NoFloats(ManifestSchema())
  {
    hide ContentId;
    assert NoFloats(TokenSchema());
    assert NoFloatsIn(MessageT(TokenSchema())) && NoFloatsIn(ListT(MessageT(TokenSchema())));
    assert NoFloats(FieldSchema());
    assert NoFloatsIn(MessageT(FieldSchema())) && NoFloatsIn(ListT(MessageT(FieldSchema())));
    assert NoFloats(DescSchema());
    assert NoFloatsIn(MessageT(DescSchema())) && NoFloatsIn(ListT(MessageT(DescSchema())));
  }

  // ---- there and back ------------------------------------------------------------------------------

  /** An instance of a float-free schema within the caps comes back from its bytes unchanged, and
      one outside them does not. */
  lemma ComesBack(v: Value, door: Schema, all: bool, ft: FloatText)
    requires Conforms(v, door) && Instance(v, door) && NoFloats(door) && |door.name| <= 0xFFFF && ValidUtf8(door.name)
    ensures Serialize(v).Some?
    ensures Admit(Parse(Serialize(v).value), door, all, ft) == Accepted(v) <==> WithinCaps(v, 0)
  {
    hide Conforms, WithinCaps, NoFloats, EncodeBody, DecodeBody, Admit, Parse, ValidUtf8, Header;
    assert EncodeBody(v).Some? by { DecodeOfBody(v, door, [], 0, []); }
    assert Norm(v) == v by { NothingToNormalise(v, door); }
    ByteIdentity.RoundTrip(v, door, all, ft);
  }

  lemma MetaNameFits(name: bytes)
    requires name == DESC || name == MANIFEST
    ensures |name| <= 0xFFFF && ValidUtf8(name)
  {
    hide ValidUtf8;
    JsonUtf8.AsciiIsValid(name);
  }

  /** The round trip of a schema: for every schema that fits, and every registry answering its
      references with equal content ids, the descriptor passes the gate, survives the bytes, and
      rebuilds the same name, version and fields with the same content id. */
  lemma SchemaRoundTrip(s: Schema, deps: Schemas, all: bool, ft: FloatText)
    requires Built(s) && SchemaFits(s) && AllAgree(s.fields, deps)
    ensures Serialize(EncodeSchema(s)).Some?
    ensures var a := Admit(Parse(Serialize(EncodeSchema(s)).value), DescSchema(), all, ft);
            && a == Accepted(EncodeSchema(s)) && Conforms(a.value, DescSchema())
            && AllResolvable(s.fields, deps)
            && DecodeSchema(a.value, deps) == Rebuilt(Schema(s.name, s.version, ResolvedFields(s.fields, deps), s.id))
            && SameFields(ResolvedFields(s.fields, deps), s.fields)
  {
    hide Conforms, WithinCaps, Admit, Parse, Serialize, SchemaFits, ValidUtf8, DecodeSchema, EncodeSchema,
         NoFloats, Instance;
    DescriptorConforms(s);
    DescriptorFits(s, 0);
    MetaHaveNoFloats();
    DescName();
    ComesBack(EncodeSchema(s), DescSchema(), all, ft);
    RebuiltKeepsId(s, deps);
    AgreedFields(s.fields, deps);
  }

  lemma DescName()
    ensures DescSchema().name == DESC && ManifestSchema().name == MANIFEST
    ensures |DESC| <= 0xFFFF && ValidUtf8(DESC) && |MANIFEST| <= 0xFFFF && ValidUtf8(MANIFEST)
  {
    hide ContentId, ValidUtf8;
    MetaNameFits(DESC);
    MetaNameFits(MANIFEST);
  }

  lemma AgreedFields(fs: seq<Field>, deps: Schemas)
    requires AllAgree(fs, deps) && AllResolvable(fs, deps)
    ensures SameFields(ResolvedFields(fs, deps), fs)
  {
    hide Shape, Resolved;
    forall i | 0 <= i < |fs| ensures SameField(ResolvedFields(fs, deps)[i], fs[i]) {
      AgreedStream(fs[i].ty, deps);
    }
  }

  // ---- manifests ----------------------------------------------------------------------------------------

  predicate DescCells(cs: seq<Cell>) { forall k :: 0 <= k < |cs| ==> CellConforms(cs[k], MessageT(DescSchema())) }

  /** Rebuilding a list of descriptors, each registered before the next is rebuilt. The registry
      after, and the schemas, or None at the first that cannot be rebuilt or registered. */
  function RebuildAll(cs: seq<Cell>, m: Schemas): (Schemas, Option<seq<Schema>>)
    requires DescCells(cs)
    decreases |cs|
  {
    if cs == [] then (m, Some([]))
    else
      match DecodeSchema(cs[0].msg.value, m)
      case Fails(_) => (m, None)
      case Rebuilt(s) =>
        if Register(m, s).Conflict? then (m, None)
        else
          var (n, rest) := RebuildAll(cs[1..], Publish(m, s));
          (n, if rest.None? then None else Some([s] + rest.value))
  }

  /** The schema part of reconstruct_and_cache: accept-set, then state schema. */
  function Reconstruct(v: Value, m: Schemas): (Schemas, Option<(seq<Schema>, Schema)>)
    requires Conforms(v, ManifestSchema())
  {
    FieldIsThere(v, ManifestSchema(), 0); FieldIsThere(v, ManifestSchema(), 1);
    var (n, accepted) := RebuildAll(Get(v, ACCEPTED).value.cells, m);
    if accepted.None? then (n, None)
    else
      match DecodeSchema(Get(v, STATE).value.msg.value, n)
      case Fails(_) => (n, None)
      case Rebuilt(s) =>
        if Register(n, s).Conflict? then (n, None) else (Publish(n, s), Some((accepted.value, s)))
  }

  /** Listed in dependency order: every reference of a schema is in the registry by the time it is
      rebuilt, with the content id it was built against, and no listed id is in conflict. */
  predicate InOrder(ss: seq<Schema>, m: Schemas)
    decreases |ss|
  {
    ss != [] ==>
      && AllAgree(ss[0].fields, m)
      && (KeyOf(ss[0]) in m ==> m[KeyOf(ss[0])].id == ss[0].id)
      && InOrder(ss[1..], Publish(m, RebuiltFrom(ss[0], m)))
  }

  function RebuiltFrom(s: Schema, m: Schemas): Schema {
    if AllResolvable(s.fields, m) then Schema(s.name, s.version, ResolvedFields(s.fields, m), s.id) else s
  }

  predicate Matches(r: Schema, s: Schema) {
    r.name == s.name && r.version == s.version && r.id == s.id && SameFields(r.fields, s.fields)
  }

  function AfterAll(ss: seq<Schema>, m: Schemas): Schemas
    decreases |ss|
  {
    if ss == [] then m else AfterAll(ss[1..], Publish(m, RebuiltFrom(ss[0], m)))
  }

  /** The first of a list in order rebuilds as itself and registers. */
  lemma FirstRebuilds(ss: seq<Schema>, m: Schemas)
    requires ss != [] && InOrder(ss, m) && Built(ss[0]) && Conforms(EncodeSchema(ss[0]), DescSchema())
    ensures var s := RebuiltFrom(ss[0], m);
            && DecodeSchema(EncodeSchema(ss[0]), m) == Rebuilt(s) && Register(m, s).Registered?
            && Matches(s, ss[0]) && InOrder(ss[1..], Publish(m, s))
  {
    hide Conforms, DecodeSchema, EncodeSchema, DescSchema, AllAgree, SameFields, ResolvedFields, Built, AllResolvable;
    RebuiltKeepsId(ss[0], m);
    AgreedFields(ss[0].fields, m);
  }

  lemma RebuildStep(ss: seq<Schema>, m: Schemas)
    requires ss != [] && InOrder(ss, m) && Built(ss[0])
    requires DescCells(EncodeSchemas(ss)) && DescCells(EncodeSchemas(ss[1..]))
    ensures var s := RebuiltFrom(ss[0], m); var (n, rest) := RebuildAll(EncodeSchemas(ss[1..]), Publish(m, s));
            && Matches(s, ss[0]) && InOrder(ss[1..], Publish(m, s))
            && RebuildAll(EncodeSchemas(ss), m) == (n, if rest.None? then None else Some([s] + rest.value))
  {
    hide Conforms, DecodeSchema, EncodeSchema, DescSchema, Built, RebuildAll, InOrder, RebuiltFrom, Matches,
         Register, Publish, DescCells;
    var cs := EncodeSchemas(ss);
    assert cs[0] == MessageC(Some(EncodeSchema(ss[0])));
    assert cs[1..] == EncodeSchemas(ss[1..]);
    RebuildAllUnfolds(cs, m);
    FirstRebuilds(ss, m);
  }

  lemma RebuildAllUnfolds(cs: seq<Cell>, m: Schemas)
    requires DescCells(cs) && cs != []
    ensures Conforms(cs[0].msg.value, DescSchema()) && DescCells(cs[1..])
    ensures RebuildAll(cs, m) ==
            var d := DecodeSchema(cs[0].msg.value, m);
            if d.Fails? || Register(m, d.value).Conflict? then (m, None)
            else
              var r := RebuildAll(cs[1..], Publish(m, d.value));
              (r.0, if r.1.None? then None else Some([d.value] + r.1.value))
  {
    hide Conforms, DecodeSchema, DescSchema, Register, Publish;
    assert CellConforms(cs[0], MessageT(DescSchema()));
  }

  lemma RebuildNothing(m: Schemas)
    ensures EncodeSchemas([]) == [] && DescCells([]) && RebuildAll([], m) == (m, Some([]))
  {
  }

  lemma {:induction false} RebuildOfAll(ss: seq<Schema>, m: Schemas)
    requires InOrder(ss, m) && forall i :: 0 <= i < |ss| ==> Built(ss[i])
    requires DescCells(EncodeSchemas(ss))
    ensures var (n, r) := RebuildAll(EncodeSchemas(ss), m);
            n == AfterAll(ss, m) && r.Some? && |r.value| == |ss| && forall i :: 0 <= i < |ss| ==> Matches(r.value[i], ss[i])
    decreases |ss|
  {
    hide RebuiltFrom, Matches, Built, DescCells, EncodeSchemas, InOrder, Publish, RebuildAll;
    if ss == [] {
      RebuildNothing(m);
    } else {
      var s := RebuiltFrom(ss[0], m);
      AllCells(ss[1..]);
      assert Built(ss[0]);
      RebuildStep(ss, m);
      RebuildOfAll(ss[1..], Publish(m, s));
      var rest := RebuildAll(EncodeSchemas(ss[1..]), Publish(m, s)).1.value;
      forall i | 0 <= i < |ss| ensures Matches(([s] + rest)[i], ss[i]) {
        if i > 0 {
          assert Matches(rest[i - 1], ss[1..][i - 1]);
        }
      }
    }
  }

  lemma ManifestReads(accepted: seq<Schema>, state: Schema)
    ensures var v := EncodeManifest(accepted, state);
            Get(v, ACCEPTED) == Some(ListC(EncodeSchemas(accepted))) && Get(v, STATE) == Some(MessageC(Some(EncodeSchema(state))))
  {
    hide ContentId, Get, CellConforms, FieldConforms, EncodeSchemas, EncodeSchema;
    MetaNames();
    var v := EncodeManifest(accepted, state);
    FieldIsSlot(v, 0);
    FieldIsSlot(v, 1);
  }

  /** The round trip of a manifest: listed in dependency order, every accepted schema and the state
      schema come out of the bytes with their names, versions, fields and content ids. */
  lemma ManifestRoundTrip(accepted: seq<Schema>, state: Schema, m: Schemas, all: bool, ft: FloatText)
    requires ManifestFits(accepted, state) && InOrder(accepted + [state], m)
    requires Built(state) && forall i :: 0 <= i < |accepted| ==> Built(accepted[i])
    ensures Serialize(EncodeManifest(accepted, state)).Some?
    ensures var a := Admit(Parse(Serialize(EncodeManifest(accepted, state)).value), ManifestSchema(), all, ft);
            && a == Accepted(EncodeManifest(accepted, state)) && Conforms(a.value, ManifestSchema())
            && var r := Reconstruct(a.value, m).1;
               && r.Some? && |r.value.0| == |accepted| && Matches(r.value.1, state)
               && forall i :: 0 <= i < |accepted| ==> Matches(r.value.0[i], accepted[i])
  {
    hide Conforms, WithinCaps, Admit, Parse, Serialize, ManifestFits, ValidUtf8, DecodeSchema, EncodeSchema, NoFloats,
         Instance, EncodeManifest, EncodeSchemas, Built, InOrder, RebuildAll, Get, Matches, RebuiltFrom;
    ManifestConforms(accepted, state);
    EncodedManifestFits(accepted, state);
    MetaHaveNoFloats();
    DescName();
    ComesBack(EncodeManifest(accepted, state), ManifestSchema(), all, ft);
    ManifestReads(accepted, state);
    OrderSplits(accepted, state, m);
    AllCells(accepted);
    RebuildOfAll(accepted, m);
    var n := RebuildAll(EncodeSchemas(accepted), m).0;
    StateRebuilds(state, n);
  }

  lemma AllCells(ss: seq<Schema>)
    ensures DescCells(EncodeSchemas(ss))
  {
    hide EncodeSchema, Conforms;
    forall k | 0 <= k < |ss| ensures CellConforms(EncodeSchemas(ss)[k], MessageT(DescSchema())) {
      DescriptorConforms(ss[k]);
    }
  }

  lemma {:induction false} OrderSplits(ss: seq<Schema>, last: Schema, m: Schemas)
    requires InOrder(ss + [last], m)
    ensures InOrder(ss, m) && AllAgree(last.fields, AfterAll(ss, m))
    ensures KeyOf(last) in AfterAll(ss, m) ==> AfterAll(ss, m)[KeyOf(last)].id == last.id
    decreases |ss|
  {
    hide AllAgree, RebuiltFrom;
    if ss == [] {
      assert ss + [last] == [last];
    } else {
      assert (ss + [last])[1..] == ss[1..] + [last];
      OrderSplits(ss[1..], last, Publish(m, RebuiltFrom(ss[0], m)));
    }
  }

  lemma StateRebuilds(s: Schema, m: Schemas)
    requires Built(s) && AllAgree(s.fields, m) && (KeyOf(s) in m ==> m[KeyOf(s)].id == s.id)
    ensures Conforms(EncodeSchema(s), DescSchema())
    ensures var r := DecodeSchema(EncodeSchema(s), m); r.Rebuilt? && Matches(r.value, s) && Register(m, r.value).Registered?
  {
    hide Conforms, EncodeSchema, DecodeSchema, AllAgree, Built, ResolvedFields, SameFields;
    DescriptorConforms(s);
    RebuiltKeepsId(s, m);
    AgreedFields(s.fields, m);
  }
}
