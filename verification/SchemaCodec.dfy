/** Schemas as values (include/zen/kernel/schema_codec.hpp): a schema is described by a value of a
    fixed meta-schema, travels as ordinary bytes, and is rebuilt against a registry. */
module SchemaCodec {
  import opened Bytes
  import opened Model
  import opened Utf8
  import opened Gate
  import opened Native
  import Hash
  import opened SchemaId
  import opened Registry

  // ---- the meta-schemas -----------------------------------------------------------------------

  const TOKEN: bytes := [0x7A, 0x65, 0x6E, 0x2E, 0x54, 0x79, 0x70, 0x65, 0x54, 0x6F, 0x6B, 0x65, 0x6E]
  const FIELD: bytes := [0x7A, 0x65, 0x6E, 0x2E, 0x46, 0x69, 0x65, 0x6C, 0x64]
  const DESC: bytes := [0x7A, 0x65, 0x6E, 0x2E, 0x53, 0x63, 0x68, 0x65, 0x6D, 0x61, 0x44, 0x65, 0x73, 0x63]
  const MANIFEST: bytes := [0x7A, 0x65, 0x6E, 0x2E, 0x4D, 0x61, 0x6E, 0x69, 0x66, 0x65, 0x73, 0x74]

  const KIND: bytes := [0x6B, 0x69, 0x6E, 0x64]
  const REF_NAME: bytes := [0x72, 0x65, 0x66, 0x5F, 0x6E, 0x61, 0x6D, 0x65]
  const REF_VERSION: bytes := [0x72, 0x65, 0x66, 0x5F, 0x76, 0x65, 0x72, 0x73, 0x69, 0x6F, 0x6E]
  const NAME: bytes := [0x6E, 0x61, 0x6D, 0x65]
  const REQUIRED: bytes := [0x72, 0x65, 0x71, 0x75, 0x69, 0x72, 0x65, 0x64]
  const TYPE: bytes := [0x74, 0x79, 0x70, 0x65]
  const VERSION: bytes := [0x76, 0x65, 0x72, 0x73, 0x69, 0x6F, 0x6E]
  const FIELDS: bytes := [0x66, 0x69, 0x65, 0x6C, 0x64, 0x73]
  const ACCEPTED: bytes := [0x61, 0x63, 0x63, 0x65, 0x70, 0x74, 0x65, 0x64]
  const STATE: bytes := [0x73, 0x74, 0x61, 0x74, 0x65]

  function Meta(name: bytes, fields: seq<Field>): Schema { Schema(name, 1, fields, ContentId(name, 1, fields)) }

  function TokenSchema(): Schema {
    Meta(TOKEN, [Field(KIND, IntT, true), Field(REF_NAME, TextT, false), Field(REF_VERSION, IntT, false)])
  }

  function FieldSchema(): Schema {
    Meta(FIELD, [Field(NAME, TextT, true), Field(REQUIRED, BoolT, true), Field(TYPE, ListT(MessageT(TokenSchema())), true)])
  }

  function DescSchema(): Schema {
    Meta(DESC, [Field(NAME, TextT, true), Field(VERSION, IntT, true), Field(FIELDS, ListT(MessageT(FieldSchema())), true)])
  }

  function ManifestSchema(): Schema {
    Meta(MANIFEST, [Field(ACCEPTED, ListT(MessageT(DescSchema())), true), Field(STATE, MessageT(DescSchema()), true)])
  }

  lemma MetaSchemasAreBuilt()
    ensures Built(TokenSchema()) && Built(FieldSchema()) && Built(DescSchema()) && Built(ManifestSchema())
  {
    hide ContentId;
    MetaNames();
    assert BuiltType(MessageT(TokenSchema())) && BuiltType(ListT(MessageT(TokenSchema())));
    assert BuiltType(MessageT(FieldSchema())) && BuiltType(ListT(MessageT(FieldSchema())));
    assert BuiltType(MessageT(DescSchema())) && BuiltType(ListT(MessageT(DescSchema())));
  }

  lemma MetaNames()
    ensures NamedFields(TokenSchema().fields) && NamedFields(FieldSchema().fields)
    ensures NamedFields(DescSchema().fields) && NamedFields(ManifestSchema().fields)
  {
    hide ContentId;
    assert NAME[0] != TYPE[0];
  }

  // ---- encoding -----------------------------------------------------------------------------------

  function Token(k: byte, ref: Option<Schema>): Value {
    Value(TokenSchema(),
          [Some(IntC(k)),
           if ref.Some? then Some(TextC(ref.value.name)) else None,
           if ref.Some? then Some(IntC(ref.value.version)) else None])
  }

  /** A type as a flat, prefix-order list of tokens. */
  function EncodeType(t: Type): (r: seq<Cell>)
    ensures r != []
  {
    match t
    case MessageT(s) => [MessageC(Some(Token(KindCode(t), Some(s))))]
    case ListT(e) => [MessageC(Some(Token(KindCode(t), None)))] + EncodeType(e)
    case _ => [MessageC(Some(Token(KindCode(t), None)))]
  }

  function EncodeField(f: Field): Value {
    Value(FieldSchema(), [Some(TextC(f.name)), Some(BoolC(f.required)), Some(ListC(EncodeType(f.ty)))])
  }

  function EncodeFields(fs: seq<Field>): seq<Cell> {
    seq(|fs|, i requires 0 <= i < |fs| => MessageC(Some(EncodeField(fs[i]))))
  }

  function EncodeSchema(s: Schema): Value {
    Value(DescSchema(), [Some(TextC(s.name)), Some(IntC(s.version)), Some(ListC(EncodeFields(s.fields)))])
  }

  function EncodeSchemas(ss: seq<Schema>): seq<Cell> {
    seq(|ss|, i requires 0 <= i < |ss| => MessageC(Some(EncodeSchema(ss[i]))))
  }

  function EncodeManifest(accepted: seq<Schema>, state: Schema): Value {
    Value(ManifestSchema(), [Some(ListC(EncodeSchemas(accepted))), Some(MessageC(Some(EncodeSchema(state))))])
  }

  // ---- decoding ---------------------------------------------------------------------------------------

  datatype CodecError =
    | Truncated | KindOutOfRange | MissingReference | Unresolved | TrailingTokens | Unbuildable

  datatype Rebuilt<+T> = Rebuilt(value: T) | Fails(why: CodecError)

  predicate Tokens(cs: seq<Cell>) { forall k :: 0 <= k < |cs| ==> CellConforms(cs[k], MessageT(TokenSchema())) }

  /** decode_type: the type at token i, and where the next token is. */
  function DecodeType(tokens: seq<Cell>, i: nat, deps: Schemas): (r: Rebuilt<(Type, nat)>)
    requires Tokens(tokens)
    ensures r.Rebuilt? ==> i < r.value.1 <= |tokens|
    decreases |tokens| - i
  {
    if i >= |tokens| then Fails(Truncated)
    else
      var tok := tokens[i].msg.value;
      FieldIsThere(tok, TokenSchema(), 0); FieldIsThere(tok, TokenSchema(), 1); FieldIsThere(tok, TokenSchema(), 2);
      var raw := Get(tok, KIND).value.i;
      if raw < 0 || raw > 6 then Fails(KindOutOfRange)
      else if raw == 5 then
        var name, version := Get(tok, REF_NAME), Get(tok, REF_VERSION);
        if name.None? || version.None? then Fails(MissingReference)
        else
          match Resolve(deps, name.value.text, version.value.i % TWO_32)
          case None => Fails(Unresolved)
          case Some(s) => Rebuilt((MessageT(s), i + 1))
      else if raw == 6 then
        match DecodeType(tokens, i + 1, deps)
        case Fails(e) => Fails(e)
        case Rebuilt((e, next)) => Rebuilt((ListT(e), next))
      else Rebuilt((ScalarOf(raw), i + 1))
  }

  function ScalarOf(code: int): Type
    requires 0 <= code <= 4
  {
    if code == 0 then IntT else if code == 1 then FloatT else if code == 2 then TextT else if code == 3 then BoolT else BytesT
  }

  function DecodeField(fd: Value, deps: Schemas): Rebuilt<Field>
    requires Conforms(fd, FieldSchema())
  {
    FieldIsThere(fd, FieldSchema(), 0); FieldIsThere(fd, FieldSchema(), 1); FieldIsThere(fd, FieldSchema(), 2);
    var tokens := Get(fd, TYPE).value.cells;
    match DecodeType(tokens, 0, deps)
    case Fails(e) => Fails(e)
    case Rebuilt((t, next)) =>
      if next != |tokens| then Fails(TrailingTokens)
      else Rebuilt(Field(Get(fd, NAME).value.text, t, Get(fd, REQUIRED).value.b))
  }

  predicate FieldCells(cs: seq<Cell>) { forall k :: 0 <= k < |cs| ==> CellConforms(cs[k], MessageT(FieldSchema())) }

  function DecodeFields(cs: seq<Cell>, deps: Schemas): Rebuilt<seq<Field>>
    requires FieldCells(cs)
    decreases |cs|
  {
    if cs == [] then Rebuilt([])
    else
      match DecodeField(cs[0].msg.value, deps)
      case Fails(e) => Fails(e)
      case Rebuilt(f) =>
        match DecodeFields(cs[1..], deps)
        case Fails(e) => Fails(e)
        case Rebuilt(fs) => Rebuilt([f] + fs)
  }

  /** decode_schema, of a descriptor that passed the gate. */
  function DecodeSchema(desc: Value, deps: Schemas): Rebuilt<Schema>
    requires Conforms(desc, DescSchema())
  {
    FieldIsThere(desc, DescSchema(), 0); FieldIsThere(desc, DescSchema(), 1); FieldIsThere(desc, DescSchema(), 2);
    match DecodeFields(Get(desc, FIELDS).value.cells, deps)
    case Fails(e) => Fails(e)
    case Rebuilt(fs) =>
      match MakeSchema(Get(desc, NAME).value.text, Get(desc, VERSION).value.i % TWO_32, RawOf(fs))
      case None => Fails(Unbuildable)
      case Some(s) => Rebuilt(s)
  }

  // ---- descriptors pass the gate --------------------------------------------------------------------

  /** A value of the door itself conforms slot by slot. */
  lemma SlotsConform(v: Value)
    requires NamedFields(v.schema.fields) && |v.slots| == |v.schema.fields|
    requires forall i :: 0 <= i < |v.slots| ==>
               if v.slots[i].Some? then CellConforms(v.slots[i].value, v.schema.fields[i].ty) else !v.schema.fields[i].required
    ensures Conforms(v, v.schema)
  {
    hide CellConforms, FieldConforms;
    forall i | 0 <= i < |v.schema.fields| ensures FieldConforms(v, v.schema.fields[i]) {
      FieldIsSlot(v, i);
    }
  }

  lemma TokenConforms(k: byte, ref: Option<Schema>)
    ensures Conforms(Token(k, ref), TokenSchema()) && Instance(Token(k, ref), TokenSchema())
  {
    hide ContentId;
    MetaNames();
    SlotsConform(Token(k, ref));
  }

  lemma {:induction false} TypeConforms(t: Type)
    ensures Tokens(EncodeType(t))
    ensures forall k :: 0 <= k < |EncodeType(t)| ==> CellInstance(EncodeType(t)[k], MessageT(TokenSchema()))
  {
    hide TokenSchema, Conforms, Instance;
    match t
    case MessageT(s) => TokenConforms(KindCode(t), Some(s));
    case ListT(e) =>
      TokenConforms(KindCode(t), None);
      TypeConforms(e);
    case _ => TokenConforms(KindCode(t), None);
  }

  lemma FieldConformsToMeta(f: Field)
    ensures Conforms(EncodeField(f), FieldSchema()) && Instance(EncodeField(f), FieldSchema())
  {
    hide ContentId, EncodeType;
    MetaNames();
    TypeConforms(f.ty);
    SlotsConform(EncodeField(f));
  }

  /** A schema's descriptor passes the gate of the meta-schema. */
  lemma DescriptorConforms(s: Schema)
    ensures Conforms(EncodeSchema(s), DescSchema()) && Instance(EncodeSchema(s), DescSchema())
    ensures FieldCells(EncodeFields(s.fields))
  {
    hide ContentId, EncodeField;
    MetaNames();
    var cs := EncodeFields(s.fields);
    forall k | 0 <= k < |cs| ensures CellConforms(cs[k], MessageT(FieldSchema())) && CellInstance(cs[k], MessageT(FieldSchema())) {
      FieldConformsToMeta(s.fields[k]);
    }
    SlotsConform(EncodeSchema(s));
  }

  lemma ManifestConforms(accepted: seq<Schema>, state: Schema)
    ensures Conforms(EncodeManifest(accepted, state), ManifestSchema()) && Instance(EncodeManifest(accepted, state), ManifestSchema())
  {
    hide ContentId, EncodeSchema;
    MetaNames();
    var cs := EncodeSchemas(accepted);
    forall k | 0 <= k < |cs| ensures CellConforms(cs[k], MessageT(DescSchema())) && CellInstance(cs[k], MessageT(DescSchema())) {
      DescriptorConforms(accepted[k]);
    }
    DescriptorConforms(state);
    SlotsConform(EncodeManifest(accepted, state));
  }

  // ---- decoding an encoding -------------------------------------------------------------------------------

  /** The references of a type all resolve. */
  predicate Resolvable(t: Type, deps: Schemas) {
    match t
    case MessageT(s) => KeyOf(s) in deps
    case ListT(e) => Resolvable(e, deps)
    case _ => true
  }

  /** The type with its reference replaced by the registry's schema of that name and version. */
  function Resolved(t: Type, deps: Schemas): Type
    requires Resolvable(t, deps)
  {
    match t
    case MessageT(s) => MessageT(deps[KeyOf(s)])
    case ListT(e) => ListT(Resolved(e, deps))
    case _ => t
  }

  lemma TokenReads(k: byte, ref: Option<Schema>)
    ensures var tok := Token(k, ref);
            && Get(tok, KIND) == Some(IntC(k))
            && Get(tok, REF_NAME) == (if ref.Some? then Some(TextC(ref.value.name)) else None)
            && Get(tok, REF_VERSION) == (if ref.Some? then Some(IntC(ref.value.version)) else None)
  {
    hide ContentId, Get, CellConforms, FieldConforms;
    MetaNames();
    var tok := Token(k, ref);
    FieldIsSlot(tok, 0);
    FieldIsSlot(tok, 1);
    FieldIsSlot(tok, 2);
  }

  /** The tokens of a type, wherever they stand, are read as that type and no further, exactly
      when its reference resolves. */
  lemma {:induction false} DecodeOfType(t: Type, pre: seq<Cell>, post: seq<Cell>, deps: Schemas)
    requires Tokens(pre + (EncodeType(t) + post))
    ensures DecodeType(pre + (EncodeType(t) + post), |pre|, deps) ==
            if Resolvable(t, deps) then Rebuilt((Resolved(t, deps), |pre| + |EncodeType(t)|)) else Fails(Unresolved)
    decreases t
  {
    hide TokenSchema, Token, Get, Conforms;
    var tokens := pre + (EncodeType(t) + post);
    var ref := if t.MessageT? then Some(t.schema) else None;
    assert tokens[|pre|] == EncodeType(t)[0] == MessageC(Some(Token(KindCode(t), ref)));
    TokenReads(KindCode(t), ref);
    if t.ListT? {
      var first := [EncodeType(t)[0]];
      assert tokens == (pre + first) + (EncodeType(t.elem) + post);
      DecodeOfType(t.elem, pre + first, post, deps);
    }
  }

  lemma DecodeOfField(f: Field, deps: Schemas)
    requires Conforms(EncodeField(f), FieldSchema())
    ensures DecodeField(EncodeField(f), deps) ==
            if Resolvable(f.ty, deps) then Rebuilt(Field(f.name, Resolved(f.ty, deps), f.required)) else Fails(Unresolved)
  {
    var tokens := EncodeType(f.ty);
    TypeConforms(f.ty);
    assert [] + (tokens + []) == tokens;
    DecodeOfType(f.ty, [], [], deps);
    FieldReads(f);
    hide FieldSchema, EncodeField, EncodeType, Get, Conforms, DecodeType;
  }

  lemma FieldReads(f: Field)
    ensures var fd := EncodeField(f);
            && Get(fd, NAME) == Some(TextC(f.name)) && Get(fd, REQUIRED) == Some(BoolC(f.required))
            && Get(fd, TYPE) == Some(ListC(EncodeType(f.ty)))
  {
    hide ContentId, Get, CellConforms, FieldConforms, EncodeType;
    MetaNames();
    var fd := EncodeField(f);
    FieldIsSlot(fd, 0);
    FieldIsSlot(fd, 1);
    FieldIsSlot(fd, 2);
  }

  lemma DescriptorReads(s: Schema)
    ensures var d := EncodeSchema(s);
            && Get(d, NAME) == Some(TextC(s.name)) && Get(d, VERSION) == Some(IntC(s.version))
            && Get(d, FIELDS) == Some(ListC(EncodeFields(s.fields)))
  {
    hide ContentId, Get, CellConforms, FieldConforms, EncodeFields;
    MetaNames();
    var d := EncodeSchema(s);
    FieldIsSlot(d, 0);
    FieldIsSlot(d, 1);
    FieldIsSlot(d, 2);
  }

  predicate AllResolvable(fs: seq<Field>, deps: Schemas) { forall i :: 0 <= i < |fs| ==> Resolvable(fs[i].ty, deps) }

  function ResolvedFields(fs: seq<Field>, deps: Schemas): seq<Field>
    requires AllResolvable(fs, deps)
  {
    seq(|fs|, i requires 0 <= i < |fs| => Field(fs[i].name, Resolved(fs[i].ty, deps), fs[i].required))
  }

  lemma {:induction false} DecodeOfFields(fs: seq<Field>, deps: Schemas)
    requires FieldCells(EncodeFields(fs))
    ensures DecodeFields(EncodeFields(fs), deps) ==
            if AllResolvable(fs, deps) then Rebuilt(ResolvedFields(fs, deps)) else Fails(Unresolved)
  {
    hide DecodeField, EncodeField, FieldSchema, Resolved, Resolvable, Conforms;
    var cs := EncodeFields(fs);
    if fs == [] {
      assert cs == [] && ResolvedFields(fs, deps) == [];
    } else {
      assert cs[0] == MessageC(Some(EncodeField(fs[0]))) && CellConforms(cs[0], MessageT(FieldSchema()));
      assert cs[1..] == EncodeFields(fs[1..]);
      DecodeOfField(fs[0], deps);
      DecodeOfFields(fs[1..], deps);
      assert AllResolvable(fs, deps) <==> Resolvable(fs[0].ty, deps) && AllResolvable(fs[1..], deps) by {
        assert forall i :: 0 < i < |fs| ==> fs[i] == fs[1..][i - 1];
      }
      if AllResolvable(fs, deps) {
        assert ResolvedFields(fs, deps) ==
               [Field(fs[0].name, Resolved(fs[0].ty, deps), fs[0].required)] + ResolvedFields(fs[1..], deps);
      }
    }
  }

  /** Decoding a schema's descriptor rebuilds its name, version and fields, with each reference
      answered by the registry, exactly when every reference resolves. */
  lemma DecodeOfSchema(s: Schema, deps: Schemas)
    requires Conforms(EncodeSchema(s), DescSchema()) && NamedFields(s.fields)
    ensures DecodeSchema(EncodeSchema(s), deps) ==
            if AllResolvable(s.fields, deps) then
              var fs := ResolvedFields(s.fields, deps);
              Rebuilt(Schema(s.name, s.version, fs, ContentId(s.name, s.version, fs)))
            else Fails(Unresolved)
  {
    hide ContentId, EncodeFields, Get, Conforms, DecodeFields, CheckedFields, RawOf, Resolvable, Resolved;
    assert FieldCells(EncodeFields(s.fields)) by { DescriptorConforms(s); }
    DescriptorReads(s);
    DecodeOfFields(s.fields, deps);
    if AllResolvable(s.fields, deps) {
      var fs := ResolvedFields(s.fields, deps);
      assert NamedFields(fs);
      CheckedFieldsIsExact(RawOf(fs), fs);
    }
  }

  /** Every reference resolves to a schema of the same content id. */
  predicate Agrees(t: Type, deps: Schemas) {
    match t
    case MessageT(s) => KeyOf(s) in deps && deps[KeyOf(s)].id == s.id
    case ListT(e) => Agrees(e, deps)
    case _ => true
  }

  predicate AllAgree(fs: seq<Field>, deps: Schemas) { forall i :: 0 <= i < |fs| ==> Agrees(fs[i].ty, deps) }

  lemma {:induction false} AgreedStream(t: Type, deps: Schemas)
    requires Agrees(t, deps)
    ensures Resolvable(t, deps) && TypeStream(Resolved(t, deps)) == TypeStream(t) && Shape(Resolved(t, deps)) == Shape(t)
  {
    match t
    case ListT(e) => AgreedStream(e, deps);
    case _ =>
  }

  lemma {:induction false} AgreedFieldsStream(fs: seq<Field>, deps: Schemas)
    requires AllAgree(fs, deps)
    ensures AllResolvable(fs, deps) && FieldsStream(ResolvedFields(fs, deps)) == FieldsStream(fs)
  {
    hide TypeStream, Shape, Agrees, NameStream;
    forall i | 0 <= i < |fs| ensures Resolvable(fs[i].ty, deps) {
      AgreedStream(fs[i].ty, deps);
    }
    if fs != [] {
      AgreedStream(fs[0].ty, deps);
      assert AllAgree(fs[1..], deps) by {
        assert forall i :: 0 <= i < |fs| - 1 ==> fs[1..][i] == fs[i + 1];
      }
      AgreedFieldsStream(fs[1..], deps);
      assert ResolvedFields(fs, deps)[1..] == ResolvedFields(fs[1..], deps);
    }
  }

  /** When references resolve to equal content ids, the rebuilt schema has the content id of the
      schema described. */
  lemma RebuiltKeepsId(s: Schema, deps: Schemas)
    requires Built(s) && AllAgree(s.fields, deps) && Conforms(EncodeSchema(s), DescSchema())
    ensures AllResolvable(s.fields, deps)
    ensures DecodeSchema(EncodeSchema(s), deps) == Rebuilt(Schema(s.name, s.version, ResolvedFields(s.fields, deps), s.id))
  {
    hide FieldsStream, Conforms, AllAgree, AllResolvable, ResolvedFields, NameStream, Hash.Digest;
    AgreedFieldsStream(s.fields, deps);
    DecodeOfSchema(s, deps);
    assert |ResolvedFields(s.fields, deps)| == |s.fields| by { ResolvedLength(s.fields, deps); }
  }

  lemma ResolvedLength(fs: seq<Field>, deps: Schemas)
    requires AllResolvable(fs, deps)
    ensures |ResolvedFields(fs, deps)| == |fs|
  {
  }

  /** Every descriptor that differs from a schema's only in its version, by a multiple of 2^32
      either way, rebuilds what that one rebuilds: decoding cuts the version to 32 bits, so
      descriptors are not determined by the schemas they rebuild. */
  lemma VersionsAreCut(s: Schema, version: i64, deps: Schemas)
    requires NamedFields(s.fields) && version % TWO_32 == s.version
    ensures var d := EncodeSchema(s); var e := d.(slots := d.slots[1 := Some(IntC(version))]);
            && Conforms(d, DescSchema()) && Conforms(e, DescSchema())
            && DecodeSchema(e, deps) == DecodeSchema(d, deps)
            && (AllResolvable(s.fields, deps) && version != s.version ==>
                  DecodeSchema(e, deps).Rebuilt? && EncodeSchema(DecodeSchema(e, deps).value) != e)
  {
    hide ContentId, EncodeFields, DecodeFields, MakeSchema, Get, FieldConforms, CellConforms, FieldSchema;
    var d := EncodeSchema(s);
    var e := d.(slots := d.slots[1 := Some(IntC(version))]);
    MetaNames();
    assert Conforms(d, DescSchema()) by { DescriptorConforms(s); }
    DescriptorReads(s);
    FieldIsSlot(e, 0);
    FieldIsSlot(e, 1);
    FieldIsSlot(e, 2);
    Swapped(d, e);
    DecodeOfSchema(s, deps);
  }

  lemma Swapped(d: Value, e: Value)
    requires d.schema == DescSchema() == e.schema && |d.slots| == 3 && |e.slots| == 3 && Conforms(d, DescSchema())
    requires d.slots[0] == e.slots[0] && d.slots[2] == e.slots[2]
    requires e.slots[1].Some? && e.slots[1].value.IntC?
    ensures Conforms(e, DescSchema())
  {
    hide ContentId, FieldSchema;
    MetaNames();
    FieldIsSlot(d, 0);
    FieldIsSlot(d, 2);
    assert FieldConforms(d, DescSchema().fields[0]) && FieldConforms(d, DescSchema().fields[2]);
    SlotsConform(e);
  }
}
