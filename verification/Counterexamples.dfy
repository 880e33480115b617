/** Inputs on which the code does not do what its documentation promises, each for a whole family
    that a theorem elsewhere delimits exactly. */
module Counterexamples {
  import opened Bytes
  import opened Model
  import opened Utf8
  import opened Wire
  import opened Gate
  import opened Native
  import opened Canonical
  import opened Compat
  import opened CompatDocs
  import opened CrossFormat
  import opened Admission
  import opened SchemaId
  import opened Registry
  import opened Grant
  import opened SchemaCodec
  import opened SchemaTransport
  import opened Descriptors
  import opened Framing
  import opened Libraries
  import opened Kernel
  import opened KernelRuns
  import opened KernelLeaks
  import AdmissionRun
  import B = Bus
  import BusRuns
  import ByteIdentity
  import C = Channel
  import JsonUtf8
  import S = Supervisor
  import SR = SupervisorRuns

  // ---- values that do not come back --------------------------------------------------------

  const SHARD_NAME: bytes := [0x53]
  const NOT_UTF8: bytes := [0xFF]

  function TextSchema(): Schema {
    var fs := [Field(SHARD_NAME, TextT, true)];
    Schema(SHARD_NAME, 1, fs, ContentId(SHARD_NAME, 1, fs))
  }

  function NotText(): Value { Value(TextSchema(), [Some(TextC(NOT_UTF8))]) }

  lemma NotTextHolds()
    ensures var v := NotText();
            && Built(TextSchema()) && WfSchema(TextSchema()) && Conforms(v, TextSchema()) && Instance(v, TextSchema())
            && !WithinCaps(v, 0) && !TextsAreUtf8(v)
  {
    hide ContentId;
    var v := NotText();
    SlotsConform(v);
    assert BuiltType(TextT);
    BuiltIsWf(TextSchema());
    OutsideCaps(v, 0);
  }

  /** A conforming value whose own serialization is refused, in either format: the gate and the
      writers take any octets as text, the readers only UTF-8. */
  lemma NotEveryValueComesBack(all: bool, ft: FloatText)
    ensures Conforms(NotText(), TextSchema()) && Serialize(NotText()).Some?
    ensures Admit(Parse(Serialize(NotText()).value), TextSchema(), all, ft).Rejected?
    ensures Faithful(ft) ==> Admit(CompatParse(CompatSerialize(NotText(), ft)), TextSchema(), all, ft).Rejected?
  {
    hide Admit, Parse, Conforms, Instance, WithinCaps, TextsAreUtf8, CompatParse, CompatSerialize, EncodeBody,
         DecodeBody, NotText, FitsJson, WfSchema, Built;
    NotTextHolds();
    assert Serialize(NotText()).Some? by { NotTextSerializes(); }
    ByteIdentity.RoundTrip(NotText(), TextSchema(), all, ft);
    if Faithful(ft) {
      CompatRoundTrip(NotText(), TextSchema(), all, ft);
    }
  }

  lemma NotTextSerializes()
    ensures Serialize(NotText()).Some?
  {
    hide ContentId, Instance, EncodeBody, DecodeBody;
    NotTextHolds();
    DecodeOfBody(NotText(), TextSchema(), [], 0, []);
  }

  function FlagsSchema(): Schema {
    var fs := [Field(SHARD_NAME, ListT(BoolT), true)];
    Schema(SHARD_NAME, 1, fs, ContentId(SHARD_NAME, 1, fs))
  }

  /** One element more than the native format carries. */
  function TooManyFlags(): Value {
    Value(FlagsSchema(), [Some(ListC(seq(MAX_LIST_COUNT + 1, i => BoolC(true))))])
  }

  lemma TooManyHolds()
    ensures var v := TooManyFlags();
            && WfSchema(FlagsSchema()) && Conforms(v, FlagsSchema()) && Instance(v, FlagsSchema())
            && !WithinCaps(v, 0) && TextsAreUtf8(v) && FitsJson(v, 0)
  {
    hide ContentId;
    var v := TooManyFlags();
    SlotsConform(v);
    assert WfType(ListT(BoolT));
    OutsideCaps(v, 0);
  }

  /** A value the JSON text carries and the native bytes do not: only they cap counts. */
  lemma OnlyJsonCarries(all: bool, ft: FloatText)
    requires Faithful(ft)
    ensures var v := TooManyFlags();
            && Serialize(v).Some? && Admit(Parse(Serialize(v).value), FlagsSchema(), all, ft).Rejected?
            && Admit(CompatParse(CompatSerialize(v, ft)), FlagsSchema(), all, ft).Accepted?
  {
    hide Admit, Parse, Serialize, Conforms, Instance, WithinCaps, TextsAreUtf8, CompatParse, CompatSerialize,
         TooManyFlags, FitsJson, WfSchema;
    TooManyHolds();
    FormatsAgree(TooManyFlags(), FlagsSchema(), all, ft);
    ByteIdentity.RoundTrip(TooManyFlags(), FlagsSchema(), all, ft);
    CompatRoundTrip(TooManyFlags(), FlagsSchema(), all, ft);
  }

  lemma OutsideCaps(v: Value, i: nat)
    requires i < |v.slots| && v.slots[i].Some? && !CellWithinCaps(v.slots[i].value, 0)
    ensures !WithinCaps(v, 0)
  {
  }

  // ---- descriptors that encoding does not give back -----------------------------------------------

  /** A descriptor with one field, whose type is written with one token. */
  function OneToken(tok: Value): Value {
    Value(DescSchema(), [Some(TextC(SHARD_NAME)), Some(IntC(1)), Some(ListC([MessageC(Some(OneField(tok)))]))])
  }

  function TokenOf(kind: i64, name: Option<Cell>, version: Option<Cell>): Value {
    Value(TokenSchema(), [Some(IntC(kind)), name, version])
  }

  lemma TokenOfConforms(kind: i64, name: Option<Cell>, version: Option<Cell>)
    requires (name.Some? ==> name.value.TextC?) && (version.Some? ==> version.value.IntC?)
    ensures var tok := TokenOf(kind, name, version);
            && Conforms(tok, TokenSchema()) && Get(tok, KIND) == Some(IntC(kind))
            && Get(tok, REF_NAME) == name && Get(tok, REF_VERSION) == version
  {
    hide ContentId, Get, FieldConforms;
    MetaNames();
    var tok := TokenOf(kind, name, version);
    SlotsConform(tok);
    FieldIsSlot(tok, 0);
    FieldIsSlot(tok, 1);
    FieldIsSlot(tok, 2);
  }

  function OneField(tok: Value): Value {
    Value(FieldSchema(), [Some(TextC(SHARD_NAME)), Some(BoolC(true)), Some(ListC([MessageC(Some(tok))]))])
  }

  function TypedSchema(t: Type): Schema {
    var fs := [Field(SHARD_NAME, t, true)];
    Schema(SHARD_NAME, 1, fs, ContentId(SHARD_NAME, 1, fs))
  }

  lemma OneFieldReads(tok: Value)
    requires Conforms(tok, TokenSchema())
    ensures var fd := OneField(tok);
            && Conforms(fd, FieldSchema()) && Get(fd, NAME) == Some(TextC(SHARD_NAME)) && Get(fd, REQUIRED) == Some(BoolC(true))
            && Get(fd, TYPE) == Some(ListC([MessageC(Some(tok))]))
  {
    hide ContentId, Get, FieldConforms, TokenSchema;
    MetaNames();
    var fd := OneField(tok);
    assert CellConforms(fd.slots[2].value, ListT(MessageT(TokenSchema())));
    SlotsConform(fd);
    FieldIsSlot(fd, 0);
    FieldIsSlot(fd, 1);
    FieldIsSlot(fd, 2);
  }

  lemma OneTokenReads(tok: Value)
    requires Conforms(tok, TokenSchema())
    ensures var d := OneToken(tok);
            && Conforms(d, DescSchema()) && Get(d, NAME) == Some(TextC(SHARD_NAME)) && Get(d, VERSION) == Some(IntC(1))
            && Get(d, FIELDS) == Some(ListC([MessageC(Some(OneField(tok)))]))
  {
    hide ContentId, Get, FieldConforms, FieldSchema, TokenSchema;
    MetaNames();
    OneFieldReads(tok);
    var d := OneToken(tok);
    assert CellConforms(d.slots[2].value, ListT(MessageT(FieldSchema())));
    SlotsConform(d);
    FieldIsSlot(d, 0);
    FieldIsSlot(d, 1);
    FieldIsSlot(d, 2);
  }

  lemma OneTokenRebuilds(tok: Value, t: Type, deps: Schemas)
    requires Conforms(tok, TokenSchema()) && Tokens([MessageC(Some(tok))])
    requires DecodeType([MessageC(Some(tok))], 0, deps) == Rebuilt((t, 1))
    ensures Conforms(OneToken(tok), DescSchema()) && DecodeSchema(OneToken(tok), deps) == Rebuilt(TypedSchema(t))
  {
    hide ContentId, Get, Conforms, DescSchema, FieldSchema, TokenSchema, DecodeType, OneToken, OneField,
         CheckedFields, RawOf;
    OneTokenReads(tok);
    OneFieldReads(tok);
    var fd := OneField(tok);
    var f := Field(SHARD_NAME, t, true);
    assert DecodeField(fd, deps) == Rebuilt(f);
    var cs := [MessageC(Some(fd))];
    assert cs[0].msg.value == fd && cs[1..] == [];
    assert SchemaCodec.DecodeFields(cs[1..], deps) == Rebuilt([]);
    assert [f] + [] == [f];
    assert SchemaCodec.DecodeFields(cs, deps) == Rebuilt([f]);
    CheckedFieldsIsExact(RawOf([f]), [f]);
  }

  lemma NotPlain(tok: Value)
    requires Conforms(tok, TokenSchema()) && !PlainToken(tok)
    ensures !PlainDescriptor(OneToken(tok))
  {
    hide ContentId, Get, Conforms, DescSchema, FieldSchema, TokenSchema, OneToken, OneField, PlainToken;
    OneTokenReads(tok);
    OneFieldReads(tok);
    var cs := [MessageC(Some(OneField(tok)))];
    assert !PlainTokens([MessageC(Some(tok))]) by { assert [MessageC(Some(tok))][0].msg.value == tok; }
    assert !PlainField(cs[0].msg.value);
    assert !PlainFields(cs);
  }

  /** A reference no scalar needs: the gate takes it, decoding passes over it, encoding drops it. */
  lemma StrayReference()
    ensures var d := OneToken(TokenOf(0, Some(TextC(SHARD_NAME)), None));
            && Conforms(d, DescSchema()) && DecodeSchema(d, map[]) == Rebuilt(TypedSchema(IntT))
            && EncodeSchema(TypedSchema(IntT)) != d
  {
    hide ContentId, Get, Conforms, DescSchema, FieldSchema, TokenSchema, DecodeSchema, TokenOf, OneToken,
         PlainDescriptor, EncodeSchema, Instance;
    var tok := TokenOf(0, Some(TextC(SHARD_NAME)), None);
    var cs := [MessageC(Some(tok))];
    TokenOfConforms(0, Some(TextC(SHARD_NAME)), None);
    assert DecodeType(cs, 0, map[]) == Rebuilt((IntT, 1));
    OneTokenRebuilds(tok, IntT, map[]);
    NotPlain(tok);
    EncodeOfSchema(OneToken(tok), map[]);
  }

  /** A reference to a version past 32 bits resolves to the schema of the version it is cut to. */
  lemma CutReference()
    ensures var d := OneToken(TokenOf(5, Some(TextC(SHARD_NAME)), Some(IntC(TWO_32 + 1))));
            var s := BareSchema(); var deps := map[KeyOf(s) := s];
            && Conforms(d, DescSchema()) && DecodeSchema(d, deps) == Rebuilt(TypedSchema(MessageT(s)))
            && EncodeSchema(TypedSchema(MessageT(s))) != d
  {
    hide ContentId, Get, Conforms, DescSchema, FieldSchema, TokenSchema, DecodeSchema, TokenOf, OneToken,
         PlainDescriptor, EncodeSchema, Instance;
    var name, version := Some(TextC(SHARD_NAME)), Some(IntC(TWO_32 + 1));
    var s := BareSchema();
    var deps := map[KeyOf(s) := s];
    var tok := TokenOf(5, name, version);
    var cs := [MessageC(Some(tok))];
    TokenOfConforms(5, name, version);
    assert DecodeType(cs, 0, deps) == Rebuilt((MessageT(s), 1));
    OneTokenRebuilds(tok, MessageT(s), deps);
    NotPlain(tok);
    EncodeOfSchema(OneToken(tok), deps);
  }

  /** A version past 32 bits, and a negative one, are cut to that of a schema. */
  lemma CutVersion(version: i64)
    requires version == TWO_32 + 1 || version == 1 - TWO_32
    ensures var d := EncodeSchema(BareSchema()); var e := d.(slots := d.slots[1 := Some(IntC(version))]);
            && Conforms(e, DescSchema()) && DecodeSchema(e, map[]) == Rebuilt(BareSchema())
            && EncodeSchema(BareSchema()) != e
  {
    hide ContentId, Conforms, DecodeSchema, DescSchema, SchemaCodec.EncodeFields;
    VersionsAreCut(BareSchema(), version, map[]);
    DecodeOfSchema(BareSchema(), map[]);
    assert ResolvedFields([], map[]) == [];
  }

  // ---- a run that leaks -----------------------------------------------------------------------

  /** A state schema without fields, its one value, and the manifest of a shard that keeps it. */
  function BareSchema(): Schema { Schema(SHARD_NAME, 1, [], ContentId(SHARD_NAME, 1, [])) }

  function BareManifest(): Option<bytes> { Serialize(EncodeManifest([], BareSchema())) }

  function BareState(): Option<bytes> { Serialize(Empty(BareSchema())) }

  function BareWorld(revives: bool): World { World(true, true, true, BareManifest(), BareState(), revives) }

  lemma BareIsBuilt()
    ensures Built(BareSchema()) && SchemaFits(BareSchema()) && ValidUtf8(SHARD_NAME) && NoFloats(BareSchema())
  {
    hide ContentId, ValidUtf8;
    JsonUtf8.AsciiIsValid(SHARD_NAME);
  }

  lemma BareIsFirst()
    ensures InOrder([] + [BareSchema()], map[]) && ManifestFits([], BareSchema())
  {
    hide ContentId;
    BareIsBuilt();
    assert ([] + [BareSchema()])[1..] == [];
  }

  lemma BareManifestComesBack()
    ensures BareManifest().Some? && Conforms(EncodeManifest([], BareSchema()), ManifestSchema())
    ensures B.AdmitBytes(BareManifest().value, ManifestSchema()) == Accepted(EncodeManifest([], BareSchema()))
  {
    hide Conforms, EncodeManifest, BareSchema, Admit, Parse, Serialize, Built, SchemaFits, Reconstruct, InOrder,
         ManifestFits;
    BareIsBuilt();
    BareIsFirst();
    ManifestRoundTrip([], BareSchema(), map[], false, B.NoFloatText());
  }

  /** The manifest rebuilds the bare schema and publishes it. */
  lemma BareRebuilds(m: Schemas)
    requires var s := BareSchema(); KeyOf(s) in m ==> m[KeyOf(s)].id == s.id
    ensures Rebuild(BareManifest(), m) == (Publish(m, BareSchema()), Some(([], BareSchema())))
  {
    hide Conforms, EncodeManifest, EncodeSchema, DecodeSchema, BareSchema, BareManifest, B.AdmitBytes, Built, Register, Publish, Get, DescSchema,
         ManifestSchema, Matches, EncodeSchemas;
    var s := BareSchema();
    BareManifestComesBack();
    BareReconstructs(m);
  }

  lemma BareReconstructs(m: Schemas)
    requires var s := BareSchema(); KeyOf(s) in m ==> m[KeyOf(s)].id == s.id
    requires Conforms(EncodeManifest([], BareSchema()), ManifestSchema())
    ensures Reconstruct(EncodeManifest([], BareSchema()), m) == (Publish(m, BareSchema()), Some(([], BareSchema())))
  {
    hide Conforms, EncodeManifest, EncodeSchema, DecodeSchema, BareSchema, Built, Get, DescSchema,
         ManifestSchema, Matches, EncodeSchemas, RebuildAll;
    var s := BareSchema();
    BareIsBuilt();
    ManifestReads([], s);
    RebuildNothing(m);
    NoFieldsAgree(m);
    StateRebuilds(s, m);
    NoFieldsMatch(DecodeSchema(EncodeSchema(s), m).value);
  }

  lemma NoFieldsAgree(m: Schemas)
    ensures AllAgree(BareSchema().fields, m)
  {
    hide ContentId;
  }

  lemma NoFieldsMatch(r: Schema)
    requires Matches(r, BareSchema())
    ensures r == BareSchema()
  {
    hide ContentId;
  }

  lemma BareStateComesBack()
    ensures BareState().Some? && Conforms(Empty(BareSchema()), BareSchema())
    ensures B.AdmitBytes(BareState().value, BareSchema()) == Accepted(Empty(BareSchema()))
  {
    hide ContentId, Admit, Parse, Serialize, ValidUtf8;
    BareIsBuilt();
    ComesBack(Empty(BareSchema()), BareSchema(), false, B.NoFloatText());
  }

  lemma BareRegisters(grant: seq<SendRule>)
    ensures var (b, id) := B.RegisterShard(B.NEW_BUS, [], Empty(BareSchema()), grant);
            && id == Some(1) && b.queue == [] && 1 in b.shards
            && b.shards[1].reloadsUsed == 0 && b.shards[1].stateSchema == BareSchema()
  {
    hide BareSchema, BareState, AdmitLive, Conforms;
    BareStateComesBack();
    AdmissionRun.LiveAdmits(Empty(BareSchema()), BareSchema(), false);
  }

  lemma BareEnrolls()
    ensures var s := BareSchema(); var (b, id, asked) := Enroll(B.NEW_BUS, [], s, BareState());
            && id == Some(1) && asked && 1 in b.shards && b.shards[1].stateSchema == s
  {
    hide BareSchema, BareState, B.AdmitBytes, B.RegisterShard, Empty;
    BareStateComesBack();
    BareRegisters(ALLOW_ANY);
  }

  lemma BareLoads()
    ensures var k := Load(NEW_KERNEL, SHARD_NAME, BareWorld(true)); var s := BareSchema();
            && k.libs == map[SHARD_NAME := Loaded(0, 1)] && k.adapters == map[1 := Adapter(SHARD_NAME, 0, 0, s)]
            && 1 in k.bus.shards && k.leaked == {} && k.handles == 1 && k.registry == Publish(map[], s)
  {
    hide BareSchema, BareManifest, BareState, Rebuild, Enroll, Publish, OpenAndKeep;
    BareRebuilds(map[]);
    BareEnrolls();
  }

  /** A run that leaks: a shard is loaded and then reloaded from the same library, whose revive
      throws. The name now runs the second copy; the first stays open and is never closed. */
  lemma ALeakingRun()
    ensures var k := Run(NEW_KERNEL, [DoLoad(SHARD_NAME, BareWorld(true)), DoReload(SHARD_NAME, BareWorld(false))]);
            && k.leaked == {0} && 0 in After(k.trace).open && 0 !in Handles(k.libs)
  {
    hide BareSchema, BareManifest, BareState, BusRuns.Inv, Load, ReloadFrom, Inv, Rebuild, SnapshotOf, Serialize;
    var ops := [DoLoad(SHARD_NAME, BareWorld(true)), DoReload(SHARD_NAME, BareWorld(false))];
    var k := Load(NEW_KERNEL, SHARD_NAME, BareWorld(true));
    BareLoads();
    NewKernelHolds();
    LoadKeeps(NEW_KERNEL, SHARD_NAME, BareWorld(true));
    BareThrows(k);
    ThrewWhen(k, SHARD_NAME, BareWorld(false));
    LeakStep(k, ops[1]);
    assert ops[1..] == [ops[1]] && [ops[1]][1..] == [];
    assert Run(k, ops[1..]) == Run(Apply(k, ops[1]), []) == Apply(k, ops[1]);
    assert Apply(NEW_KERNEL, ops[0]) == k;
    assert Run(NEW_KERNEL, ops) == Run(k, ops[1..]);
    assert Throws(k, ops[1]);
    NothingElseLeaks(ops);
  }

  lemma BareThrows(k: Kernel)
    requires var s := BareSchema();
             && k.libs == map[SHARD_NAME := Loaded(0, 1)] && k.adapters == map[1 := Adapter(SHARD_NAME, 0, 0, s)]
             && 1 in k.bus.shards && k.registry == Publish(map[], s)
    ensures Snapshots(k, SHARD_NAME, BareWorld(false)) && Replaces(k, SHARD_NAME, BareWorld(false))
  {
    hide BareSchema, BareManifest, B.AdmitBytes, Rebuild;
    BareStateComesBack();
    BareRebuilds(k.registry);
  }

  // ---- a quarantined shard that is alive on the bus ----------------------------------------------

  /** A policy that allows one revival. */
  function OneRevival(): Value { Value(B.PolicySchema(), [Some(IntC(1)), Some(BoolC(false))]) }

  lemma OneRevivalComesBack()
    ensures Conforms(OneRevival(), B.PolicySchema()) && B.PolicyOf(OneRevival()) == B.Policy(1, false)
    ensures Serialize(OneRevival()).Some? && B.AdmitBytes(Serialize(OneRevival()).value, B.PolicySchema()) == Accepted(OneRevival())
  {
    hide ContentId, Admit, Parse, Serialize, ValidUtf8, Get, CellConforms, FieldConforms;
    PolicyIsPlain();
    ComesBack(OneRevival(), B.PolicySchema(), false, B.NoFloatText());
    FieldIsSlot(OneRevival(), 0);
    FieldIsSlot(OneRevival(), 1);
  }

  lemma PolicyIsPlain()
    ensures var v, s := OneRevival(), B.PolicySchema();
            && NamedFields(s.fields) && NoFloats(s) && |s.name| <= 0xFFFF && ValidUtf8(s.name)
            && Conforms(v, s) && Instance(v, s) && WithinCaps(v, 0)
  {
    hide ContentId, ValidUtf8;
    JsonUtf8.AsciiIsValid(B.POLICY_NAME);
    SlotsConform(OneRevival());
  }

  // what the three parts of the handshake weigh

  lemma VarintOfSmall(n: nat)
    requires n < 0x80
    ensures |PutUvarint(n)| == 1
  {
  }

  lemma TwoFields(v: Value, c: nat)
    requires |v.schema.fields| == |v.slots| == 2 && v.slots[0].Some? && v.slots[1].Some?
    requires var a, b := EncodeCell(v.slots[0].value, v.schema.fields[0].ty), EncodeCell(v.slots[1].value, v.schema.fields[1].ty);
             a.Some? && b.Some? && |a.value| + |b.value| <= c
    ensures EncodeBody(v).Some? && |EncodeBody(v).value| <= c + 1
  {
    hide EncodeCell;
    assert Native.EncodeFields(v, 2) == Some([]);
    assert Native.EncodeFields(v, 1).Some?;
  }

  lemma ThreeFields(v: Value, c: nat)
    requires |v.schema.fields| == |v.slots| == 3 && v.slots[0].Some? && v.slots[1].Some? && v.slots[2].Some?
    requires var x, y := EncodeCell(v.slots[0].value, v.schema.fields[0].ty), EncodeCell(v.slots[1].value, v.schema.fields[1].ty);
             var z := EncodeCell(v.slots[2].value, v.schema.fields[2].ty);
             x.Some? && y.Some? && z.Some? && |x.value| + |y.value| + |z.value| <= c
    ensures EncodeBody(v).Some? && |EncodeBody(v).value| <= c + 1
  {
    hide EncodeCell;
    assert Native.EncodeFields(v, 3) == Some([]);
    assert Native.EncodeFields(v, 2).Some?;
    assert Native.EncodeFields(v, 1).Some?;
  }

  lemma HeaderSize(v: Value, c: nat)
    requires |v.schema.name| <= 100 && EncodeBody(v).Some? && |EncodeBody(v).value| <= c
    ensures Serialize(v).Some? && |Serialize(v).value| <= c + 200
  {
    hide EncodeBody, PutLE;
    Widths();
    var s, body := v.schema, EncodeBody(v).value;
  }

  lemma PolicySize()
    ensures Serialize(OneRevival()).Some? && |Serialize(OneRevival()).value| < TWO_32
  {
    hide ContentId, Serialize, PutUvarint, EncodeBody, Native.EncodeFields;
    VarintOfSmall(Zigzag(1));
    TwoFields(OneRevival(), 2);
    HeaderSize(OneRevival(), 3);
  }

  lemma BareStateSize()
    ensures BareState().Some? && |BareState().value| < TWO_32
  {
    hide ContentId, Serialize;
    HeaderSize(Empty(BareSchema()), 0);
  }

  lemma BareDescriptorSize()
    ensures EncodeBody(EncodeSchema(BareSchema())).Some? && |EncodeBody(EncodeSchema(BareSchema())).value| <= 5
  {
    hide ContentId, PutUvarint, EncodeBody, Native.EncodeFields;
    var v := EncodeSchema(BareSchema());
    VarintOfSmall(1);
    VarintOfSmall(Zigzag(1));
    VarintOfSmall(0);
    ThreeFields(v, 4);
  }

  lemma BareManifestSize()
    ensures BareManifest().Some? && |BareManifest().value| < TWO_32
  {
    hide ContentId, Serialize, PutUvarint, EncodeBody, Native.EncodeFields, BareSchema, EncodeSchema;
    var v := EncodeManifest([], BareSchema());
    VarintOfSmall(0);
    BareDescriptorSize();
    TwoFields(v, 6);
    HeaderSize(v, 7);
  }

  /** What the child says of itself. */
  function BareHello(): bytes {
    match (BareManifest(), Serialize(OneRevival()), BareState())
    case (Some(m), Some(p), Some(v)) => HelloPayload(m, p, v)
    case _ => []
  }

  lemma HelloComesBack()
    ensures BareManifest().Some? && BareState().Some? && Serialize(OneRevival()).Some?
    ensures ReadHello(BareHello()) == Some(Hello(BareManifest().value, Serialize(OneRevival()).value, BareState().value))
  {
    hide ReadHello, HelloPayload, BareManifest, BareState, OneRevival, Serialize;
    BareManifestSize();
    BareStateSize();
    PolicySize();
    HelloReadsBack(BareManifest().value, Serialize(OneRevival()).value, BareState().value);
  }

  lemma BareShakes()
    ensures BareState().Some?
    ensures S.Handshake(BareHello(), map[]).1 ==
            Some(([], BareSchema(), OneRevival(), Empty(BareSchema()), BareState().value))
  {
    hide ReadHello, BareHello, BareManifest, BareState, OneRevival, Serialize, BareSchema, B.AdmitBytes, Conforms, Reconstruct,
         EncodeManifest, B.PolicySchema, ManifestSchema;
    HelloComesBack();
    BareManifestComesBack();
    BareReconstructs(map[]);
    OneRevivalComesBack();
    BareStateComesBack();
  }

  /** The link of the child, fresh from its mount. */
  function BareLink(c: C.SoundChan): S.Link
    requires BareState().Some?
  {
    S.Link(SHARD_NAME, 1, BareSchema(), OneRevival(), Empty(BareSchema()), BareState().value, Some(c), false, false, false, 1, 1,
           BareState().value, [])
  }

  function BareMount(): S.HostOp { S.DoMount(SHARD_NAME, S.Child(C.NEW_CHAN, BareHello()), []) }

  predicate JustMounted(h: S.Host)
    requires BareState().Some?
  {
    && h.links == [BareLink(C.NEW_CHAN)] && h.bus.queue == []
    && 1 in h.bus.shards && h.bus.shards[1].reloadsUsed == 0
  }

  lemma BareMounts()
    ensures BareState().Some? && JustMounted(S.Mount(S.NEW_HOST, SHARD_NAME, S.Child(C.NEW_CHAN, BareHello()), []))
  {
    hide BareSchema, BareHello, BareState, OneRevival, S.Handshake, B.RegisterShard, Empty;
    BareShakes();
    BareRegisters([]);
  }

  /** The child hangs up, and no other can be started. */
  function HangUp(): S.Weather { S.Weather([], [C.Chunk([])], S.NoChild) }

  const HUNG_UP: C.SoundChan := C.Chan([], 0, [], false, true)

  lemma HangUpIsSeen(b: B.Bus)
    requires BareState().Some?
    ensures S.Exchange(b, BareLink(C.NEW_CHAN), HangUp()) == (b, BareLink(HUNG_UP))
  {
    hide BareSchema, BareState, OneRevival;
    assert C.Flush(C.NEW_CHAN, []) == C.NEW_CHAN;
    assert C.Fill(C.NEW_CHAN, [C.Chunk([])]) == HUNG_UP;
    assert Deframe([]) == Parsed([], [], true);
    assert C.Poll(C.NEW_CHAN, [C.Chunk([])]).0 == HUNG_UP;
  }

  lemma IdlePump(h: S.Host, l: S.Link)
    requires h.links == [l] && h.bus.queue == []
    ensures var m := S.OnBus(h, B.OpPump([])); m.links == [l] && m.bus.shards == h.bus.shards
  {
  }

  lemma TwoSteps(h: S.Host, first: S.HostOp, second: S.HostOp)
    requires S.Enabled(h, first) && S.Enabled(S.Apply(h, first), second)
    ensures S.IsRun(h, [first, second]) && S.Run(h, [first, second]) == S.Apply(S.Apply(h, first), second)
  {
    hide S.Apply, S.Enabled;
    assert [first, second][1..] == [second] && [second][1..] == [];
    var m := S.Apply(h, first);
    assert S.IsRun(S.Apply(m, second), []) && S.IsRun(m, [second]);
    assert S.Run(m, [second]) == S.Run(S.Apply(m, second), []) == S.Apply(m, second);
  }

  lemma NoLinksHold()
    ensures SR.HostInv(S.NEW_HOST)
  {
    hide BusRuns.Inv;
    BusRuns.NewIsReachable();
  }

  /** The loops of a step over a single link. */
  lemma OneExchange(h: S.Host, l: S.Link, w: S.Weather)
    requires h.links == [l]
    ensures var (b, m) := S.Exchange(h.bus, l, w); S.ExchangeAll(h, [w], 0) == h.(bus := b, links := [m])
  {
    hide S.Exchange;
    var (b, m) := S.Exchange(h.bus, l, w);
    assert h.links[0 := m] == [m];
  }

  lemma OneSupervise(h: S.Host, l: S.Link, w: S.Weather)
    requires h.links == [l]
    ensures var (b, m) := S.Supervise(h.bus, l, w.spawn); S.SuperviseAll(h, [w], 0) == h.(bus := b, links := [m])
  {
    hide S.Supervise;
    var (b, m) := S.Supervise(h.bus, l, w.spawn);
    assert h.links[0 := m] == [m];
  }

  /** One round of supervision of the link whose child hung up. */
  lemma HungUpIsQuarantined(b: B.Bus)
    requires BareState().Some? && SR.LinkInv(BareLink(HUNG_UP), SR.ViewOf(b, 1)) && 1 in b.shards && b.shards[1].reloadsUsed == 0
    ensures var (c, m) := S.Supervise(b, BareLink(HUNG_UP), S.NoChild);
            m.quarantined && m.id == 1 && 1 in c.shards && c.shards[1].alive
  {
    hide BareSchema, BareState, OneRevival, SR.LinkInv, SR.ViewOf, S.Recover, B.Kill, B.PolicyOf, SR.Deaths, Conforms;
    OneRevivalComesBack();
    SR.SuperviseDecides(b, BareLink(HUNG_UP), S.NoChild);
    SR.SupervisedIsSame(b, BareLink(HUNG_UP), S.NoChild);
  }

  /** The one link is quarantined, and its shard is alive on the bus. */
  predicate Hollow(h: S.Host) {
    && |h.links| == 1 && h.links[0].quarantined
    && h.links[0].id in h.bus.shards && h.bus.shards[h.links[0].id].alive
  }

  lemma OneStepQuarantines(h: S.Host)
    requires BareState().Some? && SR.HostInv(h) && JustMounted(h)
    ensures Hollow(S.StepHost(h, [HangUp()], []))
  {
    hide BareSchema, BareState, OneRevival, SR.HostInv, BusRuns.Inv, S.Exchange, S.Supervise, S.OnBus, SR.LinkInv,
         SR.ViewOf, S.ExchangeAll, S.SuperviseAll;
    var ws := [HangUp()];
    var m := BareLink(HUNG_UP);
    HangUpIsSeen(h.bus);
    OneExchange(h, BareLink(C.NEW_CHAN), HangUp());
    SR.ExchangeAllKeeps(h, ws, 0);
    var h1 := S.ExchangeAll(h, ws, 0);
    SR.OnBusKeeps(h1, B.OpPump([]));
    IdlePump(h1, m);
    var h2 := S.OnBus(h1, B.OpPump([]));
    SR.HostHas(h2, 0);
    HungUpIsQuarantined(h2.bus);
    OneSupervise(h2, m, HangUp());
  }

  /** A child with a revival left hangs up, and its successor cannot be started: the shard was
      revived on the bus before the spawn failed, so it stays alive there, behind a quarantined link
      that drops whatever is delivered to it. */
  lemma QuarantinedButAlive()
    ensures var ops := [BareMount(), S.DoStep([HangUp()], [])];
            && S.IsRun(S.NEW_HOST, ops)
            && Hollow(S.Run(S.NEW_HOST, ops))
  {
    hide BareSchema, BareState, OneRevival, SR.HostInv, BusRuns.Inv, BareLink, BareHello, S.Mount, S.StepHost,
         SR.LinkInv, SR.ViewOf, S.Run, S.IsRun;
    var ops := [BareMount(), S.DoStep([HangUp()], [])];
    var h := S.Apply(S.NEW_HOST, ops[0]);
    BareMounts();
    BusRuns.NewIsReachable();
    assert SR.HostInv(S.NEW_HOST) by { NoLinksHold(); }
    SR.ApplyKeeps(S.NEW_HOST, ops[0]);
    OneStepQuarantines(h);
    TwoSteps(S.NEW_HOST, ops[0], ops[1]);
  }

  // ---- a frame within the cap that never goes out --------------------------------------------------

  /** A payload of exactly the documented cap fails even an idle channel: the backlog cap counts
      the frame's five octets of header as well. */
  lemma CapIsNotReached()
    ensures var f := Frame(OP_DELIVER, seq(MAX_FRAME, i => 0)); |f.payload| == MAX_FRAME && C.Queue(C.NEW_CHAN, f).failed
  {
    hide C.Queue;
    C.QueueFits(C.NEW_CHAN, Frame(OP_DELIVER, seq(MAX_FRAME, i => 0)));
  }
}
