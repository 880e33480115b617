/** When encoding undoes decoding (include/zen/kernel/schema_codec.hpp): decoding cuts versions to
    32 bits and never looks at the reference of a token that needs none. */
module Descriptors {
  import opened Bytes
  import opened Model
  import opened Gate
  import opened Wire
  import opened Compat
  import opened Admission
  import N = Native
  import opened SchemaId
  import opened Registry
  import opened SchemaCodec
  import opened SchemaTransport
  import AdmissionRun
  import ByteIdentity
  import Canonical

  // ---- descriptors that say nothing twice -----------------------------------------------------

  predicate FitsU32(c: Option<Cell>) { c.Some? && c.value.IntC? && 0 <= c.value.i < TWO_32 }

  /** A Message token refers to a version of 32 bits; any other token refers to nothing. */
  predicate PlainToken(tok: Value) {
    if Get(tok, KIND) == Some(IntC(5)) then FitsU32(Get(tok, REF_VERSION))
    else Get(tok, REF_NAME).None? && Get(tok, REF_VERSION).None?
  }

  predicate PlainTokens(cs: seq<Cell>) {
    forall k :: 0 <= k < |cs| && cs[k].MessageC? && cs[k].msg.Some? ==> PlainToken(cs[k].msg.value)
  }

  predicate PlainField(fd: Value) {
    var tokens := Get(fd, TYPE);
    tokens.Some? && tokens.value.ListC? ==> PlainTokens(tokens.value.cells)
  }

  predicate PlainFields(cs: seq<Cell>) {
    forall k :: 0 <= k < |cs| && cs[k].MessageC? && cs[k].msg.Some? ==> PlainField(cs[k].msg.value)
  }

  /** The descriptor's version is one of 32 bits, and every token of every field is plain. */
  predicate PlainDescriptor(d: Value) {
    var fields := Get(d, FIELDS);
    FitsU32(Get(d, VERSION)) && (fields.Some? && fields.value.ListC? ==> PlainFields(fields.value.cells))
  }

  // ---- tokens -----------------------------------------------------------------------------------

  predicate TokenCells(cs: seq<Cell>) { forall k :: 0 <= k < |cs| ==> N.CellInstance(cs[k], MessageT(TokenSchema())) }

  /** What a token of the very schema holds. */
  lemma TokenSlots(tok: Value)
    requires Conforms(tok, TokenSchema()) && N.Instance(tok, TokenSchema())
    ensures |tok.slots| == 3 && tok == Value(TokenSchema(), [Get(tok, KIND), Get(tok, REF_NAME), Get(tok, REF_VERSION)])
    ensures Get(tok, KIND).Some? && Get(tok, KIND).value.IntC?
    ensures Get(tok, REF_NAME).Some? ==> Get(tok, REF_NAME).value.TextC?
    ensures Get(tok, REF_VERSION).Some? ==> Get(tok, REF_VERSION).value.IntC?
  {
    hide ContentId, Get, FieldConforms;
    MetaNames();
    FieldIsSlot(tok, 0);
    FieldIsSlot(tok, 1);
    FieldIsSlot(tok, 2);
    FieldIsThere(tok, TokenSchema(), 0);
    FieldIsThere(tok, TokenSchema(), 1);
    FieldIsThere(tok, TokenSchema(), 2);
    assert tok.slots == [tok.slots[0], tok.slots[1], tok.slots[2]];
  }

  /** A token is the one its reading is encoded as exactly when it is plain. */
  lemma TokenIsEncoding(tok: Value, k: byte, ref: Option<Schema>)
    requires Conforms(tok, TokenSchema()) && N.Instance(tok, TokenSchema()) && Get(tok, KIND) == Some(IntC(k))
    requires ref.Some? <==> k == 5
    requires ref.Some? ==>
               && Get(tok, REF_NAME) == Some(TextC(ref.value.name))
               && Get(tok, REF_VERSION).Some? && Get(tok, REF_VERSION).value.IntC?
               && Get(tok, REF_VERSION).value.i % TWO_32 == ref.value.version
    ensures tok == Token(k, ref) <==> PlainToken(tok)
  {
    hide Get, Conforms, N.Instance, TokenSchema;
    TokenSlots(tok);
    TokenReads(k, ref);
  }

  // ---- types --------------------------------------------------------------------------------------

  /** What one step of decode_type does. */
  lemma DecodeTypeStep(tokens: seq<Cell>, i: nat, deps: Schemas)
    requires Tokens(tokens) && DecodeType(tokens, i, deps).Rebuilt?
    ensures i < |tokens| && Conforms(tokens[i].msg.value, TokenSchema())
    ensures var tok := tokens[i].msg.value; var (t, next) := DecodeType(tokens, i, deps).value;
            && Get(tok, KIND) == Some(IntC(KindCode(t)))
            && (t.MessageT? ==>
                  && next == i + 1
                  && Get(tok, REF_NAME).Some? && Get(tok, REF_NAME).value.TextC?
                  && Get(tok, REF_VERSION).Some? && Get(tok, REF_VERSION).value.IntC?
                  && Resolve(deps, Get(tok, REF_NAME).value.text, Get(tok, REF_VERSION).value.i % TWO_32) == Some(t.schema))
            && (t.ListT? ==> DecodeType(tokens, i + 1, deps) == Rebuilt((t.elem, next)))
            && (!t.MessageT? && !t.ListT? ==> next == i + 1)
  {
    hide Get, TokenSchema, Conforms, Resolve;
    var tok := tokens[i].msg.value;
    assert CellConforms(tokens[i], MessageT(TokenSchema()));
    TokenFieldsThere(tok);
  }

  lemma TokenFieldsThere(tok: Value)
    requires Conforms(tok, TokenSchema())
    ensures Get(tok, KIND).Some? && Get(tok, KIND).value.IntC?
    ensures Get(tok, REF_NAME).Some? ==> Get(tok, REF_NAME).value.TextC?
    ensures Get(tok, REF_VERSION).Some? ==> Get(tok, REF_VERSION).value.IntC?
  {
    hide ContentId, Get, Conforms;
    FieldIsThere(tok, TokenSchema(), 0);
    FieldIsThere(tok, TokenSchema(), 1);
    FieldIsThere(tok, TokenSchema(), 2);
  }

  /** The tokens read as a type are its encoding exactly when they are plain. */
  lemma {:induction false} EncodeOfType(tokens: seq<Cell>, i: nat, deps: Schemas)
    requires Tokens(tokens) && TokenCells(tokens) && Keyed(deps) && DecodeType(tokens, i, deps).Rebuilt?
    ensures var (t, next) := DecodeType(tokens, i, deps).value;
            && |EncodeType(t)| == next - i
            && (EncodeType(t) == tokens[i..next] <==> PlainTokens(tokens[i..next]))
    decreases |tokens| - i
  {
    hide Get, TokenSchema, Conforms, N.Instance, Token, DecodeType, PlainToken, Resolve;
    DecodeTypeStep(tokens, i, deps);
    var (t, next) := DecodeType(tokens, i, deps).value;
    var tok := tokens[i].msg.value;
    assert N.CellInstance(tokens[i], MessageT(TokenSchema()));
    var ref := if t.MessageT? then Some(t.schema) else None;
    if t.MessageT? {
      ResolvedIsKeyed(deps, Get(tok, REF_NAME).value.text, Get(tok, REF_VERSION).value.i % TWO_32);
    }
    TokenIsEncoding(tok, KindCode(t), ref);
    var head := [MessageC(Some(Token(KindCode(t), ref)))];
    if t.ListT? {
      EncodeOfType(tokens, i + 1, deps);
      assert tokens[i..next] == [tokens[i]] + tokens[i + 1..next];
      PlainSplits(tokens[i], tokens[i + 1..next]);
      assert EncodeType(t) == head + EncodeType(t.elem);
      HeadAndTail(head[0], EncodeType(t.elem), tokens[i], tokens[i + 1..next]);
    } else {
      assert EncodeType(t) == head;
      assert tokens[i..next] == [tokens[i]];
    }
  }

  lemma PlainSplits(c: Cell, cs: seq<Cell>)
    requires c.MessageC? && c.msg.Some?
    ensures PlainTokens([c] + cs) <==> PlainToken(c.msg.value) && PlainTokens(cs)
  {
    hide PlainToken;
    assert ([c] + cs)[0] == c && forall k :: 0 <= k < |cs| ==> ([c] + cs)[k + 1] == cs[k];
  }

  lemma HeadAndTail(c: Cell, cs: seq<Cell>, d: Cell, ds: seq<Cell>)
    ensures [c] + cs == [d] + ds <==> c == d && cs == ds
  {
    assert ([c] + cs)[0] == c && ([c] + cs)[1..] == cs && ([d] + ds)[0] == d && ([d] + ds)[1..] == ds;
  }

  lemma ResolvedIsKeyed(deps: Schemas, name: bytes, version: u32)
    requires Keyed(deps) && Resolve(deps, name, version).Some?
    ensures var s := Resolve(deps, name, version).value; s.name == name && s.version == version
  {
  }

  // ---- fields -------------------------------------------------------------------------------------

  lemma FieldSlots(fd: Value)
    requires Conforms(fd, FieldSchema()) && N.Instance(fd, FieldSchema())
    ensures |fd.slots| == 3 && fd == Value(FieldSchema(), [Get(fd, NAME), Get(fd, REQUIRED), Get(fd, TYPE)])
    ensures Get(fd, TYPE).Some? && Get(fd, TYPE).value.ListC? && TokenCells(Get(fd, TYPE).value.cells)
  {
    hide ContentId, Get, FieldConforms, TokenSchema;
    MetaNames();
    FieldIsSlot(fd, 0);
    FieldIsSlot(fd, 1);
    FieldIsSlot(fd, 2);
    FieldIsThere(fd, FieldSchema(), 2);
    assert fd.slots == [fd.slots[0], fd.slots[1], fd.slots[2]];
    assert N.CellInstance(fd.slots[2].value, ListT(MessageT(TokenSchema())));
  }

  lemma FieldFieldsThere(fd: Value)
    requires Conforms(fd, FieldSchema())
    ensures Get(fd, NAME).Some? && Get(fd, NAME).value.TextC?
    ensures Get(fd, REQUIRED).Some? && Get(fd, REQUIRED).value.BoolC?
    ensures Get(fd, TYPE).Some? && Get(fd, TYPE).value.ListC? && Tokens(Get(fd, TYPE).value.cells)
  {
    hide ContentId, Get, Conforms, TokenSchema;
    FieldIsThere(fd, FieldSchema(), 0);
    FieldIsThere(fd, FieldSchema(), 1);
    FieldIsThere(fd, FieldSchema(), 2);
  }

  lemma DecodeFieldStep(fd: Value, deps: Schemas)
    requires Conforms(fd, FieldSchema()) && DecodeField(fd, deps).Rebuilt?
    ensures var f := DecodeField(fd, deps).value;
            && Get(fd, NAME) == Some(TextC(f.name)) && Get(fd, REQUIRED) == Some(BoolC(f.required))
            && Get(fd, TYPE).Some? && Get(fd, TYPE).value.ListC? && Tokens(Get(fd, TYPE).value.cells)
            && DecodeType(Get(fd, TYPE).value.cells, 0, deps) == Rebuilt((f.ty, |Get(fd, TYPE).value.cells|))
  {
    hide Get, Conforms, FieldSchema, TokenSchema, DecodeType;
    FieldFieldsThere(fd);
  }

  lemma EncodeOfField(fd: Value, deps: Schemas)
    requires Conforms(fd, FieldSchema()) && N.Instance(fd, FieldSchema()) && Keyed(deps) && DecodeField(fd, deps).Rebuilt?
    ensures EncodeField(DecodeField(fd, deps).value) == fd <==> PlainField(fd)
  {
    hide Get, Conforms, N.Instance, FieldSchema, TokenSchema, DecodeType, DecodeField, PlainTokens, TokenCells,
         EncodeType;
    FieldSlots(fd);
    DecodeFieldStep(fd, deps);
    var cs := Get(fd, TYPE).value.cells;
    EncodeOfType(cs, 0, deps);
    assert cs[0..|cs|] == cs;
  }

  predicate FieldDescCells(cs: seq<Cell>) { forall k :: 0 <= k < |cs| ==> N.CellInstance(cs[k], MessageT(FieldSchema())) }

  lemma DecodeFieldsStep(cs: seq<Cell>, deps: Schemas)
    requires FieldCells(cs) && cs != [] && DecodeFields(cs, deps).Rebuilt?
    ensures cs[0].MessageC? && cs[0].msg.Some? && Conforms(cs[0].msg.value, FieldSchema()) && FieldCells(cs[1..])
    ensures DecodeField(cs[0].msg.value, deps).Rebuilt? && DecodeFields(cs[1..], deps).Rebuilt?
    ensures DecodeFields(cs, deps).value == [DecodeField(cs[0].msg.value, deps).value] + DecodeFields(cs[1..], deps).value
  {
    hide Conforms, FieldSchema, DecodeField;
    assert CellConforms(cs[0], MessageT(FieldSchema()));
  }

  lemma {:induction false} EncodeOfFields(cs: seq<Cell>, deps: Schemas)
    requires FieldCells(cs) && FieldDescCells(cs) && Keyed(deps) && DecodeFields(cs, deps).Rebuilt?
    ensures EncodeFields(DecodeFields(cs, deps).value) == cs <==> PlainFields(cs)
    decreases |cs|
  {
    hide Conforms, N.Instance, FieldSchema, DecodeField, DecodeFields, PlainField, EncodeField, FieldCells;
    if cs == [] {
      NoFields(deps);
    } else {
      DecodeFieldsStep(cs, deps);
      var f, fs := DecodeField(cs[0].msg.value, deps).value, DecodeFields(cs[1..], deps).value;
      assert N.CellInstance(cs[0], MessageT(FieldSchema()));
      EncodeOfField(cs[0].msg.value, deps);
      assert FieldDescCells(cs[1..]);
      EncodeOfFields(cs[1..], deps);
      assert EncodeFields([f] + fs) == [MessageC(Some(EncodeField(f)))] + EncodeFields(fs);
      assert cs == [cs[0]] + cs[1..];
      HeadAndTail(MessageC(Some(EncodeField(f))), EncodeFields(fs), cs[0], cs[1..]);
      PlainFieldsSplit(cs[0], cs[1..]);
    }
  }

  lemma NoFields(deps: Schemas)
    ensures FieldCells([]) && DecodeFields([], deps) == Rebuilt([]) && EncodeFields([]) == []
  {
  }

  lemma PlainFieldsSplit(c: Cell, cs: seq<Cell>)
    requires c.MessageC? && c.msg.Some?
    ensures PlainFields([c] + cs) <==> PlainField(c.msg.value) && PlainFields(cs)
  {
    hide PlainField;
    assert ([c] + cs)[0] == c && forall k :: 0 <= k < |cs| ==> ([c] + cs)[k + 1] == cs[k];
  }

  // ---- schemas ------------------------------------------------------------------------------------

  lemma DescSlots(d: Value)
    requires Conforms(d, DescSchema()) && N.Instance(d, DescSchema())
    ensures |d.slots| == 3 && d == Value(DescSchema(), [Get(d, NAME), Get(d, VERSION), Get(d, FIELDS)])
    ensures Get(d, FIELDS).Some? && Get(d, FIELDS).value.ListC? && FieldDescCells(Get(d, FIELDS).value.cells)
  {
    hide ContentId, Get, FieldConforms, FieldSchema;
    MetaNames();
    FieldIsSlot(d, 0);
    FieldIsSlot(d, 1);
    FieldIsSlot(d, 2);
    FieldIsThere(d, DescSchema(), 2);
    assert d.slots == [d.slots[0], d.slots[1], d.slots[2]];
    assert N.CellInstance(d.slots[2].value, ListT(MessageT(FieldSchema())));
  }

  lemma DescFieldsThere(d: Value)
    requires Conforms(d, DescSchema())
    ensures Get(d, NAME).Some? && Get(d, NAME).value.TextC?
    ensures Get(d, VERSION).Some? && Get(d, VERSION).value.IntC?
    ensures Get(d, FIELDS).Some? && Get(d, FIELDS).value.ListC? && FieldCells(Get(d, FIELDS).value.cells)
  {
    hide ContentId, Get, Conforms, FieldSchema;
    FieldIsThere(d, DescSchema(), 0);
    FieldIsThere(d, DescSchema(), 1);
    FieldIsThere(d, DescSchema(), 2);
  }

  lemma DecodeSchemaStep(d: Value, deps: Schemas)
    requires Conforms(d, DescSchema()) && DecodeSchema(d, deps).Rebuilt?
    ensures var s := DecodeSchema(d, deps).value;
            && Get(d, NAME) == Some(TextC(s.name))
            && Get(d, VERSION).Some? && Get(d, VERSION).value.IntC? && Get(d, VERSION).value.i % TWO_32 == s.version
            && Get(d, FIELDS).Some? && Get(d, FIELDS).value.ListC? && FieldCells(Get(d, FIELDS).value.cells)
            && DecodeFields(Get(d, FIELDS).value.cells, deps) == Rebuilt(s.fields)
  {
    hide Get, Conforms, DescSchema, FieldCells, DecodeFields, CheckedFields, RawOf, ContentId;
    DescFieldsThere(d);
    var fs := DecodeFields(Get(d, FIELDS).value.cells, deps).value;
    var s := DecodeSchema(d, deps).value;
    CheckedFieldsIsExact(RawOf(fs), s.fields);
    RawOfIsInjective(fs, s.fields);
  }

  /** Encoding undoes decoding exactly when the descriptor claims the very meta-schemas throughout
      (as everything decoded from bytes does), its version and those its Message tokens refer to
      are ones of 32 bits, and no other token carries a reference. */
  lemma EncodeOfSchema(d: Value, deps: Schemas)
    requires Conforms(d, DescSchema()) && Keyed(deps) && DecodeSchema(d, deps).Rebuilt?
    ensures EncodeSchema(DecodeSchema(d, deps).value) == d <==> N.Instance(d, DescSchema()) && PlainDescriptor(d)
  {
    hide Get, Conforms, N.Instance, DescSchema, FieldCells, DecodeFields, DecodeSchema, PlainFields, EncodeFields,
         FieldDescCells;
    var s := DecodeSchema(d, deps).value;
    DescriptorConforms(s);
    if N.Instance(d, DescSchema()) {
      DescSlots(d);
      DecodeSchemaStep(d, deps);
      EncodeOfFields(Get(d, FIELDS).value.cells, deps);
    }
  }

  /** So of the descriptors that rebuild a schema exactly one is plain. */
  lemma PlainDescriptorsDetermined(d: Value, e: Value, deps: Schemas)
    requires Conforms(d, DescSchema()) && Conforms(e, DescSchema()) && Keyed(deps)
    requires N.Instance(d, DescSchema()) && PlainDescriptor(d) && N.Instance(e, DescSchema()) && PlainDescriptor(e)
    requires DecodeSchema(d, deps).Rebuilt? && DecodeSchema(d, deps) == DecodeSchema(e, deps)
    ensures d == e
  {
    hide Conforms, N.Instance, DescSchema, DecodeSchema, PlainDescriptor, EncodeSchema;
    EncodeOfSchema(d, deps);
    EncodeOfSchema(e, deps);
  }

  // ---- descriptors as bytes -----------------------------------------------------------------------

  /** Bytes admitted as a descriptor are written again by encoding what they rebuild exactly when
      the descriptor is plain. */
  lemma DescriptorBytesReturn(b: bytes, deps: Schemas, all: bool, ft: FloatText)
    requires Admit(Parse(b), DescSchema(), all, ft).Accepted? && Keyed(deps)
    ensures var d := Admit(Parse(b), DescSchema(), all, ft).value;
            && Conforms(d, DescSchema()) && N.Instance(d, DescSchema())
            && (DecodeSchema(d, deps).Rebuilt? ==>
                  (Serialize(EncodeSchema(DecodeSchema(d, deps).value)) == Some(b) <==> PlainDescriptor(d)))
  {
    hide Conforms, N.Instance, DescSchema, DecodeSchema, PlainDescriptor, EncodeSchema, Admit, Parse, Serialize;
    var d := Admit(Parse(b), DescSchema(), all, ft).value;
    AdmissionRun.AdmittedConforms(Parse(b), Empty(DescSchema()), DescSchema(), all, ft);
    AdmittedIsInstance(b, DescSchema(), all, ft);
    if DecodeSchema(d, deps).Rebuilt? {
      var e := EncodeSchema(DecodeSchema(d, deps).value);
      EncodeOfSchema(d, deps);
      ByteIdentity.CanonicalAcceptance(b, DescSchema(), all, ft);
      if Serialize(e) == Some(b) {
        DescriptorConforms(DecodeSchema(d, deps).value);
        MetaHaveNoFloats();
        SameBytesSameValue(d, e, DescSchema());
      }
    }
  }

  lemma AdmittedIsInstance(b: bytes, door: Schema, all: bool, ft: FloatText)
    requires Admit(Parse(b), door, all, ft).Accepted?
    ensures N.Instance(Admit(Parse(b), door, all, ft).value, door) && N.WithinCaps(Admit(Parse(b), door, all, ft).value, 0)
  {
    hide N.DecodeBody, N.Instance, N.WithinCaps, Parse;
    ByteIdentity.ParsedIsNative(b);
    N.DecodedIsInstance(door, [], 0, Parse(b).body);
    Canonical.DecodedIsNormal(door, Parse(b).body);
  }

  /** Instances of a float-free schema that serialize alike, one of them within the caps, are equal. */
  lemma SameBytesSameValue(v: Value, w: Value, s: Schema)
    requires N.Instance(v, s) && N.Instance(w, s) && NoFloats(s) && N.WithinCaps(v, 0)
    requires Serialize(v).Some? && Serialize(v) == Serialize(w)
    ensures v == w
  {
    hide N.DecodeBody, N.EncodeBody, N.CellInstance, N.WithinCaps, NoFloats, PutLE, Header;
    var x, y := N.EncodeBody(v).value, N.EncodeBody(w).value;
    assert x == y by { ByteIdentity.SameHeader(s.name, s.version, s.id, x, y); }
    Canonical.DecodeOfBody(v, s, [], 0, []);
    Canonical.DecodeOfBody(w, s, [], 0, []);
    NothingToNormalise(v, s);
    NothingToNormalise(w, s);
  }
}
