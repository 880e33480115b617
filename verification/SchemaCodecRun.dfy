/** The schema codec as it runs: descriptors filled in slot by slot, token lists grown and
    consumed through a moving index. */
module SchemaCodecRun {
  import opened Bytes
  import opened Model
  import opened Gate
  import opened SchemaId
  import opened Registry
  import opened SchemaCodec

  /** Value::set on a declared field, which cannot throw. */
  method Put(v: Value, i: nat, c: Cell) returns (r: Value)
    requires NamedFields(v.schema.fields) && |v.slots| == |v.schema.fields| && i < |v.slots|
    ensures r == v.(slots := v.slots[i := Some(c)])
  {
    SetAt(v, i, c);
    r := Set(v, v.schema.fields[i].name, c).value;
  }

  /** make_type_token */
  method MakeTypeToken(k: byte, ref: Option<Schema>) returns (tok: Value)
    ensures tok == Token(k, ref)
  {
    hide ContentId;
    MetaNames();
    tok := Empty(TokenSchema());
    tok := Put(tok, 0, IntC(k));
    if ref.Some? {
      tok := Put(tok, 1, TextC(ref.value.name));
      tok := Put(tok, 2, IntC(ref.value.version));
    }
    assert tok.slots == Token(k, ref).slots;
  }

  method EncodeTypeInto(t: Type, tokens: seq<Cell>) returns (r: seq<Cell>)
    ensures r == tokens + EncodeType(t)
    decreases t
  {
    hide Token;
    match t
    case MessageT(s) =>
      var tok := MakeTypeToken(KindCode(t), Some(s));
      r := tokens + [MessageC(Some(tok))];
    case ListT(e) =>
      var tok := MakeTypeToken(KindCode(t), None);
      r := tokens + [MessageC(Some(tok))];
      r := EncodeTypeInto(e, r);
      assert tokens + [MessageC(Some(tok))] + EncodeType(e) == tokens + ([MessageC(Some(tok))] + EncodeType(e));
    case _ =>
      var tok := MakeTypeToken(KindCode(t), None);
      r := tokens + [MessageC(Some(tok))];
  }

  method EncodeFieldValue(f: Field) returns (fd: Value)
    ensures fd == EncodeField(f)
  {
    hide ContentId, EncodeType;
    MetaNames();
    fd := Empty(FieldSchema());
    fd := Put(fd, 0, TextC(f.name));
    fd := Put(fd, 1, BoolC(f.required));
    var tokens := EncodeTypeInto(f.ty, []);
    assert [] + EncodeType(f.ty) == EncodeType(f.ty);
    fd := Put(fd, 2, ListC(tokens));
    assert fd.slots == EncodeField(f).slots;
  }

  method EncodeSchemaValue(s: Schema) returns (desc: Value)
    ensures desc == EncodeSchema(s)
  {
    hide ContentId, EncodeField;
    MetaNames();
    desc := Empty(DescSchema());
    desc := Put(desc, 0, TextC(s.name));
    desc := Put(desc, 1, IntC(s.version));
    var fields: seq<Cell> := [];
    var i := 0;
    while i < |s.fields|
      invariant 0 <= i <= |s.fields| && fields == EncodeFields(s.fields)[..i]
    {
      var fd := EncodeFieldValue(s.fields[i]);
      fields := fields + [MessageC(Some(fd))];
      i := i + 1;
    }
    assert fields == EncodeFields(s.fields);
    desc := Put(desc, 2, ListC(fields));
    assert desc.slots == EncodeSchema(s).slots;
  }

  method DecodeTypeAt(tokens: seq<Cell>, at: nat, deps: Registry) returns (r: Rebuilt<Type>, i: nat)
    requires Tokens(tokens)
    ensures match DecodeType(tokens, at, deps.current)
            case Fails(e) => r == Fails(e)
            case Rebuilt((t, next)) => r == Rebuilt(t) && i == next
    decreases |tokens| - at
  {
    hide TokenSchema, Get, Conforms;
    i := at;
    if i >= |tokens| {
      return Fails(Truncated), i;
    }
    var tok := tokens[i].msg.value;
    i := i + 1;
    TokenFields(tok);
    var raw := Get(tok, KIND).value.i;
    if raw < 0 || raw > 6 {
      return Fails(KindOutOfRange), i;
    }
    if raw == 5 {
      var name, version := Get(tok, REF_NAME), Get(tok, REF_VERSION);
      if name.None? || version.None? {
        return Fails(MissingReference), i;
      }
      var ref := deps.Lookup(name.value.text, version.value.i % TWO_32);
      if ref.None? {
        return Fails(Unresolved), i;
      }
      r := Rebuilt(MessageT(ref.value));
    } else if raw == 6 {
      r, i := DecodeTypeAt(tokens, i, deps);
      if r.Rebuilt? {
        r := Rebuilt(ListT(r.value));
      }
    } else {
      r := Rebuilt(ScalarOf(raw));
    }
  }

  lemma TokenFields(tok: Value)
    requires Conforms(tok, TokenSchema())
    ensures Get(tok, KIND).Some? && Get(tok, KIND).value.IntC?
    ensures Get(tok, REF_NAME).Some? ==> Get(tok, REF_NAME).value.TextC?
    ensures Get(tok, REF_VERSION).Some? ==> Get(tok, REF_VERSION).value.IntC?
  {
    hide Get, ContentId, Conforms;
    FieldIsThere(tok, TokenSchema(), 0);
    FieldIsThere(tok, TokenSchema(), 1);
    FieldIsThere(tok, TokenSchema(), 2);
  }

  lemma FieldFields(fd: Value)
    requires Conforms(fd, FieldSchema())
    ensures Get(fd, NAME).Some? && Get(fd, NAME).value.TextC?
    ensures Get(fd, REQUIRED).Some? && Get(fd, REQUIRED).value.BoolC?
    ensures Get(fd, TYPE).Some? && Get(fd, TYPE).value.ListC? && Tokens(Get(fd, TYPE).value.cells)
  {
    hide Get, ContentId, Conforms, TokenSchema;
    FieldIsThere(fd, FieldSchema(), 0);
    FieldIsThere(fd, FieldSchema(), 1);
    FieldIsThere(fd, FieldSchema(), 2);
  }

  lemma DescFields(d: Value)
    requires Conforms(d, DescSchema())
    ensures Get(d, NAME).Some? && Get(d, NAME).value.TextC?
    ensures Get(d, VERSION).Some? && Get(d, VERSION).value.IntC?
    ensures Get(d, FIELDS).Some? && Get(d, FIELDS).value.ListC? && FieldCells(Get(d, FIELDS).value.cells)
  {
    hide Get, ContentId, Conforms, FieldSchema;
    FieldIsThere(d, DescSchema(), 0);
    FieldIsThere(d, DescSchema(), 1);
    FieldIsThere(d, DescSchema(), 2);
  }

  method DecodeSchemaValue(desc: Value, deps: Registry) returns (r: Rebuilt<Schema>)
    requires Conforms(desc, DescSchema())
    ensures r == DecodeSchema(desc, deps.current)
  {
    hide DescSchema, FieldSchema, Get, Conforms, DecodeType, MakeSchema;
    DescFields(desc);
    var name := Get(desc, NAME).value.text;
    var version := Get(desc, VERSION).value.i % TWO_32;
    var fields := Get(desc, FIELDS).value.cells;
    var rebuilt: seq<Field> := [];
    ghost var whole := DecodeFields(fields, deps.current);
    var k := 0;
    assert fields[0..] == fields && After([], whole) == whole by { AfterNothing(whole); }
    while k < |fields|
      invariant 0 <= k <= |fields| && FieldCells(fields[k..])
      invariant whole == After(rebuilt, DecodeFields(fields[k..], deps.current))
    {
      var fd := fields[k].msg.value;
      assert fields[k..][0] == fields[k] && fields[k..][1..] == fields[k + 1..];
      assert CellConforms(fields[k], MessageT(FieldSchema()));
      FieldFields(fd);
      var tokens := Get(fd, TYPE).value.cells;
      var t, i := DecodeTypeAt(tokens, 0, deps);
      if t.Fails? {
        return Fails(t.why);
      }
      if i != |tokens| {
        return Fails(TrailingTokens);
      }
      var f := Field(Get(fd, NAME).value.text, t.value, Get(fd, REQUIRED).value.b);
      AfterOne(rebuilt, f, DecodeFields(fields[k + 1..], deps.current));
      rebuilt := rebuilt + [f];
      k := k + 1;
    }
    assert rebuilt + [] == rebuilt;
    var s := MakeSchema(name, version, RawOf(rebuilt));
    r := if s.None? then Fails(Unbuildable) else Rebuilt(s.value);
  }

  function After(done: seq<Field>, r: Rebuilt<seq<Field>>): Rebuilt<seq<Field>> {
    match r
    case Fails(e) => Fails(e)
    case Rebuilt(fs) => Rebuilt(done + fs)
  }

  lemma AfterNothing(r: Rebuilt<seq<Field>>)
    ensures After([], r) == r
  {
    if r.Rebuilt? {
      assert [] + r.value == r.value;
    }
  }

  lemma AfterOne(done: seq<Field>, f: Field, r: Rebuilt<seq<Field>>)
    ensures After(done + [f], r) == After(done, match r case Fails(e) => Fails(e) case Rebuilt(fs) => Rebuilt([f] + fs))
  {
    if r.Rebuilt? {
      assert done + [f] + r.value == done + ([f] + r.value);
    }
  }
}
