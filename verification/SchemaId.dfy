/** How a schema gets its content id, and what the id commits to (src/schema.cpp). */
module SchemaId {
  import opened Bytes
  import opened Wire
  import opened Model
  import opened Hash

  // ---- construction ----------------------------------------------------------------------

  datatype Kind = KInt | KFloat | KText | KBool | KBytes | KMessage | KList

  /** A type reference as the caller hands it over: either pointer may be null. */
  datatype TypeRef = TypeRef(kind: Kind, message: Option<Schema>, element: Option<TypeRef>)

  datatype RawField = RawField(name: bytes, ty: TypeRef, required: bool)

  /** validate_typeref; None where it throws. */
  function CheckedType(t: TypeRef): Option<Type> {
    match t.kind
    case KMessage =>
      if t.message.None? || t.element.Some? then None else Some(MessageT(t.message.value))
    case KList =>
      if t.element.None? || t.message.Some? then None
      else (match CheckedType(t.element.value) case None => None case Some(e) => Some(ListT(e)))
    case _ =>
      if t.message.Some? || t.element.Some? then None
      else Some(match t.kind case KInt => IntT case KFloat => FloatT case KText => TextT case KBool => BoolT case _ => BytesT)
  }

  /** The type reference a type stands for. */
  function RefOf(t: Type): TypeRef {
    match t
    case IntT => TypeRef(KInt, None, None)
    case FloatT => TypeRef(KFloat, None, None)
    case TextT => TypeRef(KText, None, None)
    case BoolT => TypeRef(KBool, None, None)
    case BytesT => TypeRef(KBytes, None, None)
    case MessageT(s) => TypeRef(KMessage, Some(s), None)
    case ListT(e) => TypeRef(KList, None, Some(RefOf(e)))
  }

  /** The check accepts exactly the references of types, each as its own type. */
  lemma {:induction false} CheckedTypeIsExact(r: TypeRef, t: Type)
    ensures CheckedType(r) == Some(t) <==> r == RefOf(t)
  {
    match t
    case ListT(e) =>
      if r.element.Some? {
        CheckedTypeIsExact(r.element.value, e);
      }
    case _ =>
  }

  function CheckedFields(fs: seq<RawField>, done: seq<Field>): (r: Option<seq<Field>>)
    decreases |fs|
  {
    if fs == [] then Some(done)
    else if fs[0].name == [] || (exists j :: 0 <= j < |done| && done[j].name == fs[0].name) then None
    else
      match CheckedType(fs[0].ty)
      case None => None
      case Some(t) => CheckedFields(fs[1..], done + [Field(fs[0].name, t, fs[0].required)])
  }

  function RawOf(fs: seq<Field>): seq<RawField> {
    seq(|fs|, i requires 0 <= i < |fs| => RawField(fs[i].name, RefOf(fs[i].ty), fs[i].required))
  }

  predicate NamedFields(fs: seq<Field>) {
    DistinctNames(fs) && forall i :: 0 <= i < |fs| ==> fs[i].name != []
  }

  /** The constructor accepts exactly the well-typed field lists whose names are non-empty
      and distinct, and changes nothing about them. */
  lemma CheckedFieldsIsExact(raw: seq<RawField>, fs: seq<Field>)
    ensures CheckedFields(raw, []) == Some(fs) <==> raw == RawOf(fs) && NamedFields(fs)
  {
    CheckedFieldsExtends(raw, [], fs);
    assert [] + raw == raw;
  }

  lemma {:induction false} CheckedFieldsExtends(raw: seq<RawField>, done: seq<Field>, fs: seq<Field>)
    requires NamedFields(done)
    ensures CheckedFields(raw, done) == Some(fs) <==> RawOf(done) + raw == RawOf(fs) && NamedFields(fs)
    decreases |raw|
  {
    hide CheckedType, RefOf;
    var all := RawOf(done) + raw;
    if raw == [] {
      assert all == RawOf(done);
      RawOfIsInjective(done, fs);
    } else if all == RawOf(fs) {
      var k := |done|;
      var f := fs[k];
      assert raw[0] == all[k] == RawField(f.name, RefOf(f.ty), f.required);
      RawOfIsInjective(done, fs[..k]);
      forall j | 0 <= j < k ensures RawOf(fs[..k])[j] == RawOf(done)[j] {
        assert all[j] == RawOf(done)[j] && RawOf(fs)[j] == RawOf(fs[..k])[j];
      }
      assert RawOf(fs[..k]) == RawOf(done);
      CheckedTypeIsExact(raw[0].ty, f.ty);
      if NamedFields(fs) || CheckedFields(raw, done).Some? {
        NamedExtends(done, f);
        assert RawOf(done + [f]) + raw[1..] == all;
        if NamedFields(done + [f]) {
          CheckedFieldsExtends(raw[1..], done + [f], fs);
        }
      }
    } else if CheckedFields(raw, done) == Some(fs) {
      var t := CheckedType(raw[0].ty).value;
      var f := Field(raw[0].name, t, raw[0].required);
      CheckedTypeIsExact(raw[0].ty, t);
      NamedExtends(done, f);
      assert RawOf(done + [f]) + raw[1..] == all;
      CheckedFieldsExtends(raw[1..], done + [f], fs);
    }
  }

  lemma NamedExtends(done: seq<Field>, f: Field)
    requires NamedFields(done)
    ensures NamedFields(done + [f]) <==> f.name != [] && forall j :: 0 <= j < |done| ==> done[j].name != f.name
  {
    var all := done + [f];
    assert all[|done|] == f && forall j :: 0 <= j < |done| ==> all[j] == done[j];
    if NamedFields(all) {
      forall j | 0 <= j < |done| ensures done[j].name != f.name {
        assert all[j].name != all[|done|].name;
      }
    }
  }

  lemma {:induction false} RefOfIsInjective(t: Type, u: Type)
    requires RefOf(t) == RefOf(u)
    ensures t == u
  {
    CheckedTypeIsExact(RefOf(t), t);
    CheckedTypeIsExact(RefOf(u), u);
  }

  lemma RawOfIsInjective(fs: seq<Field>, gs: seq<Field>)
    ensures RawOf(fs) == RawOf(gs) ==> fs == gs
  {
    if RawOf(fs) == RawOf(gs) {
      forall i | 0 <= i < |fs| ensures fs[i] == gs[i] {
        assert RawOf(fs)[i] == RawOf(gs)[i];
        RefOfIsInjective(fs[i].ty, gs[i].ty);
      }
    }
  }

  // ---- the stream behind an id -------------------------------------------------------------

  function KindCode(t: Type): byte {
    match t
    case IntT => 0
    case FloatT => 1
    case TextT => 2
    case BoolT => 3
    case BytesT => 4
    case MessageT(_) => 5
    case ListT(_) => 6
  }

  function TypeStream(t: Type): bytes {
    match t
    case MessageT(s) => [KindCode(t)] + PutLE(s.id, 8)
    case ListT(e) => [KindCode(t)] + TypeStream(e)
    case _ => [KindCode(t)]
  }

  function NameStream(s: bytes): bytes { PutLE(|s|, 8) + s }

  function FlagOctet(required: bool): byte { if required then 1 else 0 }

  function FieldStream(f: Field): bytes {
    NameStream(f.name) + ([FlagOctet(f.required)] + TypeStream(f.ty))
  }

  function FieldsStream(fs: seq<Field>): bytes {
    if fs == [] then [] else FieldStream(fs[0]) + FieldsStream(fs[1..])
  }

  function SchemaStream(name: bytes, version: u32, fs: seq<Field>): bytes {
    NameStream(name) + (PutLE(version, 8) + (PutLE(|fs|, 8) + FieldsStream(fs)))
  }

  /** compute_content_id */
  function ContentId(name: bytes, version: u32, fs: seq<Field>): u64 {
    Digest(SchemaStream(name, version, fs))
  }

  /** Schema's constructor; None where it throws. */
  function MakeSchema(name: bytes, version: u32, raw: seq<RawField>): Option<Schema> {
    match CheckedFields(raw, [])
    case None => None
    case Some(fs) => Some(Schema(name, version, fs, ContentId(name, version, fs)))
  }

  /** s was built by the constructor, and so was every schema nested in it. */
  predicate Built(s: Schema) {
    && s.id == ContentId(s.name, s.version, s.fields)
    && NamedFields(s.fields)
    && forall i :: 0 <= i < |s.fields| ==> BuiltType(s.fields[i].ty)
  }

  predicate BuiltType(t: Type) {
    match t
    case MessageT(s) => Built(s)
    case ListT(e) => BuiltType(e)
    case _ => true
  }

  lemma {:induction false} BuiltIsWf(s: Schema)
    requires Built(s)
    ensures WfSchema(s)
  {
    forall i | 0 <= i < |s.fields| ensures WfType(s.fields[i].ty) {
      BuiltTypeIsWf(s.fields[i].ty);
    }
  }

  lemma {:induction false} BuiltTypeIsWf(t: Type)
    requires BuiltType(t)
    ensures WfType(t)
  {
    match t
    case MessageT(s) => BuiltIsWf(s);
    case ListT(e) => BuiltTypeIsWf(e);
    case _ =>
  }

  /** Constructing from built parts builds: WfSchema holds of every schema there is. */
  lemma MadeIsBuilt(name: bytes, version: u32, raw: seq<RawField>)
    requires MakeSchema(name, version, raw).Some?
    requires forall i :: 0 <= i < |raw| ==> forall t :: CheckedType(raw[i].ty) == Some(t) ==> BuiltType(t)
    ensures Built(MakeSchema(name, version, raw).value) && WfSchema(MakeSchema(name, version, raw).value)
  {
    hide ContentId, CheckedType;
    var s := MakeSchema(name, version, raw).value;
    CheckedFieldsIsExact(raw, s.fields);
    forall i | 0 <= i < |s.fields| ensures BuiltType(s.fields[i].ty) {
      assert raw[i] == RawOf(s.fields)[i];
      CheckedTypeIsExact(raw[i].ty, s.fields[i].ty);
    }
    BuiltIsWf(s);
  }

  // ---- what the stream determines --------------------------------------------------------------

  /** A type up to the identity of the schemas it names. */
  datatype Skeleton = Plain(kind: byte) | Nested(id: u64) | ListOf(elem: Skeleton)

  function Shape(t: Type): Skeleton {
    match t
    case MessageT(s) => Nested(s.id)
    case ListT(e) => ListOf(Shape(e))
    case _ => Plain(KindCode(t))
  }

  predicate SameField(f: Field, g: Field) {
    f.name == g.name && f.required == g.required && Shape(f.ty) == Shape(g.ty)
  }

  predicate SameFields(fs: seq<Field>, gs: seq<Field>) {
    |fs| == |gs| && forall i :: 0 <= i < |fs| ==> SameField(fs[i], gs[i])
  }

  lemma {:induction false} TypeStreamDetermines(t: Type, u: Type, r: bytes, s: bytes)
    ensures TypeStream(t) + r == TypeStream(u) + s <==> Shape(t) == Shape(u) && r == s
    decreases t
  {
    hide PutLE;
    var x, y := TypeStream(t) + r, TypeStream(u) + s;
    assert x[0] == KindCode(t) && y[0] == KindCode(u);
    if KindCode(t) != KindCode(u) {
      assert Shape(t) != Shape(u);
    } else if t.MessageT? {
      NumberDetermines(t.schema.id, u.schema.id, r, s);
      assert x[1..] == PutLE(t.schema.id, 8) + r;
      assert y[1..] == PutLE(u.schema.id, 8) + s;
      assert x == [x[0]] + x[1..] && y == [y[0]] + y[1..];
    } else if t.ListT? {
      TypeStreamDetermines(t.elem, u.elem, r, s);
      assert x[1..] == TypeStream(t.elem) + r;
      assert y[1..] == TypeStream(u.elem) + s;
      assert x == [x[0]] + x[1..] && y == [y[0]] + y[1..];
    } else {
      assert x[1..] == r && y[1..] == s;
    }
  }

  lemma NumberDetermines(m: u64, n: u64, r: bytes, s: bytes)
    ensures PutLE(m, 8) + r == PutLE(n, 8) + s <==> m == n && r == s
  {
    hide PutLE;
    Widths();
    ReadPutLE(m, 8, r);
    ReadPutLE(n, 8, s);
  }

  lemma NameStreamDetermines(a: bytes, b: bytes, r: bytes, s: bytes)
    requires |a| < TWO_64 && |b| < TWO_64
    ensures NameStream(a) + r == NameStream(b) + s <==> a == b && r == s
  {
    hide PutLE;
    Assoc(PutLE(|a|, 8), a, r);
    Assoc(PutLE(|b|, 8), b, s);
    NumberDetermines(|a|, |b|, a + r, b + s);
    if a + r == b + s && |a| == |b| {
      assert a == (a + r)[..|a|] && b == (b + s)[..|b|];
      assert r == (a + r)[|a|..] && s == (b + s)[|b|..];
    }
  }

  predicate Sized(fs: seq<Field>) {
    |fs| < TWO_64 && forall i :: 0 <= i < |fs| ==> |fs[i].name| < TWO_64
  }

  lemma FieldStreamDetermines(f: Field, g: Field, r: bytes, s: bytes)
    requires |f.name| < TWO_64 && |g.name| < TWO_64
    ensures FieldStream(f) + r == FieldStream(g) + s <==> SameField(f, g) && r == s
  {
    hide NameStream, TypeStream, Shape;
    FieldStreamThen(f, r);
    FieldStreamThen(g, s);
    var x, y := [FlagOctet(f.required)] + (TypeStream(f.ty) + r), [FlagOctet(g.required)] + (TypeStream(g.ty) + s);
    NameStreamDetermines(f.name, g.name, x, y);
    assert x[0] == FlagOctet(f.required) && y[0] == FlagOctet(g.required);
    assert x[1..] == TypeStream(f.ty) + r && y[1..] == TypeStream(g.ty) + s;
    TypeStreamDetermines(f.ty, g.ty, r, s);
  }

  lemma FieldStreamThen(f: Field, r: bytes)
    ensures FieldStream(f) + r == NameStream(f.name) + ([FlagOctet(f.required)] + (TypeStream(f.ty) + r))
  {
    hide NameStream, TypeStream;
    Assoc(NameStream(f.name), [FlagOctet(f.required)] + TypeStream(f.ty), r);
    Assoc([FlagOctet(f.required)], TypeStream(f.ty), r);
  }

  lemma {:induction false} FieldsStreamDetermines(fs: seq<Field>, gs: seq<Field>)
    requires |fs| == |gs| && Sized(fs) && Sized(gs)
    ensures FieldsStream(fs) == FieldsStream(gs) <==> SameFields(fs, gs)
  {
    hide FieldStream, SameField;
    if fs != [] {
      FieldStreamDetermines(fs[0], gs[0], FieldsStream(fs[1..]), FieldsStream(gs[1..]));
      FieldsStreamDetermines(fs[1..], gs[1..]);
      if SameFields(fs, gs) {
        assert SameFields(fs[1..], gs[1..]);
      }
      if SameFields(fs[1..], gs[1..]) && SameField(fs[0], gs[0]) {
        forall i | 0 <= i < |fs| ensures SameField(fs[i], gs[i]) {
          assert i > 0 ==> fs[i] == fs[1..][i - 1] && gs[i] == gs[1..][i - 1];
        }
      }
    }
  }

  /** The octets folded into an id determine the name, the version, and every field's name,
      required flag and type down to nested ids; and nothing else enters them. */
  lemma StreamDeterminesSchema(m: bytes, v: u32, fs: seq<Field>, n: bytes, w: u32, gs: seq<Field>)
    requires |m| < TWO_64 && |n| < TWO_64 && Sized(fs) && Sized(gs)
    ensures SchemaStream(m, v, fs) == SchemaStream(n, w, gs) <==> m == n && v == w && SameFields(fs, gs)
  {
    hide NameStream, FieldsStream, SameField, PutLE;
    var f1, g1 := FieldsStream(fs), FieldsStream(gs);
    var f2, g2 := PutLE(|fs|, 8) + f1, PutLE(|gs|, 8) + g1;
    NameStreamDetermines(m, n, PutLE(v, 8) + f2, PutLE(w, 8) + g2);
    NumberDetermines(v, w, f2, g2);
    NumberDetermines(|fs|, |gs|, f1, g1);
    if |fs| == |gs| {
      FieldsStreamDetermines(fs, gs);
    }
  }

  // ---- single-octet changes --------------------------------------------------------------------

  lemma ApartInContext(pre: bytes, a: bytes, b: bytes, post: bytes)
    requires OneOctetApart(a, b)
    ensures OneOctetApart(pre + (a + post), pre + (b + post))
  {
    var k :| 0 <= k < |a| && |a| == |b| && a[k] != b[k] && a[..k] == b[..k] && a[k + 1..] == b[k + 1..];
    var x, y := pre + (a + post), pre + (b + post);
    var j := |pre| + k;
    assert x[j] == a[k] && y[j] == b[k];
    assert x[..j] == pre + a[..k] && y[..j] == pre + b[..k];
    assert x[j + 1..] == a[k + 1..] + post && y[j + 1..] == b[k + 1..] + post;
  }

  lemma OctetsApart(a: byte, b: byte)
    requires a != b
    ensures OneOctetApart([a], [b])
  {
    assert [a][..0] == [b][..0] && [a][0 + 1..] == [b][0 + 1..] && [a][0] != [b][0];
  }

  predicate ScalarType(t: Type) { !t.MessageT? && !t.ListT? }

  /** t and u differ in one scalar kind, at the bottom of the same number of lists. */
  predicate ScalarsApart(t: Type, u: Type) {
    if t.ListT? && u.ListT? then ScalarsApart(t.elem, u.elem)
    else ScalarType(t) && ScalarType(u) && t != u
  }

  lemma {:induction false} ScalarsApartInStream(t: Type, u: Type)
    requires ScalarsApart(t, u)
    ensures OneOctetApart(TypeStream(t), TypeStream(u))
  {
    if t.ListT? {
      ScalarsApartInStream(t.elem, u.elem);
      ApartInContext([6], TypeStream(t.elem), TypeStream(u.elem), []);
      assert TypeStream(t.elem) + [] == TypeStream(t.elem) && TypeStream(u.elem) + [] == TypeStream(u.elem);
    } else {
      OctetsApart(KindCode(t), KindCode(u));
    }
  }

  /** f and g are the same field but for the required flag, or but for one scalar kind. */
  predicate OneChange(f: Field, g: Field) {
    && f.name == g.name
    && ((f.required != g.required && f.ty == g.ty) || (f.required == g.required && ScalarsApart(f.ty, g.ty)))
  }

  lemma OneChangeInStream(f: Field, g: Field)
    requires OneChange(f, g)
    ensures OneOctetApart(FieldStream(f), FieldStream(g))
  {
    hide OneOctetApart, NameStream, TypeStream, ScalarsApart;
    var pre, flag := NameStream(f.name), [FlagOctet(f.required)];
    var t, u := TypeStream(f.ty), TypeStream(g.ty);
    if f.required != g.required {
      OctetsApart(FlagOctet(f.required), FlagOctet(g.required));
      ApartInContext(pre, flag, [FlagOctet(g.required)], t);
    } else {
      ScalarsApartInStream(f.ty, g.ty);
      ApartInContext(pre + flag, t, u, []);
      assert t + [] == t && u + [] == u;
      Assoc(pre, flag, t);
      Assoc(pre, flag, u);
    }
  }

  lemma {:induction false} OneChangeInFields(fs: seq<Field>, i: nat, g: Field)
    requires i < |fs| && OneChange(fs[i], g)
    ensures OneOctetApart(FieldsStream(fs), FieldsStream(fs[i := g]))
  {
    hide OneOctetApart, FieldStream, OneChange;
    var gs := fs[i := g];
    if i == 0 {
      OneChangeInStream(fs[0], g);
      assert gs[1..] == fs[1..];
      ApartInContext([], FieldStream(fs[0]), FieldStream(g), FieldsStream(fs[1..]));
      assert forall x: bytes :: [] + x == x;
    } else {
      OneChangeInFields(fs[1..], i - 1, g);
      assert gs[1..] == fs[1..][i - 1 := g];
      var x, y := FieldsStream(fs[1..]), FieldsStream(gs[1..]);
      ApartInContext(FieldStream(fs[0]), x, y, []);
      assert x + [] == x && y + [] == y;
    }
  }

  /** Flipping one required flag, or changing one scalar kind at any list depth, always
      changes the content id. */
  lemma OneChangeChangesId(name: bytes, version: u32, fs: seq<Field>, i: nat, g: Field)
    requires i < |fs| && OneChange(fs[i], g)
    ensures ContentId(name, version, fs) != ContentId(name, version, fs[i := g])
  {
    hide OneOctetApart, Digest, FieldsStream, NameStream, PutLE, OneChange;
    var gs := fs[i := g];
    var pre := NameStream(name) + (PutLE(version, 8) + PutLE(|fs|, 8));
    var x, y := FieldsStream(fs), FieldsStream(gs);
    OneChangeInFields(fs, i, g);
    ApartInContext(pre, x, y, []);
    assert x + [] == x && y + [] == y;
    forall z: bytes ensures pre + z == NameStream(name) + (PutLE(version, 8) + (PutLE(|fs|, 8) + z)) {
      Assoc(NameStream(name), PutLE(version, 8) + PutLE(|fs|, 8), z);
      Assoc(PutLE(version, 8), PutLE(|fs|, 8), z);
    }
    OneOctetChangesDigest(SchemaStream(name, version, fs), SchemaStream(name, version, gs));
  }

  // ---- as it runs ------------------------------------------------------------------------------

  /** hash_typeref */
  method HashType(h: Fnv1a, t: Type)
    requires h.Valid()
    modifies h
    ensures h.Valid() && h.fed == old(h.fed) + TypeStream(t)
    decreases t
  {
    hide PutLE;
    h.Byte(KindCode(t));
    match t
    case MessageT(s) =>
      Assoc(old(h.fed), [KindCode(t)], PutLE(s.id, 8));
      h.U64(s.id);
    case ListT(e) =>
      Assoc(old(h.fed), [KindCode(t)], TypeStream(e));
      HashType(h, e);
    case _ =>
  }

  method HashField(h: Fnv1a, f: Field)
    requires h.Valid() && |f.name| < TWO_64
    modifies h
    ensures h.Valid() && h.fed == old(h.fed) + FieldStream(f)
  {
    hide PutLE, TypeStream;
    h.Field(f.name);
    h.Byte(FlagOctet(f.required));
    HashType(h, f.ty);
    Assoc(old(h.fed) + NameStream(f.name), [FlagOctet(f.required)], TypeStream(f.ty));
    Assoc(old(h.fed), NameStream(f.name), [FlagOctet(f.required)] + TypeStream(f.ty));
  }

  method ComputeContentId(name: bytes, version: u32, fs: seq<Field>) returns (id: u64)
    requires |name| < TWO_64 && Sized(fs)
    ensures id == ContentId(name, version, fs)
  {
    hide PutLE, FieldStream, Digest;
    var h := new Fnv1a();
    h.Field(name);
    h.U64(version);
    h.U64(|fs|);
    ghost var head := h.fed;
    var i := 0;
    while i < |fs|
      invariant i <= |fs| && h.Valid()
      invariant h.fed + FieldsStream(fs[i..]) == head + FieldsStream(fs)
    {
      Assoc(h.fed, FieldStream(fs[i]), FieldsStream(fs[i + 1..]));
      assert fs[i..][1..] == fs[i + 1..];
      HashField(h, fs[i]);
      i := i + 1;
    }
    assert h.fed + [] == h.fed;
    assert head == (NameStream(name) + PutLE(version, 8)) + PutLE(|fs|, 8) by {
      assert [] + NameStream(name) == NameStream(name);
    }
    Assoc(NameStream(name) + PutLE(version, 8), PutLE(|fs|, 8), FieldsStream(fs));
    Assoc(NameStream(name), PutLE(version, 8), PutLE(|fs|, 8) + FieldsStream(fs));
    id := h.Value();
  }

  /** Schema's constructor as it runs: one pass with the set of names seen. */
  method BuildSchema(name: bytes, version: u32, raw: seq<RawField>) returns (s: Option<Schema>)
    requires |name| < TWO_64 && |raw| < TWO_64 && forall i :: 0 <= i < |raw| ==> |raw[i].name| < TWO_64
    ensures s == MakeSchema(name, version, raw)
  {
    hide ContentId, CheckedType;
    var seen: set<bytes> := {};
    var fields: seq<Field> := [];
    var i := 0;
    while i < |raw|
      invariant i <= |raw| && |fields| == i
      invariant forall n :: n in seen <==> exists j :: 0 <= j < |fields| && fields[j].name == n
      invariant forall j :: 0 <= j < |fields| ==> |fields[j].name| < TWO_64
      invariant CheckedFields(raw, []) == CheckedFields(raw[i..], fields)
    {
      var f := raw[i];
      assert raw[i..][0] == f && raw[i..][1..] == raw[i + 1..];
      if f.name == [] || f.name in seen {
        return None;
      }
      var t := CheckedType(f.ty);
      if t.None? {
        return None;
      }
      seen := seen + {f.name};
      ghost var was := fields;
      fields := fields + [Field(f.name, t.value, f.required)];
      assert forall j :: 0 <= j < |was| ==> fields[j] == was[j];
      assert fields[|was|].name == f.name;
      i := i + 1;
    }
    var id := ComputeContentId(name, version, fields);
    s := Some(Schema(name, version, fields, id));
  }
}
