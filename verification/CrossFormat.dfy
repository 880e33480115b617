/** The two formats agree: JSON text of a value admits as the value, like its native bytes. */
module CrossFormat {
  import opened Bytes
  import opened Model
  import opened Utf8
  import opened Gate
  import opened Native
  import opened Canonical
  import opened Alike
  import opened Json
  import opened JsonGrammar
  import opened JsonTokens
  import opened JsonExact
  import opened Compat
  import opened CompatDocs
  import opened CompatLimits
  import opened Admission
  import opened ByteIdentity

  // ---- the envelope as a document ---------------------------------------------------------

  function Pair(key: bytes, d: Doc): DMember {
    DMember([], QuotePieces(key), [], Item([], d, []))
  }

  function EnvelopeMembers(v: Value, ft: FloatText): seq<DMember> {
    [ Pair(KEY_ZEN, DNumber(ENVELOPE_VERSION)),
      Pair(KEY_SCHEMA, DString(QuotePieces(v.schema.name))),
      Pair(KEY_VERSION, DNumber(Decimal(v.schema.version))),
      Pair(KEY_ID, DString(QuotePieces(IdText(v.schema.id)))),
      Pair(KEY_FIELDS, DocOfValue(v, ft)) ]
  }

  function EnvelopeMeaning(v: Value, ft: FloatText): seq<Member> {
    [ Member(KEY_ZEN, JNumber(ENVELOPE_VERSION)),
      Member(KEY_SCHEMA, JString(v.schema.name)),
      Member(KEY_VERSION, JNumber(Decimal(v.schema.version))),
      Member(KEY_ID, JString(IdText(v.schema.id))),
      Member(KEY_FIELDS, JObject(FieldTree(v, ft))) ]
  }

  lemma PairText(key: bytes, d: Doc)
    ensures MemberText(Pair(key, d)) == Entry(key, Text(d))
  {
    hide Text;
    QuoteIsLiteral(key);
    MemberTextPlain(Pair(key, d));
  }

  lemma PairMeaning(key: bytes, d: Doc)
    ensures MemberMeaning(Pair(key, d)) == Member(key, Meaning(d))
  {
    hide Meaning, QuotePieces, Spelled;
    QuoteIsLiteral(key);
  }

  lemma FiveMembersText(ms: seq<DMember>)
    requires |ms| == 5
    ensures MembersText(ms) ==
            MemberText(ms[0]) + ([COMMA] + (MemberText(ms[1]) + ([COMMA] + (MemberText(ms[2])
            + ([COMMA] + (MemberText(ms[3]) + ([COMMA] + (MemberText(ms[4]) + [CLOSE_BRACE]))))))))
  {
    hide MemberText;
    assert MembersText(ms[1..][1..][1..][1..]) == MemberText(ms[4]) + [CLOSE_BRACE];
    assert MembersText(ms[1..][1..][1..]) == MemberText(ms[3]) + ([COMMA] + MembersText(ms[1..][1..][1..][1..]));
    assert MembersText(ms[1..][1..]) == MemberText(ms[2]) + ([COMMA] + MembersText(ms[1..][1..][1..]));
    assert MembersText(ms[1..]) == MemberText(ms[1]) + ([COMMA] + MembersText(ms[1..][1..]));
  }

  lemma FiveMembersMeaning(ms: seq<DMember>)
    requires |ms| == 5
    ensures MembersMeaning(ms) ==
            [MemberMeaning(ms[0]), MemberMeaning(ms[1]), MemberMeaning(ms[2]), MemberMeaning(ms[3]), MemberMeaning(ms[4])]
  {
    hide MemberMeaning;
    assert MembersMeaning(ms[1..][1..][1..][1..]) == [MemberMeaning(ms[4])];
    assert MembersMeaning(ms[1..][1..][1..]) == [MemberMeaning(ms[3])] + MembersMeaning(ms[1..][1..][1..][1..]);
    assert MembersMeaning(ms[1..][1..]) == [MemberMeaning(ms[2])] + MembersMeaning(ms[1..][1..][1..]);
    assert MembersMeaning(ms[1..]) == [MemberMeaning(ms[1])] + MembersMeaning(ms[1..][1..]);
  }

  lemma EnvelopeText(v: Value, ft: FloatText)
    ensures Text(DObject([], EnvelopeMembers(v, ft))) == CompatSerialize(v, ft)
  {
    hide MembersText, MemberText, Entry, DocOfValue, ObjectJson, Quote, QuotePieces, LiteralText;
    var ms := EnvelopeMembers(v, ft);
    FiveMembersText(ms);
    PairText(KEY_ZEN, ms[0].item.doc);
    PairText(KEY_SCHEMA, ms[1].item.doc);
    PairText(KEY_VERSION, ms[2].item.doc);
    PairText(KEY_ID, ms[3].item.doc);
    PairText(KEY_FIELDS, ms[4].item.doc);
    QuoteIsLiteral(v.schema.name);
    QuoteIsLiteral(IdText(v.schema.id));
    ObjectJsonIsText(v, ft);
  }

  lemma EnvelopeMeans(v: Value, ft: FloatText)
    ensures MembersMeaning(EnvelopeMembers(v, ft)) == EnvelopeMeaning(v, ft)
  {
    hide MembersMeaning, MemberMeaning, DocMembers, QuotePieces, Spelled;
    var ms := EnvelopeMembers(v, ft);
    FiveMembersMeaning(ms);
    PairMeaning(KEY_ZEN, ms[0].item.doc);
    PairMeaning(KEY_SCHEMA, ms[1].item.doc);
    PairMeaning(KEY_VERSION, ms[2].item.doc);
    PairMeaning(KEY_ID, ms[3].item.doc);
    PairMeaning(KEY_FIELDS, ms[4].item.doc);
    QuoteIsLiteral(v.schema.name);
    QuoteIsLiteral(IdText(v.schema.id));
  }

  lemma KeysDiffer()
    ensures |KEY_ZEN| == 3 && |KEY_SCHEMA| == 6 && |KEY_VERSION| == 7 && |KEY_ID| == 10 && |KEY_FIELDS| == 6
    ensures KEY_SCHEMA != KEY_FIELDS
  {
    assert KEY_SCHEMA[0] != KEY_FIELDS[0];
  }

  // ---- number tokens -----------------------------------------------------------------------

  lemma {:induction false} DecimalIsToken(n: nat)
    ensures IsNumberToken(Decimal(n))
  {
    hide Decimal, FromDecimal;
    DecimalReadsBack(n);
    DecimalHasNoLeadingZero(n);
    WholeIsToken(Decimal(n));
  }

  lemma WholeIsToken(t: bytes)
    requires t != [] && AllDigits(t) && (t[0] == 0x30 ==> |t| == 1)
    ensures IsNumberToken(t)
  {
    var number := Number(false, t, None, None);
    assert t + ([] + []) == t && [] + t == t;
    assert WfNumber(number) && NumberText(number) == t;
  }

  lemma {:induction false} DecimalHasNoLeadingZero(n: nat)
    ensures Decimal(n)[0] == 0x30 ==> |Decimal(n)| == 1
    ensures n > 0 ==> Decimal(n)[0] != 0x30
  {
    if n >= 10 {
      DecimalHasNoLeadingZero(n / 10);
      DecimalReadsBack(n / 10);
    }
  }

  // ---- the JSON round trip --------------------------------------------------------------------

  lemma EnvelopeWf(v: Value, s: Schema, depth: int, ft: FloatText)
    requires Faithful(ft) && WfSchema(s) && Instance(v, s) && FitsJson(v, depth) && depth <= 0
    ensures WfDoc(DObject([], EnvelopeMembers(v, ft)), depth)
  {
    hide WfMember, DocOfValue, Meaning, QuotePieces, MembersMeaning, FitsJson, Instance, WfSchema, Decimal,
         DistinctKeys, IsNumberToken, WfPieces, PiecesText, PiecesMeaning;
    var ms := EnvelopeMembers(v, ft);
    DecimalIsToken(v.schema.version);
    DecimalIsToken(1);
    assert Decimal(1) == ENVELOPE_VERSION by { DecimalOfOne(); }
    QuotePiecesExact(v.schema.name);
    QuotePiecesExact(IdText(v.schema.id));
    DocOfValueWf(v, s, depth, ft);
    PairWf(KEY_ZEN, ms[0].item.doc, depth + 1);
    PairWf(KEY_SCHEMA, ms[1].item.doc, depth + 1);
    PairWf(KEY_VERSION, ms[2].item.doc, depth + 1);
    PairWf(KEY_ID, ms[3].item.doc, depth + 1);
    PairWf(KEY_FIELDS, ms[4].item.doc, depth + 1);
    EnvelopeMeans(v, ft);
    FiveDistinct(EnvelopeMeaning(v, ft));
    assert forall i :: 0 <= i < |ms| ==> WfMember(ms[i], depth + 1);
  }

  lemma FiveDistinct(ms: seq<Member>)
    requires |ms| == 5
    requires ms[0].key == KEY_ZEN && ms[1].key == KEY_SCHEMA && ms[2].key == KEY_VERSION
    requires ms[3].key == KEY_ID && ms[4].key == KEY_FIELDS
    ensures DistinctKeys(ms)
  {
    KeysDiffer();
  }

  lemma DecimalOfOne()
    ensures Decimal(1) == ENVELOPE_VERSION
  {
  }

  lemma PairWf(key: bytes, d: Doc, depth: int)
    requires WfDoc(d, depth)
    ensures WfMember(Pair(key, d), depth)
  {
    hide WfDoc;
    QuotePiecesExact(key);
  }

  lemma EnvelopeReads(v: Value, ft: FloatText)
    ensures ReadEnvelope(EnvelopeMeaning(v, ft)) ==
            JsonClaim(v.schema.name, v.schema.version, Some(v.schema.id), FieldTree(v, ft))
  {
    hide ReadInt64, ReadU32, ReadId, IdText, Decimal, FieldTree;
    KeysDiffer();
    var ms := EnvelopeMeaning(v, ft);
    FindInFive(ms);
    U32ReadsBack(v.schema.version);
    IdReadsBack(v.schema.id);
    assert ReadInt64(ENVELOPE_VERSION) == Some(1) by { OneReadsBack(); }
    assert forall i :: 0 <= i < |ms| ==> KnownKey(ms[i].key);
  }

  lemma OneReadsBack()
    ensures ReadInt64(ENVELOPE_VERSION) == Some(1)
  {
    IntReadsBack(1);
    DecimalOfOne();
  }

  lemma FindInFive(ms: seq<Member>)
    requires |ms| == 5
    requires ms[0].key == KEY_ZEN && ms[1].key == KEY_SCHEMA && ms[2].key == KEY_VERSION
    requires ms[3].key == KEY_ID && ms[4].key == KEY_FIELDS
    ensures Find(ms, KEY_ZEN) == Some(ms[0].value) && Find(ms, KEY_SCHEMA) == Some(ms[1].value)
    ensures Find(ms, KEY_VERSION) == Some(ms[2].value) && Find(ms, KEY_ID) == Some(ms[3].value)
    ensures Find(ms, KEY_FIELDS) == Some(ms[4].value)
  {
    KeysDiffer();
    FindAt(ms, 0);
    FindAt(ms, 1);
    FindAt(ms, 2);
    FindAt(ms, 3);
    FindAt(ms, 4);
  }

  lemma {:induction false} FindAt(ms: seq<Member>, i: nat)
    requires i < |ms| && forall j :: 0 <= j < i ==> ms[j].key != ms[i].key
    ensures Find(ms, ms[i].key) == Some(ms[i].value)
  {
    if i > 0 {
      assert ms[0].key != ms[i].key;
      forall j | 0 <= j < i - 1 ensures ms[1..][j].key != ms[1..][i - 1].key {
        assert ms[1..][j] == ms[j + 1] && ms[1..][i - 1] == ms[i];
      }
      FindAt(ms[1..], i - 1);
    }
  }

  /** What the JSON encoder writes parses to the claim of the value and the tree of its
      fields. */
  lemma ParseOfCompat(v: Value, s: Schema, ft: FloatText)
    requires Faithful(ft) && WfSchema(s) && Instance(v, s) && FitsJson(v, 0)
    ensures CompatParse(CompatSerialize(v, ft)) ==
            JsonClaim(v.schema.name, v.schema.version, Some(v.schema.id), FieldTree(v, ft))
  {
    hide *;
    var d, ms := DObject([], EnvelopeMembers(v, ft)), EnvelopeMeaning(v, ft);
    var b := CompatSerialize(v, ft);
    EnvelopeWf(v, s, 0, ft);
    EnvelopeText(v, ft);
    EnvelopeMeans(v, ft);
    EnvelopeReads(v, ft);
    assert IsDocument(b, JObject(ms)) by { BareDocument(d, JObject(ms)); }
    ParserIsExact(b, JObject(ms));
    ParsedEnvelope(b, ms);
  }

  lemma BareDocument(d: Doc, v: Json)
    requires WfDoc(d, 0) && d.DObject? && v == JObject(MembersMeaning(d.members))
    ensures IsDocument(Text(d), v)
  {
    hide Text, WfDoc, MembersMeaning;
    var it := Item([], d, []);
    assert [] + (Text(d) + []) == Text(d);
    assert WfItem(it, 0) && ItemText(it) == Text(d) && Meaning(it.doc) == v;
  }

  lemma ParsedEnvelope(b: bytes, ms: seq<Member>)
    requires ParseJson(b) == Some(JObject(ms))
    ensures CompatParse(b) == ReadEnvelope(ms)
  {
    hide ParseJson, ReadEnvelope;
  }

  // ---- and nothing deeper does ------------------------------------------------------------------

  /** The envelope as a document, under a limit high enough for it. */
  lemma EnvelopeUnderSomeLimit(v: Value, s: Schema, ft: FloatText) returns (it: Item, depth: int)
    requires Faithful(ft) && WfSchema(s) && Instance(v, s)
    ensures depth <= 0 && WfItem(it, depth) && ItemText(it) == CompatSerialize(v, ft)
    ensures Meaning(it.doc) == JObject(EnvelopeMeaning(v, ft))
  {
    hide Instance, WfSchema, CellFitsJson, EnvelopeMembers, EnvelopeMeaning, CompatSerialize, WfMember,
         MembersMeaning, DistinctKeys, MembersText;
    depth := SomeDepth(v, 0);
    var d := DObject([], EnvelopeMembers(v, ft));
    EnvelopeWf(v, s, depth, ft);
    EnvelopeText(v, ft);
    EnvelopeMeans(v, ft);
    it := Item([], d, []);
    assert [] + (Text(d) + []) == Text(d);
  }

  /** A value whose JSON text parses at all nests within the reader's limit. */
  lemma ParsedFits(v: Value, s: Schema, ft: FloatText)
    requires Faithful(ft) && WfSchema(s) && Instance(v, s) && ParseJson(CompatSerialize(v, ft)).Some?
    ensures FitsJson(v, 0)
  {
    hide Instance, WfSchema, FitsJson, CompatSerialize, ParseJson, WfItem, ItemText, Meaning, FieldTree;
    var b := CompatSerialize(v, ft);
    var root := ParseJson(b).value;
    ParserIsExact(b, root);
    var it: Item :| WfItem(it, 0) && ItemText(it) == b && Meaning(it.doc) == root;
    var jt, depth := EnvelopeUnderSomeLimit(v, s, ft);
    ItemHigherUp(it, 0, depth);
    OneMeaning(it, jt, depth);
    ItemNests(it, 0);
    assert EnvelopeMeaning(v, ft)[4].value == JObject(FieldTree(v, ft));
    NestedValueFits(v, s, 0, ft);
  }

  lemma ItemNests(it: Item, depth: int)
    requires WfItem(it, depth)
    ensures Nests(Meaning(it.doc), depth)
  {
    hide WfDoc, Nests, Meaning;
    DocNests(it.doc, depth);
  }

  lemma MalformedText(b: bytes)
    ensures ParseJson(b).None? ==> CompatParse(b).Malformed?
    ensures !CompatParse(b).NativeClaim?
  {
    hide ParseJson, Find, ReadInt64, ReadU32, ReadId;
  }

  /** Normalising changes no more than NaNs, and once. */
  lemma NormIsSame(v: Value)
    ensures SameValue(v, Norm(v)) && Norm(Norm(v)) == Norm(v)
  {
    hide SameValue, Norm;
    NormTwice(v);
    SameIsNorm(v, Norm(v));
  }

  lemma {:induction false} NormTwice(v: Value)
    ensures Norm(Norm(v)) == Norm(v)
    decreases v, 1
  {
    hide NormCell;
    forall i | 0 <= i < |v.slots| ensures Norm(Norm(v)).slots[i] == Norm(v).slots[i] {
      if v.slots[i].Some? {
        NormCellTwice(v.slots[i].value);
      }
    }
    assert Norm(Norm(v)).slots == Norm(v).slots;
  }

  lemma {:induction false} NormCellTwice(c: Cell)
    ensures NormCell(NormCell(c)) == NormCell(c)
    decreases c, 0
  {
    hide Norm;
    match c
    case MessageC(m) =>
      if m.Some? {
        NormTwice(m.value);
      }
    case ListC(cs) =>
      var ns := NormCell(c).cells;
      forall k | 0 <= k < |cs| ensures NormCell(ns[k]) == ns[k] {
        NormCellTwice(cs[k]);
      }
      assert NormCell(NormCell(c)).cells == ns;
    case _ =>
  }

  /** Parsing and admitting the JSON text of a conforming value returns it, NaNs normalised, exactly
      when its nested values claim the very schemas the door declares, its texts are UTF-8 and it
      nests no deeper than the reader goes. There is no cap on counts or sizes. An instance outside
      that is refused. */
  lemma CompatRoundTrip(v: Value, door: Schema, all: bool, ft: FloatText)
    requires Faithful(ft) && WfSchema(door) && Conforms(v, door)
    ensures var a := Admit(CompatParse(CompatSerialize(v, ft)), door, all, ft);
            && (a == Accepted(Norm(v)) <==> Instance(v, door) && TextsAreUtf8(v) && FitsJson(v, 0))
            && (a.Accepted? && SameValue(v, a.value) <==> Instance(v, door) && TextsAreUtf8(v) && FitsJson(v, 0))
    ensures Instance(v, door) && !(TextsAreUtf8(v) && FitsJson(v, 0)) ==>
              Admit(CompatParse(CompatSerialize(v, ft)), door, all, ft).Rejected?
  {
    hide CompatParse, CompatSerialize, DecodeObject, DocOfValue, Conforms, TextsAreUtf8, FitsJson, WfSchema, Norm, Instance,
         FieldTree, SameValue;
    var u := CompatParse(CompatSerialize(v, ft));
    var a := Admit(u, door, all, ft);
    NormIsSame(v);
    if a.Accepted? && (a.value == Norm(v) || SameValue(v, a.value)) {
      MalformedText(CompatSerialize(v, ft));
      DecodedObjectIsInstance(u.members, door, [], ft);
      SameIsNorm(v, a.value);
      NormKeepsInstance(v, door);
      NormKeepsInstance(a.value, door);
    }
    if Instance(v, door) {
      SchemaOfInstance(v, door);
      if !FitsJson(v, 0) {
        if ParseJson(CompatSerialize(v, ft)).Some? {
          ParsedFits(v, door, ft);
        }
        MalformedText(CompatSerialize(v, ft));
      } else {
        ParseOfCompat(v, door, ft);
        DecodeOfDocValue(v, door, [], ft);
        NormConforms(v, door);
        DiagnoseIsExact(Norm(v), door);
      }
    }
  }

  /** Within the native caps texts are UTF-8. */
  lemma {:induction false} CapsAreUtf8(v: Value, depth: nat)
    requires WithinCaps(v, depth)
    ensures TextsAreUtf8(v)
    decreases v, 1
  {
    hide CellWithinCaps, CellIsUtf8;
    forall i | 0 <= i < |v.slots| && v.slots[i].Some? ensures CellIsUtf8(v.slots[i].value) {
      CellCapsAreUtf8(v.slots[i].value, depth);
    }
  }

  lemma {:induction false} CellCapsAreUtf8(c: Cell, depth: nat)
    requires CellWithinCaps(c, depth)
    ensures CellIsUtf8(c)
    decreases c, 0
  {
    hide WithinCaps, TextsAreUtf8, ValidUtf8;
    match c
    case MessageC(m) =>
      if m.Some? {
        CapsAreUtf8(m.value, depth + 1);
      }
    case ListC(cs) =>
      forall k | 0 <= k < |cs| ensures CellIsUtf8(cs[k]) {
        CellCapsAreUtf8(cs[k], depth + 1);
      }
    case _ =>
  }

  /** The native bytes and the JSON text of an instance both admit as the same value exactly when
      it is within the caps of both formats and the schema name is UTF-8. */
  lemma FormatsAgree(v: Value, door: Schema, all: bool, ft: FloatText)
    requires Faithful(ft) && WfSchema(door) && Conforms(v, door) && Instance(v, door) && |door.name| <= 0xFFFF
    ensures Serialize(v).Some?
    ensures Admit(Parse(Serialize(v).value), door, all, ft) ==
            Admit(CompatParse(CompatSerialize(v, ft)), door, all, ft) == Accepted(Norm(v)) <==>
            WithinCaps(v, 0) && FitsJson(v, 0) && ValidUtf8(door.name)
  {
    hide Admit, Conforms, Instance, WithinCaps, FitsJson, TextsAreUtf8, ValidUtf8, Norm;
    assert v.schema == door by { SchemaOfInstance(v, door); }
    DecodeOfBody(v, door, [], 0, []);
    RoundTrip(v, door, all, ft);
    if WithinCaps(v, 0) {
      CapsAreUtf8(v, 0);
    }
    CompatRoundTrip(v, door, all, ft);
  }

  lemma SchemaOfInstance(v: Value, s: Schema)
    requires Instance(v, s)
    ensures v.schema == s
  {
  }
}
