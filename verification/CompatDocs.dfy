/** What the JSON encoder writes: the text of a document that decodes back to the value. */
module CompatDocs {
  import opened Bytes
  import opened Model
  import opened Utf8
  import opened Wire
  import opened Gate
  import opened Native
  import opened Canonical
  import opened Json
  import opened JsonGrammar
  import opened JsonTokens
  import opened Compat
  import Base64

  /** The number texts of finite doubles are JSON numbers and read back exactly. */
  ghost predicate Faithful(ft: FloatText) {
    forall bits: u64 :: IsFinite(bits) ==>
      IsNumberToken(ft.show(bits)) && ft.read(ft.show(bits)) == Some(bits)
  }

  // ---- number texts read back -------------------------------------------------------------

  lemma {:induction false} DecimalReadsBack(n: nat)
    ensures Decimal(n) != [] && AllDigits(Decimal(n)) && FromDecimal(Decimal(n)) == n
  {
    var t := Decimal(n);
    if n < 10 {
      assert t[..|t| - 1] == [];
    } else {
      DecimalReadsBack(n / 10);
      assert t[..|t| - 1] == Decimal(n / 10);
    }
  }

  lemma IntReadsBack(v: i64)
    ensures ReadInt64(IntText(v)) == Some(v)
    ensures forall k :: 0 <= k < |IntText(v)| ==> IsDigit(IntText(v)[k]) || IntText(v)[k] == MINUS
  {
    hide Decimal, FromDecimal;
    var n: int := v;
    var mag: nat := if n < 0 then -n else n;
    DecimalReadsBack(mag);
    if v < 0 {
      assert IntText(v)[1..] == Decimal(mag);
    } else {
      assert IsDigit(IntText(v)[0]);
    }
  }

  lemma U32ReadsBack(v: u32)
    ensures ReadU32(Decimal(v)) == Some(v)
  {
    DecimalReadsBack(v);
  }

  lemma HexCharReadsBack(d: nat)
    requires d < 16
    ensures HexDigit(HexChar(d)) == Some(d)
  {
  }

  lemma {:induction false} HexReadsBack(v: nat, n: nat)
    requires v < Pow16(n)
    ensures |HexText(v, n)| == n && FromHex(HexText(v, n)) == Some(v)
  {
    if n > 0 {
      HexReadsBack(v / 16, n - 1);
      HexCharReadsBack(v % 16);
      assert HexText(v, n)[..n - 1] == HexText(v / 16, n - 1);
    }
  }

  lemma IdReadsBack(id: u64)
    ensures ReadId(IdText(id)) == Some(id)
  {
    Pow16Of16();
    HexReadsBack(id, 16);
    assert IdText(id)[2..] == HexText(id, 16);
  }

  // ---- quoting is undone by reading -----------------------------------------------------------

  function QuotePiece(c: byte): Piece {
    if c == QUOTE || c == BACKSLASH then Short(c)
    else if c == 0x08 then Short(0x62)
    else if c == 0x0C then Short(0x66)
    else if c == 0x0A then Short(0x6E)
    else if c == 0x0D then Short(0x72)
    else if c == 0x09 then Short(0x74)
    else if c < 0x20 then Unit([0x30, 0x30, HexChar(c / 16), HexChar(c % 16)])
    else Piece.Plain(c)
  }

  function QuotePieces(s: bytes): seq<Piece> {
    if s == [] then [] else [QuotePiece(s[0])] + QuotePieces(s[1..])
  }

  lemma QuotePieceExact(c: byte)
    ensures var p := QuotePiece(c); WfPiece(p) && PieceText(p) == QuoteChar(c) && PieceMeaning(p) == [c]
  {
    if c < 0x20 {
      HexCharReadsBack(c / 16);
      HexCharReadsBack(c % 16);
    }
  }

  lemma {:induction false} QuotePiecesExact(s: bytes)
    ensures var ps := QuotePieces(s); WfPieces(ps) && PiecesText(ps) == QuoteChars(s) && PiecesMeaning(ps) == s
  {
    if s != [] {
      hide QuotePiece, QuoteChar, PieceText, PieceMeaning, WfPiece;
      QuotePieceExact(s[0]);
      QuotePiecesExact(s[1..]);
      var ps := QuotePieces(s);
      assert ps[1..] == QuotePieces(s[1..]);
      assert s == [s[0]] + s[1..];
    }
  }

  lemma QuoteIsLiteral(s: bytes)
    ensures LiteralText(QuotePieces(s)) == Quote(s) && Spelled(QuotePieces(s)) == s
  {
    QuotePiecesExact(s);
    Assoc([QUOTE], QuoteChars(s), [QUOTE]);
  }

  /** The string parser undoes the quoter on every byte string, consuming exactly the
      literal. */
  lemma ParseOfQuote(s: bytes, rest: bytes)
    ensures ParseString((Quote(s) + rest)[1..]) == Got(s, rest)
  {
    hide ParseString, QuotePieces, PiecesText, PiecesMeaning, QuoteChars;
    QuotePiecesExact(s);
    ParseOfPieces(QuotePieces(s), rest);
    Assoc(QuoteChars(s), [QUOTE], rest);
    assert (Quote(s) + rest)[1..] == (QuoteChars(s) + [QUOTE]) + rest;
  }

  predicate NeedsNoEscape(s: bytes) {
    forall k :: 0 <= k < |s| ==> s[k] >= 0x20 && s[k] != QUOTE && s[k] != BACKSLASH
  }

  lemma {:induction false} PlainQuotesAsItself(s: bytes)
    requires NeedsNoEscape(s)
    ensures Quote(s) == [QUOTE] + s + [QUOTE]
  {
    if s != [] {
      PlainQuotesAsItself(s[1..]);
      assert Quote(s[1..])[1..] == QuoteChars(s[1..]) + [QUOTE];
      assert ([QUOTE] + s[1..] + [QUOTE])[1..] == s[1..] + [QUOTE];
      assert QuoteChars(s[1..]) == s[1..] by {
        assert (QuoteChars(s[1..]) + [QUOTE])[..|QuoteChars(s[1..])|] == QuoteChars(s[1..]);
      }
      assert s == [s[0]] + s[1..];
    }
  }

  // ---- the document of a value ---------------------------------------------------------------------

  function DocOfCell(c: Cell, ft: FloatText): Doc
    decreases c, 0, 0
  {
    match c
    case IntC(i) => DString(QuotePieces(IntText(i)))
    case FloatC(bits) =>
      if IsNaN(bits) then DString(QuotePieces(NAN_TEXT))
      else if bits == POS_INFINITY then DString(QuotePieces(INF_TEXT))
      else if bits == NEG_INFINITY then DString(QuotePieces(NEG_INF_TEXT))
      else DNumber(ft.show(bits))
    case TextC(s) => DString(QuotePieces(s))
    case BoolC(b) => DBool(b)
    case BytesC(s) => DString(QuotePieces(Base64.Encode(s)))
    case MessageC(m) => if m.Some? then DocOfValue(m.value, ft) else DNull
    case ListC(cs) => DArray([], DocItems(cs, 0, ft))
  }

  function DocOfValue(v: Value, ft: FloatText): Doc
    decreases v, 1, 0
  {
    DObject([], DocMembers(v, 0, ft))
  }

  /** The tree of a value's fields. */
  function FieldTree(v: Value, ft: FloatText): seq<Member> {
    MembersMeaning(DocMembers(v, 0, ft))
  }

  /** The present fields from i on, as members. */
  function DocMembers(v: Value, i: nat, ft: FloatText): seq<DMember>
    requires i <= |v.schema.fields|
    decreases v, 0, |v.schema.fields| - i
  {
    if i == |v.schema.fields| then []
    else if i < |v.slots| && v.slots[i].Some? then
      [DMember([], QuotePieces(v.schema.fields[i].name), [], Item([], DocOfCell(v.slots[i].value, ft), []))]
      + DocMembers(v, i + 1, ft)
    else DocMembers(v, i + 1, ft)
  }

  function DocItems(cs: seq<Cell>, k: nat, ft: FloatText): seq<Item>
    requires k <= |cs|
    decreases cs, 0, |cs| - k
  {
    if k == |cs| then [] else [Item([], DocOfCell(cs[k], ft), [])] + DocItems(cs, k + 1, ft)
  }

  // ---- the encoder writes its text --------------------------------------------------------------------

  lemma {:induction false} CellJsonIsText(c: Cell, ft: FloatText)
    ensures Text(DocOfCell(c, ft)) == CellJson(c, ft)
    decreases c, 0, 0
  {
    hide MembersText, ItemsText, MembersJson, ElementsJson, DocMembers, DocItems, Quote, QuotePieces, LiteralText;
    match c
    case IntC(i) =>
      IntReadsBack(i);
      PlainQuotesAsItself(IntText(i));
      QuoteIsLiteral(IntText(i));
    case FloatC(bits) =>
      PlainQuotesAsItself(NAN_TEXT);
      QuoteIsLiteral(NAN_TEXT);
      PlainQuotesAsItself(INF_TEXT);
      QuoteIsLiteral(INF_TEXT);
      PlainQuotesAsItself(NEG_INF_TEXT);
      QuoteIsLiteral(NEG_INF_TEXT);
    case TextC(s) => QuoteIsLiteral(s);
    case BoolC(_) =>
    case BytesC(s) => QuoteIsLiteral(Base64.Encode(s));
    case MessageC(m) =>
      if m.Some? {
        ObjectJsonIsText(m.value, ft);
      }
    case ListC(cs) =>
      ElementsJsonIsText(cs, 0, ft);
      assert [] + [CLOSE_BRACKET] == [CLOSE_BRACKET];
      Assoc([OPEN_BRACKET], ElementsJson(cs, 0, ft), [CLOSE_BRACKET]);
  }

  lemma {:induction false} ObjectJsonIsText(v: Value, ft: FloatText)
    ensures Text(DocOfValue(v, ft)) == ObjectJson(v, ft)
    decreases v, 1, 0
  {
    hide MembersText, MembersJson, DocMembers;
    MembersJsonIsText(v, 0, true, ft);
    assert [] + [CLOSE_BRACE] == [CLOSE_BRACE];
    Assoc([OPEN_BRACE], MembersJson(v, 0, true, ft), [CLOSE_BRACE]);
  }

  /** The text of the members from i on and of the closing brace, after a comma unless
      they come first. */
  function MembersTail(ms: seq<DMember>, first: bool): bytes {
    if ms == [] then [CLOSE_BRACE] else (if first then [] else [COMMA]) + MembersText(ms)
  }

  lemma {:induction false} MembersJsonIsText(v: Value, i: nat, first: bool, ft: FloatText)
    requires i <= |v.schema.fields|
    ensures MembersJson(v, i, first, ft) + [CLOSE_BRACE] == MembersTail(DocMembers(v, i, ft), first)
    decreases v, 0, |v.schema.fields| - i
  {
    hide MembersText, CellJson, Quote, Text, QuotePieces;
    if i < |v.schema.fields| {
      if i < |v.slots| && v.slots[i].Some? {
        MembersJsonIsText(v, i + 1, false, ft);
        MemberJsonIsText(v, i, first, ft);
      } else {
        MembersJsonIsText(v, i + 1, first, ft);
      }
    }
  }

  lemma {:induction false} MemberJsonIsText(v: Value, i: nat, first: bool, ft: FloatText)
    requires i < |v.schema.fields| && i < |v.slots| && v.slots[i].Some?
    requires MembersJson(v, i + 1, false, ft) + [CLOSE_BRACE] == MembersTail(DocMembers(v, i + 1, ft), false)
    ensures MembersJson(v, i, first, ft) + [CLOSE_BRACE] == MembersTail(DocMembers(v, i, ft), first)
    decreases v, 0, 0
  {
    hide CellJson, Quote, Text, LiteralText, QuotePieces;
    var name, c := v.schema.fields[i].name, v.slots[i].value;
    CellJsonIsText(c, ft);
    QuoteIsLiteral(name);
    var rest := MembersJson(v, i + 1, false, ft);
    var tail := rest + [CLOSE_BRACE];
    var m := DMember([], QuotePieces(name), [], Item([], DocOfCell(c, ft), []));
    var ms := DocMembers(v, i, ft);
    assert ms[1..] == DocMembers(v, i + 1, ft);
    assert MemberText(m) == Quote(name) + ([COLON] + CellJson(c, ft)) by { MemberTextPlain(m); }
    assert MembersText(ms) == MemberText(m) + tail;
    Assoc(CellJson(c, ft), rest, [CLOSE_BRACE]);
    Assoc([COLON], CellJson(c, ft), tail);
    Assoc([COLON], CellJson(c, ft) + rest, [CLOSE_BRACE]);
    Assoc(Quote(name), [COLON] + CellJson(c, ft), tail);
    Assoc(Quote(name), [COLON] + (CellJson(c, ft) + rest), [CLOSE_BRACE]);
    Assoc(if first then [] else [COMMA], Quote(name) + ([COLON] + (CellJson(c, ft) + rest)), [CLOSE_BRACE]);
  }

  lemma MemberTextPlain(m: DMember)
    requires m.lead == [] && m.mid == [] && m.item.before == [] && m.item.after == []
    ensures MemberText(m) == LiteralText(m.key) + ([COLON] + Text(m.item.doc))
  {
    hide LiteralText, Text;
    assert ItemText(m.item) == Text(m.item.doc);
  }

  /** The text of the elements from k on and of the closing bracket. */
  function ItemsTail(items: seq<Item>, k: nat): bytes {
    if items == [] then [CLOSE_BRACKET] else (if k == 0 then [] else [COMMA]) + ItemsText(items)
  }

  lemma {:induction false} ElementsJsonIsText(cs: seq<Cell>, k: nat, ft: FloatText)
    requires k <= |cs|
    ensures ElementsJson(cs, k, ft) + [CLOSE_BRACKET] == ItemsTail(DocItems(cs, k, ft), k)
    decreases cs, 0, |cs| - k
  {
    hide CellJson, Text;
    if k < |cs| {
      CellJsonIsText(cs[k], ft);
      ElementsJsonIsText(cs, k + 1, ft);
      var it := Item([], DocOfCell(cs[k], ft), []);
      var items, rest := DocItems(cs, k, ft), ElementsJson(cs, k + 1, ft);
      assert items[1..] == DocItems(cs, k + 1, ft);
      assert ItemText(it) == CellJson(cs[k], ft);
      assert ItemsText(items) == ItemText(it) + (rest + [CLOSE_BRACKET]);
      Assoc(CellJson(cs[k], ft), rest, [CLOSE_BRACKET]);
      Assoc(if k == 0 then [] else [COMMA], CellJson(cs[k], ft) + rest, [CLOSE_BRACKET]);
    }
  }

  // ---- the document is well-formed -----------------------------------------------------------------------

  /** A cell at native depth `depth` (the root body being 0) fits the parser's nesting cap:
      a container there is at JSON depth `depth` + 2, inside the envelope and the fields. */
  predicate CellFitsJson(c: Cell, depth: int)
    decreases c, 0
  {
    match c
    case MessageC(m) => m.Some? ==> depth + 2 < JSON_MAX_DEPTH && FitsJson(m.value, depth + 1)
    case ListC(cs) =>
      depth + 2 < JSON_MAX_DEPTH && forall k :: 0 <= k < |cs| ==> CellFitsJson(cs[k], depth + 1)
    case _ => true
  }

  predicate FitsJson(v: Value, depth: int)
    decreases v, 1
  {
    forall i :: 0 <= i < |v.slots| && v.slots[i].Some? ==> CellFitsJson(v.slots[i].value, depth)
  }

  /** key is the name of a field from i on. */
  predicate Names(fs: seq<Field>, i: nat, key: bytes) {
    exists j :: i <= j < |fs| && fs[j].name == key
  }

  predicate KeysAreNames(ms: seq<Member>, fs: seq<Field>, i: nat) {
    forall k :: 0 <= k < |ms| ==> Names(fs, i, ms[k].key)
  }

  lemma {:induction false} MembersAreFields(v: Value, i: nat, ft: FloatText)
    requires i <= |v.schema.fields|
    ensures KeysAreNames(MembersMeaning(DocMembers(v, i, ft)), v.schema.fields, i)
    decreases |v.schema.fields| - i
  {
    hide DocOfCell, Meaning, QuotePieces, Spelled;
    var fs := v.schema.fields;
    if i < |fs| {
      MembersAreFields(v, i + 1, ft);
      var ms, tail := MembersMeaning(DocMembers(v, i, ft)), MembersMeaning(DocMembers(v, i + 1, ft));
      assert KeysAreNames(tail, fs, i) by {
        forall k | 0 <= k < |tail| ensures Names(fs, i, tail[k].key) {
          assert Names(fs, i + 1, tail[k].key);
        }
      }
      if i < |v.slots| && v.slots[i].Some? {
        FirstMember(v, i, ft);
        assert Names(fs, i, fs[i].name);
        assert forall k :: 0 < k < |ms| ==> ms[k] == tail[k - 1];
      }
    }
  }

  lemma FirstMember(v: Value, i: nat, ft: FloatText)
    requires i < |v.schema.fields| && i < |v.slots| && v.slots[i].Some?
    ensures MembersMeaning(DocMembers(v, i, ft)) ==
            [Member(v.schema.fields[i].name, Meaning(DocOfCell(v.slots[i].value, ft)))]
            + MembersMeaning(DocMembers(v, i + 1, ft))
  {
    hide DocOfCell, Meaning, QuotePieces, Spelled;
    QuoteIsLiteral(v.schema.fields[i].name);
    assert DocMembers(v, i, ft)[1..] == DocMembers(v, i + 1, ft);
  }

  lemma {:induction false} MembersAreDistinct(v: Value, i: nat, ft: FloatText)
    requires i <= |v.schema.fields| && DistinctNames(v.schema.fields)
    ensures DistinctKeys(MembersMeaning(DocMembers(v, i, ft)))
    decreases |v.schema.fields| - i
  {
    hide DocOfCell, Meaning, QuotePieces, Spelled;
    if i < |v.schema.fields| {
      MembersAreDistinct(v, i + 1, ft);
      if i < |v.slots| && v.slots[i].Some? {
        MembersAreFields(v, i + 1, ft);
        FirstMember(v, i, ft);
        var tail := MembersMeaning(DocMembers(v, i + 1, ft));
        forall k | 0 <= k < |tail| ensures tail[k].key != v.schema.fields[i].name {
          assert Names(v.schema.fields, i + 1, tail[k].key);
        }
      }
    }
  }

  lemma {:induction false} DocOfCellWf(c: Cell, t: Type, depth: int, ft: FloatText)
    requires Faithful(ft) && WfType(t) && CellInstance(c, t) && CellFitsJson(c, depth)
    ensures WfDoc(DocOfCell(c, ft), depth + 2)
    decreases c, 0, 0
  {
    hide DocMembers, DocItems, QuotePieces, IsNumberToken, WfPieces, WfItem, WfMember, PiecesText, PiecesMeaning,
         Instance, FitsJson, WfSchema;
    match c
    case IntC(i) => QuotePiecesExact(IntText(i));
    case FloatC(bits) =>
      QuotePiecesExact(NAN_TEXT);
      QuotePiecesExact(INF_TEXT);
      QuotePiecesExact(NEG_INF_TEXT);
      SpecialFloats(bits);
    case TextC(s) => QuotePiecesExact(s);
    case BoolC(_) =>
    case BytesC(s) => QuotePiecesExact(Base64.Encode(s));
    case MessageC(m) => DocOfValueWf(m.value, t.schema, depth + 1, ft);
    case ListC(cs) =>
      assert ElementInstances(cs, t.elem);
      DocItemsWf(cs, 0, t.elem, depth + 1, ft);
      assert AllWfItems(DocItems(cs, 0, ft), depth + 3);
  }

  /** A double is finite, an infinity, or a NaN. */
  lemma SpecialFloats(bits: u64)
    ensures IsFinite(bits) || IsNaN(bits) || bits == POS_INFINITY || bits == NEG_INFINITY
    ensures IsFinite(bits) ==> !IsNaN(bits) && bits != POS_INFINITY && bits != NEG_INFINITY
  {
  }

  lemma {:induction false} DocOfValueWf(v: Value, s: Schema, depth: int, ft: FloatText)
    requires Faithful(ft) && WfSchema(s) && Instance(v, s) && FitsJson(v, depth) && depth < JSON_MAX_DEPTH - 1
    ensures WfDoc(DocOfValue(v, ft), depth + 1)
    decreases v, 1, 0
  {
    hide DocMembers, WfMember;
    MembersAreDistinct(v, 0, ft);
    DocMembersWf(v, 0, depth, ft);
    assert AllWfMembers(DocMembers(v, 0, ft), depth + 2);
  }

  lemma {:induction false} DocMembersWf(v: Value, i: nat, depth: int, ft: FloatText)
    requires Faithful(ft) && WfSchema(v.schema) && Instance(v, v.schema) && FitsJson(v, depth)
    requires i <= |v.schema.fields|
    ensures AllWfMembers(DocMembers(v, i, ft), depth + 2)
    decreases v, 0, |v.schema.fields| - i
  {
    hide DocOfCell, WfPieces, QuotePieces, WfDoc, PiecesText, PiecesMeaning;
    if i < |v.schema.fields| {
      DocMembersWf(v, i + 1, depth, ft);
      if v.slots[i].Some? {
        DocOfCellWf(v.slots[i].value, v.schema.fields[i].ty, depth, ft);
        QuotePiecesExact(v.schema.fields[i].name);
        var ms, tail := DocMembers(v, i, ft), DocMembers(v, i + 1, ft);
        assert WfMember(ms[0], depth + 2);
        assert forall k :: 0 < k < |ms| ==> ms[k] == tail[k - 1];
      }
    }
  }

  ghost predicate AllWfMembers(ms: seq<DMember>, depth: int) {
    forall k :: 0 <= k < |ms| ==> WfMember(ms[k], depth)
  }

  ghost predicate AllWfItems(items: seq<Item>, depth: int) {
    forall k :: 0 <= k < |items| ==> WfItem(items[k], depth)
  }

  lemma {:induction false} DocItemsWf(cs: seq<Cell>, k: nat, t: Type, depth: int, ft: FloatText)
    requires Faithful(ft) && WfType(t) && ElementInstances(cs, t) && k <= |cs|
    requires forall j :: 0 <= j < |cs| ==> CellFitsJson(cs[j], depth)
    ensures AllWfItems(DocItems(cs, k, ft), depth + 2)
    decreases cs, 0, |cs| - k
  {
    hide DocOfCell, WfDoc;
    if k < |cs| {
      DocOfCellWf(cs[k], t, depth, ft);
      DocItemsWf(cs, k + 1, t, depth, ft);
      var items, tail := DocItems(cs, k, ft), DocItems(cs, k + 1, ft);
      assert WfItem(items[0], depth + 2);
      assert forall j :: 0 < j < |items| ==> items[j] == tail[j - 1];
    }
  }

  // ---- the document decodes to the value --------------------------------------------------------------------

  /** Looking a field up among the members from i on. */
  lemma {:induction false} FindField(v: Value, i: nat, j: nat, ft: FloatText)
    requires DistinctNames(v.schema.fields) && |v.slots| == |v.schema.fields| && i <= j < |v.slots|
    ensures Find(MembersMeaning(DocMembers(v, i, ft)), v.schema.fields[j].name) ==
            if v.slots[j].Some? then Some(Meaning(DocOfCell(v.slots[j].value, ft))) else None
    decreases |v.slots| - i
  {
    hide DocOfCell, Meaning, QuotePieces, Spelled;
    var ms := MembersMeaning(DocMembers(v, i, ft));
    if v.slots[i].Some? {
      FirstMember(v, i, ft);
      assert ms[1..] == MembersMeaning(DocMembers(v, i + 1, ft));
    }
    if i < j {
      FindField(v, i + 1, j, ft);
    } else if v.slots[i].None? {
      MembersAreFields(v, i + 1, ft);
      forall k | 0 <= k < |ms| ensures ms[k].key != v.schema.fields[j].name {
        assert Names(v.schema.fields, i + 1, ms[k].key);
      }
      NotFound(ms, v.schema.fields[j].name);
    }
  }

  lemma {:induction false} NotFound(ms: seq<Member>, key: bytes)
    requires forall k :: 0 <= k < |ms| ==> ms[k].key != key
    ensures Find(ms, key).None?
  {
    if ms != [] {
      NotFound(ms[1..], key);
    }
  }

  lemma {:induction false} NothingUndeclared(ms: seq<Member>, door: Schema, base: bytes)
    requires KeysAreNames(ms, door.fields, 0)
    ensures Undeclared(ms, door, base) == []
  {
    if ms != [] {
      assert Names(door.fields, 0, ms[0].key);
      NothingUndeclared(ms[1..], door, base);
    }
  }

  lemma DecodeOfFloat(bits: u64, path: bytes, ft: FloatText)
    requires Faithful(ft)
    ensures DecodeNode(Meaning(DocOfCell(FloatC(bits), ft)), FloatT, path, ft) == Decoded(Some(FloatC(NormFloat(bits))), [])
  {
    hide QuotePieces, Spelled, IsNumberToken;
    QuoteIsLiteral(NAN_TEXT);
    QuoteIsLiteral(INF_TEXT);
    QuoteIsLiteral(NEG_INF_TEXT);
    SpecialFloats(bits);
  }

  /** Every text, at any depth, is UTF-8: the one thing the JSON encoder does not check and the
      decoder does. */
  predicate CellIsUtf8(c: Cell)
    decreases c, 0
  {
    match c
    case TextC(s) => ValidUtf8(s)
    case MessageC(m) => m.Some? ==> TextsAreUtf8(m.value)
    case ListC(cs) => forall k :: 0 <= k < |cs| ==> CellIsUtf8(cs[k])
    case _ => true
  }

  predicate TextsAreUtf8(v: Value)
    decreases v, 1
  {
    forall i :: 0 <= i < |v.slots| && v.slots[i].Some? ==> CellIsUtf8(v.slots[i].value)
  }

  predicate ElementsAreUtf8(cs: seq<Cell>, k: nat) { forall j :: k <= j < |cs| ==> CellIsUtf8(cs[j]) }

  predicate SlotsAreUtf8(v: Value, i: nat) {
    forall j :: i <= j < |v.slots| && v.slots[j].Some? ==> CellIsUtf8(v.slots[j].value)
  }

  lemma DecodeOfText(c: Cell, t: Type, path: bytes, ft: FloatText)
    requires CellInstance(c, t) && (c.IntC? || c.TextC? || c.BytesC?)
    ensures DecodeNode(Meaning(DocOfCell(c, ft)), t, path, ft) ==
            if CellIsUtf8(c) then Decoded(Some(c), []) else Decoded(None, [Error(MalformedField, path)])
  {
    hide QuotePieces, Spelled, Base64.Encode, Base64.Decode, IntText, ReadInt64, ValidUtf8;
    match c
    case IntC(i) =>
      QuoteIsLiteral(IntText(i));
      IntReadsBack(i);
    case TextC(s) => QuoteIsLiteral(s);
    case BytesC(s) =>
      QuoteIsLiteral(Base64.Encode(s));
      Base64.DecodeOfEncode(s);
  }

  lemma {:induction false} DecodeOfDocCell(c: Cell, t: Type, path: bytes, ft: FloatText)
    requires Faithful(ft) && WfType(t) && CellInstance(c, t)
    ensures var d := DecodeNode(Meaning(DocOfCell(c, ft)), t, path, ft);
            if CellIsUtf8(c) then d == Decoded(Some(NormCell(c)), []) else d.errs != []
    decreases c, 0, 0
  {
    hide DocMembers, DocItems, QuotePieces, Spelled, MembersMeaning, ItemsMeaning, DecodeObject, DecodeItems, Norm,
         ValidUtf8;
    match c
    case FloatC(bits) => DecodeOfFloat(bits, path, ft);
    case BoolC(_) =>
    case MessageC(m) => DecodeOfDocValue(m.value, t.schema, path, ft);
    case ListC(cs) =>
      assert ElementInstances(cs, t.elem);
      DecodeOfDocItems(cs, 0, t.elem, path, ft);
      assert CellIsUtf8(c) <==> ElementsAreUtf8(cs, 0);
      assert NormCells(cs)[0..] == NormCells(cs);
    case _ => DecodeOfText(c, t, path, ft);
  }

  /** The tree of an instance decodes without error exactly when its texts are UTF-8, and then
      to the instance, NaNs normalised. No count, size or nesting matters. */
  lemma {:induction false} DecodeOfDocValue(v: Value, s: Schema, base: bytes, ft: FloatText)
    requires Faithful(ft) && WfSchema(s) && Instance(v, s)
    ensures var d := DecodeObject(FieldTree(v, ft), s, base, ft);
            if TextsAreUtf8(v) then d == Decoded(Norm(v), []) else d.errs != []
    decreases v, 2, 0
  {
    hide DocMembers, MembersMeaning, DecodeSlots, CellIsUtf8;
    MembersAreFields(v, 0, ft);
    NothingUndeclared(MembersMeaning(DocMembers(v, 0, ft)), s, base);
    DecodeOfDocSlots(v, 0, base, ft);
    assert TextsAreUtf8(v) <==> SlotsAreUtf8(v, 0);
    assert Norm(v).slots[0..] == Norm(v).slots;
  }

  lemma {:induction false} DecodeOfDocSlots(v: Value, i: nat, base: bytes, ft: FloatText)
    requires Faithful(ft) && WfSchema(v.schema) && Instance(v, v.schema) && i <= |v.slots|
    ensures var d := DecodeSlots(MembersMeaning(DocMembers(v, 0, ft)), v.schema, i, base, ft);
            if SlotsAreUtf8(v, i) then d == Decoded(Norm(v).slots[i..], []) else d.errs != []
    decreases v, 1, |v.slots| - i
  {
    hide DocMembers, MembersMeaning, DecodeNode, DocOfCell, NormCell, Find, CellIsUtf8;
    if i < |v.slots| {
      FindField(v, 0, i, ft);
      DecodeOfDocSlots(v, i + 1, base, ft);
      assert SlotsAreUtf8(v, i) <==> SlotsAreUtf8(v, i + 1) && (v.slots[i].Some? ==> CellIsUtf8(v.slots[i].value));
      assert Norm(v).slots[i..] == [Norm(v).slots[i]] + Norm(v).slots[i + 1..];
      if v.slots[i].Some? {
        var f := v.schema.fields[i];
        DecodeOfDocCell(v.slots[i].value, f.ty, JoinField(base, f.name), ft);
      }
    } else {
      assert Norm(v).slots[i..] == [];
    }
  }

  lemma {:induction false} DecodeOfDocItems(cs: seq<Cell>, k: nat, t: Type, path: bytes, ft: FloatText)
    requires Faithful(ft) && WfType(t) && ElementInstances(cs, t) && k <= |cs|
    ensures var items := ItemsMeaning(DocItems(cs, 0, ft));
            && |items| == |cs|
            && var d := DecodeItems(items, k, t, path, ft);
               if ElementsAreUtf8(cs, k) then d == Decoded(NormCells(cs)[k..], []) else d.errs != []
    decreases cs, 1, |cs| - k
  {
    hide DecodeNode, DocOfCell, NormCell, ItemsMeaning, DocItems, Meaning, CellIsUtf8;
    ItemMeaningAt(cs, 0, ft);
    if k < |cs| {
      DecodeOfDocCell(cs[k], t, JoinIndex(path, k), ft);
      DecodeOfDocItems(cs, k + 1, t, path, ft);
      assert ElementsAreUtf8(cs, k) <==> CellIsUtf8(cs[k]) && ElementsAreUtf8(cs, k + 1);
      assert NormCells(cs)[k..] == [NormCell(cs[k])] + NormCells(cs)[k + 1..];
    } else {
      assert NormCells(cs)[k..] == [];
    }
  }

  lemma {:induction false} ItemMeaningAt(cs: seq<Cell>, k: nat, ft: FloatText)
    requires k <= |cs|
    ensures var items := ItemsMeaning(DocItems(cs, k, ft));
            |items| == |cs| - k && forall j :: 0 <= j < |items| ==> items[j] == Meaning(DocOfCell(cs[k + j], ft))
    decreases |cs| - k
  {
    hide DocOfCell, Meaning;
    if k < |cs| {
      ItemMeaningAt(cs, k + 1, ft);
      assert DocItems(cs, k, ft)[1..] == DocItems(cs, k + 1, ft);
    }
  }
}
