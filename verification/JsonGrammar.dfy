/** The JSON grammar of RFC 8259, sections 2 to 7, as concrete syntax trees, and the
    exactness of the reader: it accepts the texts of well-formed trees and nothing else. */
module JsonGrammar {
  import opened Bytes
  import opened Utf8
  import opened Json

  // ---- syntax trees, their text and their meaning -------------------------------------

  /** One element of a string literal (RFC 8259, section 7): a plain octet, a two-character
      escape, a \u escape, or a surrogate pair. Octets from 0x80 stand for themselves. */
  datatype Piece = Plain(c: byte) | Short(e: byte) | Unit(h: bytes) | Pair(hi: bytes, lo: bytes)

  predicate WfPiece(p: Piece) {
    match p
    case Plain(c) => c >= 0x20 && c != QUOTE && c != BACKSLASH
    case Short(e) => Unescape(e).Some?
    case Unit(h) =>
      |h| == 4 && Hex4Value(h).Some? && !IsHigh(Hex4Value(h).value) && !IsLow(Hex4Value(h).value)
    case Pair(hi, lo) =>
      && |hi| == 4 && Hex4Value(hi).Some? && IsHigh(Hex4Value(hi).value)
      && |lo| == 4 && Hex4Value(lo).Some? && IsLow(Hex4Value(lo).value)
  }

  function PieceText(p: Piece): (r: bytes)
    ensures r != []
  {
    match p
    case Plain(c) => [c]
    case Short(e) => [BACKSLASH, e]
    case Unit(h) => [BACKSLASH, 0x75] + h
    case Pair(hi, lo) => [BACKSLASH, 0x75] + (hi + ([BACKSLASH, 0x75] + lo))
  }

  function PieceMeaning(p: Piece): bytes
    requires WfPiece(p)
  {
    match p
    case Plain(c) => [c]
    case Short(e) => [Unescape(e).value]
    case Unit(h) => EncodeUtf8(Hex4Value(h).value)
    case Pair(hi, lo) => EncodeUtf8(Joined(Hex4Value(hi).value, Hex4Value(lo).value))
  }

  predicate WfPieces(ps: seq<Piece>) { forall i :: 0 <= i < |ps| ==> WfPiece(ps[i]) }

  function PiecesText(ps: seq<Piece>): bytes {
    if ps == [] then [] else PieceText(ps[0]) + PiecesText(ps[1..])
  }

  function PiecesMeaning(ps: seq<Piece>): bytes
    requires WfPieces(ps)
  {
    if ps == [] then [] else PieceMeaning(ps[0]) + PiecesMeaning(ps[1..])
  }

  /** A string literal, quotes included. */
  function LiteralText(ps: seq<Piece>): bytes { [QUOTE] + (PiecesText(ps) + [QUOTE]) }

  /** A number (section 6): minus, whole part, fraction, exponent. */
  datatype Exponent = Exponent(mark: byte, sign: bytes, digits: bytes)
  datatype Number = Number(neg: bool, whole: bytes, fraction: Option<bytes>, exponent: Option<Exponent>)

  predicate Digits(b: bytes) { forall i :: 0 <= i < |b| ==> IsDigit(b[i]) }

  predicate WfNumber(n: Number) {
    && n.whole != [] && Digits(n.whole) && (n.whole[0] == 0x30 ==> |n.whole| == 1)
    && (n.fraction.Some? ==> n.fraction.value != [] && Digits(n.fraction.value))
    && WfExponent(n.exponent)
  }

  predicate WfExponent(e: Option<Exponent>) {
    match e
    case None => true
    case Some(x) =>
      && (x.mark == 0x65 || x.mark == 0x45)
      && (x.sign == [] || x.sign == [0x2B] || x.sign == [MINUS])
      && x.digits != [] && Digits(x.digits)
  }

  function FractionText(f: Option<bytes>): bytes {
    if f.Some? then [0x2E] + f.value else []
  }

  function ExponentText(e: Option<Exponent>): bytes {
    if e.Some? then [e.value.mark] + (e.value.sign + e.value.digits) else []
  }

  function NumberText(n: Number): bytes {
    (if n.neg then [MINUS] else []) + (n.whole + (FractionText(n.fraction) + ExponentText(n.exponent)))
  }

  ghost predicate IsNumberToken(t: bytes) {
    exists n: Number :: WfNumber(n) && NumberText(n) == t
  }

  /** A value (section 3), with the whitespace around its parts. */
  datatype Doc =
    | DNull
    | DBool(b: bool)
    | DNumber(token: bytes)
    | DString(pieces: seq<Piece>)
    | DArray(pad: bytes, items: seq<Item>)
    | DObject(pad: bytes, members: seq<DMember>)

  /** A value between whitespace. */
  datatype Item = Item(before: bytes, doc: Doc, after: bytes)

  datatype DMember = DMember(lead: bytes, key: seq<Piece>, mid: bytes, item: Item)

  predicate Blank(ws: bytes) { forall i :: 0 <= i < |ws| ==> IsWs(ws[i]) }

  predicate DistinctKeys(ms: seq<Member>) {
    forall i, j :: 0 <= i < j < |ms| ==> ms[i].key != ms[j].key
  }

  /** Well-formed at a depth: RFC 8259, nesting at most 64, object keys unique. */
  ghost predicate WfDoc(d: Doc, depth: int)
    decreases d, 0
  {
    match d
    case DNumber(t) => IsNumberToken(t)
    case DString(ps) => WfPieces(ps)
    case DArray(pad, items) =>
      depth < JSON_MAX_DEPTH && Blank(pad) && forall i :: 0 <= i < |items| ==> WfItem(items[i], depth + 1)
    case DObject(pad, ms) =>
      && depth < JSON_MAX_DEPTH && Blank(pad)
      && (forall i :: 0 <= i < |ms| ==> WfMember(ms[i], depth + 1))
      && DistinctKeys(MembersMeaning(ms))
    case _ => true
  }

  ghost predicate WfItem(it: Item, depth: int)
    decreases it, 1
  {
    Blank(it.before) && Blank(it.after) && WfDoc(it.doc, depth)
  }

  ghost predicate WfMember(m: DMember, depth: int)
    decreases m, 1
  {
    Blank(m.lead) && WfPieces(m.key) && Blank(m.mid) && WfItem(m.item, depth)
  }

  function Text(d: Doc): bytes
    decreases d, 0
  {
    match d
    case DNull => NULL_TEXT
    case DBool(b) => if b then TRUE_TEXT else FALSE_TEXT
    case DNumber(t) => t
    case DString(ps) => LiteralText(ps)
    case DArray(pad, items) =>
      [OPEN_BRACKET] + (if items == [] then pad + [CLOSE_BRACKET] else ItemsText(items))
    case DObject(pad, ms) =>
      [OPEN_BRACE] + (if ms == [] then pad + [CLOSE_BRACE] else MembersText(ms))
  }

  /** The elements and the closing bracket. */
  function ItemsText(items: seq<Item>): bytes
    requires items != []
    decreases items, 1
  {
    ItemText(items[0]) + (if |items| == 1 then [CLOSE_BRACKET] else [COMMA] + ItemsText(items[1..]))
  }

  function ItemText(it: Item): bytes
    decreases it, 1
  {
    it.before + (Text(it.doc) + it.after)
  }

  function MembersText(ms: seq<DMember>): bytes
    requires ms != []
    decreases ms, 1
  {
    MemberText(ms[0]) + (if |ms| == 1 then [CLOSE_BRACE] else [COMMA] + MembersText(ms[1..]))
  }

  function MemberText(m: DMember): bytes
    decreases m, 1
  {
    m.lead + (LiteralText(m.key) + (m.mid + ([COLON] + ItemText(m.item))))
  }

  function Meaning(d: Doc): Json
    decreases d, 0
  {
    match d
    case DNull => JNull
    case DBool(b) => JBool(b)
    case DNumber(t) => JNumber(t)
    case DString(ps) => JString(Spelled(ps))
    case DArray(_, items) => JArray(ItemsMeaning(items))
    case DObject(_, ms) => JObject(MembersMeaning(ms))
  }

  function ItemsMeaning(items: seq<Item>): (r: seq<Json>)
    ensures |r| == |items|
    decreases items, 0
  {
    if items == [] then [] else [Meaning(items[0].doc)] + ItemsMeaning(items[1..])
  }

  function MembersMeaning(ms: seq<DMember>): (r: seq<Member>)
    ensures |r| == |ms|
    decreases ms, 0
  {
    if ms == [] then [] else [MemberMeaning(ms[0])] + MembersMeaning(ms[1..])
  }

  function MemberMeaning(m: DMember): Member
    decreases m, 0
  {
    Member(Spelled(m.key), Meaning(m.item.doc))
  }

  /** The characters of a literal; ill-formed pieces spell nothing. */
  function Spelled(ps: seq<Piece>): bytes {
    if WfPieces(ps) then PiecesMeaning(ps) else []
  }

  /** b is the text of a document meaning v. */
  ghost predicate IsDocument(b: bytes, v: Json) {
    exists it: Item :: WfItem(it, 0) && ItemText(it) == b && Meaning(it.doc) == v
  }
}
