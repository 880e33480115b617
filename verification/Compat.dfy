/** The compatibility codec (src/serialize.cpp, namespace compat): values as JSON text,
    and the schema-guided decoder of a parsed tree. */
module Compat {
  import opened Bytes
  import opened Model
  import opened Utf8
  import opened Wire
  import opened Gate
  import opened Json
  import Base64

  // ---- number texts ---------------------------------------------------------------------

  /** Decimal text of finite doubles (std::to_chars, std::from_chars), a parameter of
      the codec. */
  datatype FloatText = FloatText(show: u64 -> bytes, read: bytes -> Option<u64>)

  predicate IsFinite(bits: u64) { bits / 0x10_0000_0000_0000 % 0x800 != 0x7FF }

  const POS_INFINITY: u64 := 0x7FF0_0000_0000_0000
  const NEG_INFINITY: u64 := 0xFFF0_0000_0000_0000

  const NAN_TEXT: bytes := [0x4E, 0x61, 0x4E]
  const INF_TEXT: bytes := [0x49, 0x6E, 0x66, 0x69, 0x6E, 0x69, 0x74, 0x79]
  const NEG_INF_TEXT: bytes := [MINUS] + INF_TEXT

  function IntText(v: int): bytes {
    if v < 0 then [MINUS] + Decimal(-v) else Decimal(v)
  }

  predicate AllDigits(t: bytes) { forall i :: 0 <= i < |t| ==> IsDigit(t[i]) }

  function FromDecimal(t: bytes): nat
    requires AllDigits(t)
  {
    if t == [] then 0 else FromDecimal(t[..|t| - 1]) * 10 + (t[|t| - 1] - 0x30)
  }

  /** std::from_chars into a 64-bit signed integer, the whole text consumed. */
  function ReadInt64(t: bytes): Option<i64> {
    var neg := StartsWith(t, MINUS);
    var ds := if neg then t[1..] else t;
    if ds == [] || !AllDigits(ds) then None
    else
      var n: int := FromDecimal(ds);
      if neg then if n <= TWO_63 then Some(-n) else None
      else if n < TWO_63 then Some(n) else None
  }

  /** std::from_chars into a 32-bit unsigned integer, the whole text consumed. */
  function ReadU32(t: bytes): Option<u32> {
    if t == [] || !AllDigits(t) then None
    else
      var n: int := FromDecimal(t);
      if n < TWO_32 then Some(n) else None
  }

  /** n hexadecimal digits, most significant first. */
  function HexText(v: nat, n: nat): bytes {
    if n == 0 then [] else HexText(v / 16, n - 1) + [HexChar(v % 16)]
  }

  const HEX_PREFIX: bytes := [0x30, 0x78]

  /** format_content_id */
  function IdText(id: u64): bytes { HEX_PREFIX + HexText(id, 16) }

  function FromHex(t: bytes): Option<nat> {
    if t == [] then Some(0)
    else
      match (FromHex(t[..|t| - 1]), HexDigit(t[|t| - 1]))
      case (Some(hi), Some(d)) => Some(hi * 16 + d)
      case _ => None
  }

  function Pow16(n: nat): nat { if n == 0 then 1 else 16 * Pow16(n - 1) }

  lemma {:induction false} FromHexBound(t: bytes, n: nat)
    requires |t| <= n && FromHex(t).Some?
    ensures FromHex(t).value < Pow16(n)
  {
    if t == [] {
      if n > 0 {
        FromHexBound(t, n - 1);
      }
    } else {
      FromHexBound(t[..|t| - 1], n - 1);
    }
  }

  lemma Pow16Of16()
    ensures Pow16(16) == TWO_64
  {
    assert Pow16(4) == 0x1_0000;
    assert Pow16(8) == 0x1_0000 * Pow16(4);
    assert Pow16(12) == 0x1_0000 * Pow16(8);
  }

  /** json_parse_content_id: an optional 0x, then one to sixteen hexadecimal digits. */
  function ReadId(t: bytes): Option<u64> {
    var ds := if |t| >= 2 && t[0] == 0x30 && (t[1] == 0x78 || t[1] == 0x58) then t[2..] else t;
    if ds == [] || |ds| > 16 then None
    else
      match FromHex(ds)
      case None => None
      case Some(n) => FromHexBound(ds, 16); Pow16Of16(); Some(n)
  }

  // ---- encode ---------------------------------------------------------------------------

  function FloatJson(bits: u64, ft: FloatText): bytes {
    if IsNaN(bits) then [QUOTE] + NAN_TEXT + [QUOTE]
    else if bits == POS_INFINITY then [QUOTE] + INF_TEXT + [QUOTE]
    else if bits == NEG_INFINITY then [QUOTE] + NEG_INF_TEXT + [QUOTE]
    else ft.show(bits)
  }

  /** json_encode_fields */
  function ObjectJson(v: Value, ft: FloatText): bytes
    decreases v, 1, 0
  {
    [OPEN_BRACE] + MembersJson(v, 0, true, ft) + [CLOSE_BRACE]
  }

  function MembersJson(v: Value, i: nat, first: bool, ft: FloatText): bytes
    requires i <= |v.schema.fields|
    decreases v, 0, |v.schema.fields| - i
  {
    if i == |v.schema.fields| then []
    else if i < |v.slots| && v.slots[i].Some? then
      (if first then [] else [COMMA]) +
      (Quote(v.schema.fields[i].name) + ([COLON] + (CellJson(v.slots[i].value, ft) + MembersJson(v, i + 1, false, ft))))
    else MembersJson(v, i + 1, first, ft)
  }

  /** json_encode_cell */
  function CellJson(c: Cell, ft: FloatText): bytes
    decreases c, 0, 0
  {
    match c
    case IntC(i) => [QUOTE] + IntText(i) + [QUOTE]
    case FloatC(bits) => FloatJson(bits, ft)
    case TextC(s) => Quote(s)
    case BoolC(b) => if b then TRUE_TEXT else FALSE_TEXT
    case BytesC(s) => Quote(Base64.Encode(s))
    case MessageC(m) => if m.Some? then ObjectJson(m.value, ft) else NULL_TEXT
    case ListC(cs) => [OPEN_BRACKET] + ElementsJson(cs, 0, ft) + [CLOSE_BRACKET]
  }

  function ElementsJson(cs: seq<Cell>, k: nat, ft: FloatText): bytes
    requires k <= |cs|
    decreases cs, 0, |cs| - k
  {
    if k == |cs| then []
    else (if k == 0 then [] else [COMMA]) + (CellJson(cs[k], ft) + ElementsJson(cs, k + 1, ft))
  }

  // ---- decode ---------------------------------------------------------------------------

  /** What decoding a node yields in Full mode: a datum unless the node itself is refused,
      and every error in report order. */
  datatype Decoded<+T> = Decoded(value: T, errs: seq<Error>)

  function Undeclared(members: seq<Member>, door: Schema, base: bytes): seq<Error> {
    if members == [] then []
    else
      var rest := Undeclared(members[1..], door, base);
      if FieldIndex(door.fields, members[0].key) < |door.fields| then rest
      else [Error(UnknownField, JoinField(base, members[0].key))] + rest
  }

  /** JsonDecoder::fields */
  function DecodeObject(members: seq<Member>, door: Schema, base: bytes, ft: FloatText): Decoded<Value>
    decreases door, 1, 0
  {
    var slots := DecodeSlots(members, door, 0, base, ft);
    Decoded(Value(door, slots.value), Undeclared(members, door, base) + slots.errs)
  }

  function DecodeSlots(members: seq<Member>, door: Schema, i: nat, base: bytes, ft: FloatText)
    : (r: Decoded<seq<Option<Cell>>>)
    requires i <= |door.fields|
    ensures |r.value| == |door.fields| - i
    decreases door, 0, |door.fields| - i
  {
    if i == |door.fields| then Decoded([], [])
    else
      var d := DecodeSlot(members, door.fields[i], base, ft);
      var rest := DecodeSlots(members, door, i + 1, base, ft);
      Decoded([d.value] + rest.value, d.errs + rest.errs)
  }

  /** One declared field: absent, or decoded from the member of its name. */
  function DecodeSlot(members: seq<Member>, f: Field, base: bytes, ft: FloatText): Decoded<Option<Cell>>
    decreases f, 0, 0
  {
    match Find(members, f.name)
    case None => Decoded(None, [])
    case Some(node) => DecodeNode(node, f.ty, JoinField(base, f.name), ft)
  }

  function Fault(kind: ErrorKind, path: bytes): Decoded<Option<Cell>> {
    Decoded(None, [Error(kind, path)])
  }

  function Plain(c: Cell): Decoded<Option<Cell>> {
    Decoded(Some(c), [])
  }

  /** JsonDecoder::cell */
  function DecodeNode(node: Json, t: Type, path: bytes, ft: FloatText): Decoded<Option<Cell>>
    decreases t, 0, 0
  {
    match t
    case IntT =>
      if !node.JString? then Fault(TypeMismatch, path)
      else if ReadInt64(node.text).None? then Fault(MalformedField, path)
      else Plain(IntC(ReadInt64(node.text).value))
    case FloatT =>
      if node.JNumber? then
        if ft.read(node.token).None? then Fault(MalformedField, path) else Plain(FloatC(ft.read(node.token).value))
      else if node.JString? then
        if node.text == NAN_TEXT then Plain(FloatC(CANONICAL_NAN))
        else if node.text == INF_TEXT then Plain(FloatC(POS_INFINITY))
        else if node.text == NEG_INF_TEXT then Plain(FloatC(NEG_INFINITY))
        else Fault(MalformedField, path)
      else Fault(TypeMismatch, path)
    case TextT =>
      if !node.JString? then Fault(TypeMismatch, path)
      else if !ValidUtf8(node.text) then Fault(MalformedField, path)
      else Plain(TextC(node.text))
    case BoolT => if node.JBool? then Plain(BoolC(node.b)) else Fault(TypeMismatch, path)
    case BytesT =>
      if !node.JString? then Fault(TypeMismatch, path)
      else if Base64.Decode(node.text).None? then Fault(MalformedField, path)
      else Plain(BytesC(Base64.Decode(node.text).value))
    case MessageT(s) =>
      if !node.JObject? then Fault(TypeMismatch, path)
      else
        var d := DecodeObject(node.members, s, path, ft);
        Decoded(Some(MessageC(Some(d.value))), d.errs)
    case ListT(e) =>
      if !node.JArray? then Fault(TypeMismatch, path)
      else
        var d := DecodeItems(node.items, 0, e, path, ft);
        Decoded(Some(ListC(d.value)), d.errs)
  }

  /** Elements from k on; a refused element is dropped from the list. */
  function DecodeItems(items: seq<Json>, k: nat, t: Type, path: bytes, ft: FloatText): Decoded<seq<Cell>>
    requires k <= |items|
    decreases t, 1, |items| - k
  {
    if k == |items| then Decoded([], [])
    else
      var d := DecodeNode(items[k], t, JoinIndex(path, k), ft);
      var rest := DecodeItems(items, k + 1, t, path, ft);
      Decoded((if d.value.Some? then [d.value.value] else []) + rest.value, d.errs + rest.errs)
  }
}
