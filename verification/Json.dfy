/** The JSON reader and quoter (src/detail/json.cpp) as functions on the remaining input. */
module Json {
  import opened Bytes
  import opened Utf8

  /** A parsed node. Numbers keep their token. */
  datatype Json =
    | JNull
    | JBool(b: bool)
    | JNumber(token: bytes)
    | JString(text: bytes)
    | JArray(items: seq<Json>)
    | JObject(members: seq<Member>)

  datatype Member = Member(key: bytes, value: Json)

  const JSON_MAX_DEPTH: nat := 64

  const QUOTE: byte := 0x22
  const BACKSLASH: byte := 0x5C
  const COMMA: byte := 0x2C
  const COLON: byte := 0x3A
  const OPEN_BRACE: byte := 0x7B
  const CLOSE_BRACE: byte := 0x7D
  const OPEN_BRACKET: byte := 0x5B
  const CLOSE_BRACKET: byte := 0x5D
  const MINUS: byte := 0x2D

  const TRUE_TEXT: bytes := [0x74, 0x72, 0x75, 0x65]
  const FALSE_TEXT: bytes := [0x66, 0x61, 0x6C, 0x73, 0x65]
  const NULL_TEXT: bytes := [0x6E, 0x75, 0x6C, 0x6C]

  /** JsonValue::find */
  function Find(ms: seq<Member>, key: bytes): Option<Json> {
    if ms == [] then None else if ms[0].key == key then Some(ms[0].value) else Find(ms[1..], key)
  }

  predicate HasKey(ms: seq<Member>, key: bytes) {
    exists i :: 0 <= i < |ms| && ms[i].key == key
  }

  predicate IsWs(c: byte) { c == 0x20 || c == 0x09 || c == 0x0A || c == 0x0D }

  predicate IsDigit(c: byte) { 0x30 <= c <= 0x39 }

  function SkipWs(b: bytes): (r: bytes)
    ensures |r| <= |b|
  {
    if b != [] && IsWs(b[0]) then SkipWs(b[1..]) else b
  }

  predicate StartsWith(b: bytes, c: byte) { b != [] && b[0] == c }

  // ---- strings ---------------------------------------------------------------------

  function HexDigit(c: byte): (r: Option<nat>)
    ensures r.Some? ==> r.value < 16
  {
    if 0x30 <= c <= 0x39 then Some(c - 0x30)
    else if 0x61 <= c <= 0x66 then Some(c - 0x61 + 10)
    else if 0x41 <= c <= 0x46 then Some(c - 0x41 + 10)
    else None
  }

  function Hex4Value(h: bytes): (r: Option<nat>)
    requires |h| == 4
    ensures r.Some? ==> r.value < TWO_16
  {
    match (HexDigit(h[0]), HexDigit(h[1]), HexDigit(h[2]), HexDigit(h[3]))
    case (Some(a), Some(b), Some(c), Some(d)) => Some(((a * 16 + b) * 16 + c) * 16 + d)
    case _ => None
  }

  function ParseHex4(b: bytes): (r: Read<nat>)
    ensures r.Got? ==> r.value < TWO_16 && |r.rest| == |b| - 4
  {
    if |b| < 4 || Hex4Value(b[..4]).None? then Refused else Got(Hex4Value(b[..4]).value, b[4..])
  }

  predicate IsHigh(cp: nat) { 0xD800 <= cp <= 0xDBFF }

  predicate IsLow(cp: nat) { 0xDC00 <= cp <= 0xDFFF }

  function Joined(hi: nat, lo: nat): Scalar
    requires IsHigh(hi) && IsLow(lo)
  {
    0x1_0000 + (hi - 0xD800) * 0x400 + (lo - 0xDC00)
  }

  /** What follows \u: one code unit, or a high surrogate and its \u-escaped low half. */
  function ParseUnicode(b: bytes): (r: Read<bytes>)
    ensures r.Got? ==> |r.rest| < |b|
  {
    match ParseHex4(b)
    case Refused => Refused
    case Got(cp, left) =>
      if IsHigh(cp) then
        if |left| < 2 || left[0] != BACKSLASH || left[1] != 0x75 then Refused
        else
          (match ParseHex4(left[2..])
           case Refused => Refused
           case Got(lo, rest) => if IsLow(lo) then Got(EncodeUtf8(Joined(cp, lo)), rest) else Refused)
      else if IsLow(cp) then Refused
      else Got(EncodeUtf8(cp), left)
  }

  /** The character a one-letter escape stands for. */
  function Unescape(e: byte): Option<byte> {
    if e == QUOTE || e == BACKSLASH || e == 0x2F then Some(e)
    else if e == 0x62 then Some(0x08)
    else if e == 0x66 then Some(0x0C)
    else if e == 0x6E then Some(0x0A)
    else if e == 0x72 then Some(0x0D)
    else if e == 0x74 then Some(0x09)
    else None
  }

  /** One step inside a string literal: the characters it contributes. */
  function ParsePiece(b: bytes): (r: Read<bytes>)
    requires b != [] && b[0] != QUOTE
    ensures r.Got? ==> |r.rest| < |b|
  {
    if b[0] == BACKSLASH then
      if |b| < 2 then Refused
      else if b[1] == 0x75 then ParseUnicode(b[2..])
      else
        match Unescape(b[1])
        case None => Refused
        case Some(c) => Got([c], b[2..])
    else if b[0] < 0x20 then Refused
    else Got([b[0]], b[1..])
  }

  /** A string after its opening quote. */
  function ParseString(b: bytes): (r: Read<bytes>)
    ensures r.Got? ==> |r.rest| < |b|
    decreases |b|
  {
    if b == [] then Refused
    else if b[0] == QUOTE then Got([], b[1..])
    else
      match ParsePiece(b)
      case Refused => Refused
      case Got(cs, left) =>
        match ParseString(left)
        case Refused => Refused
        case Got(tail, rest) => Got(cs + tail, rest)
  }

  // ---- numbers ---------------------------------------------------------------------

  function SkipDigits(b: bytes): (r: bytes)
    ensures |r| <= |b|
  {
    if b != [] && IsDigit(b[0]) then SkipDigits(b[1..]) else b
  }

  function SkipDigits1(b: bytes): (r: Option<bytes>)
    ensures r.Some? ==> |r.value| < |b|
  {
    if b != [] && IsDigit(b[0]) then Some(SkipDigits(b[1..])) else None
  }

  function SkipWhole(b: bytes): (r: Option<bytes>)
    ensures r.Some? ==> |r.value| < |b|
  {
    if StartsWith(b, 0x30) then Some(b[1..]) else SkipDigits1(b)
  }

  function SkipFraction(b: bytes): (r: Option<bytes>)
    ensures r.Some? ==> |r.value| <= |b|
  {
    if StartsWith(b, 0x2E) then SkipDigits1(b[1..]) else Some(b)
  }

  function SkipSign(b: bytes): (r: bytes)
    ensures |r| <= |b|
  {
    if StartsWith(b, 0x2B) || StartsWith(b, MINUS) then b[1..] else b
  }

  function SkipExponent(b: bytes): (r: Option<bytes>)
    ensures r.Some? ==> |r.value| <= |b|
  {
    if StartsWith(b, 0x65) || StartsWith(b, 0x45) then SkipDigits1(SkipSign(b[1..])) else Some(b)
  }

  /** What follows the number b starts with. */
  function SkipNumber(b: bytes): (r: Option<bytes>)
    ensures r.Some? ==> |r.value| < |b|
  {
    match SkipWhole(if StartsWith(b, MINUS) then b[1..] else b)
    case None => None
    case Some(b1) =>
      match SkipFraction(b1)
      case None => None
      case Some(b2) => SkipExponent(b2)
  }

  // ---- values ----------------------------------------------------------------------

  function ParseLiteral(b: bytes, text: bytes, v: Json): (r: Read<Json>)
    requires text != []
    ensures r.Got? ==> |r.rest| < |b|
  {
    if text <= b then Got(v, b[|text|..]) else Refused
  }

  /** A value at a nesting depth. The program starts at 0; a start below 0 stands for a reader
      with a higher limit. */
  function ParseValue(input: bytes, depth: int): (r: Read<Json>)
    ensures r.Got? ==> |r.rest| < |input|
    decreases |input|, 2
  {
    var b := SkipWs(input);
    if b == [] then Refused
    else if b[0] == OPEN_BRACE then
      if depth + 1 > JSON_MAX_DEPTH then Refused
      else if StartsWith(SkipWs(b[1..]), CLOSE_BRACE) then Got(JObject([]), SkipWs(b[1..])[1..])
      else ParseMembers(SkipWs(b[1..]), depth, [])
    else if b[0] == OPEN_BRACKET then
      if depth + 1 > JSON_MAX_DEPTH then Refused
      else if StartsWith(SkipWs(b[1..]), CLOSE_BRACKET) then Got(JArray([]), SkipWs(b[1..])[1..])
      else ParseItems(SkipWs(b[1..]), depth, [])
    else if b[0] == QUOTE then
      match ParseString(b[1..])
      case Refused => Refused
      case Got(s, rest) => Got(JString(s), rest)
    else if b[0] == 0x74 then ParseLiteral(b, TRUE_TEXT, JBool(true))
    else if b[0] == 0x66 then ParseLiteral(b, FALSE_TEXT, JBool(false))
    else if b[0] == 0x6E then ParseLiteral(b, NULL_TEXT, JNull)
    else if b[0] == MINUS || IsDigit(b[0]) then
      match SkipNumber(b)
      case None => Refused
      case Some(rest) => Got(JNumber(b[..|b| - |rest|]), rest)
    else Refused
  }

  /** The members of an object after those in acc. */
  function ParseMembers(input: bytes, depth: int, acc: seq<Member>): (r: Read<Json>)
    ensures r.Got? ==> |r.rest| < |input|
    decreases |input|, 1
  {
    var b := SkipWs(input);
    if !StartsWith(b, QUOTE) then Refused
    else
      match ParseString(b[1..])
      case Refused => Refused
      case Got(key, left) =>
        var b1 := SkipWs(left);
        if HasKey(acc, key) || !StartsWith(b1, COLON) then Refused
        else
          match ParseValue(b1[1..], depth + 1)
          case Refused => Refused
          case Got(v, left1) =>
            var b2 := SkipWs(left1);
            if StartsWith(b2, COMMA) then ParseMembers(b2[1..], depth, acc + [Member(key, v)])
            else if StartsWith(b2, CLOSE_BRACE) then Got(JObject(acc + [Member(key, v)]), b2[1..])
            else Refused
  }

  /** The elements of an array after those in acc. */
  function ParseItems(b: bytes, depth: int, acc: seq<Json>): (r: Read<Json>)
    ensures r.Got? ==> |r.rest| < |b|
    decreases |b|, 3
  {
    match ParseValue(b, depth + 1)
    case Refused => Refused
    case Got(v, left) =>
      var b1 := SkipWs(left);
      if StartsWith(b1, COMMA) then ParseItems(b1[1..], depth, acc + [v])
      else if StartsWith(b1, CLOSE_BRACKET) then Got(JArray(acc + [v]), b1[1..])
      else Refused
  }

  /** A complete document. */
  function ParseJson(b: bytes): Option<Json> {
    match ParseValue(SkipWs(b), 0)
    case Refused => None
    case Got(v, rest) => if SkipWs(rest) == [] then Some(v) else None
  }

  // ---- quoting ---------------------------------------------------------------------

  function HexChar(d: nat): byte
    requires d < 16
  {
    if d < 10 then 0x30 + d else 0x61 + (d - 10)
  }

  function QuoteChar(c: byte): bytes {
    if c == QUOTE || c == BACKSLASH then [BACKSLASH, c]
    else if c == 0x08 then [BACKSLASH, 0x62]
    else if c == 0x0C then [BACKSLASH, 0x66]
    else if c == 0x0A then [BACKSLASH, 0x6E]
    else if c == 0x0D then [BACKSLASH, 0x72]
    else if c == 0x09 then [BACKSLASH, 0x74]
    else if c < 0x20 then [BACKSLASH, 0x75, 0x30, 0x30, HexChar(c / 16), HexChar(c % 16)]
    else [c]
  }

  function QuoteChars(s: bytes): bytes {
    if s == [] then [] else QuoteChar(s[0]) + QuoteChars(s[1..])
  }

  /** json_quote */
  function Quote(s: bytes): bytes {
    [QUOTE] + QuoteChars(s) + [QUOTE]
  }
}
