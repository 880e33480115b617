/** Exactness of the JSON reader: it accepts the texts of well-formed documents, with
    the meaning the grammar gives them, and nothing else. */
module JsonExact {
  import opened Bytes
  import opened Utf8
  import opened Json
  import opened JsonGrammar
  import opened JsonTokens

  // ---- every document is read as what it means ---------------------------------------------

  predicate Closes(c: byte) { c == COMMA || c == CLOSE_BRACKET || c == CLOSE_BRACE }

  /** What may follow a value inside a document. */
  predicate Follow(b: bytes) { b == [] || Closes(b[0]) }

  /** The octets a value can start with. */
  predicate Opens(c: byte) {
    c == QUOTE || c == OPEN_BRACE || c == OPEN_BRACKET || c == MINUS || IsDigit(c) || c == 0x74 || c == 0x66 || c == 0x6E
  }

  lemma FollowAfterBlank(ws: bytes, b: bytes)
    requires Blank(ws) && Follow(b)
    ensures EndsNumber(ws + b) && SkipWs(ws + b) == b
  {
    SkipBlank(ws, b);
    if ws != [] {
      assert IsWs(ws[0]);
    } else {
      assert ws + b == b;
    }
  }

  lemma ParseOfNumber(t: bytes, depth: int, rest: bytes)
    requires IsNumberToken(t) && EndsNumber(rest)
    ensures ParseValue(t + rest, depth) == Got(JNumber(t), rest)
    ensures t != [] && Opens(t[0])
  {
    hide SkipNumber, NumberText;
    var n: Number :| WfNumber(n) && NumberText(n) == t;
    SkipOfNumber(n, rest);
    var b := t + rest;
    assert b[0] == t[0] && !IsWs(b[0]);
    assert b[..|b| - |rest|] == t;
  }

  lemma StringOfLiteral(ps: seq<Piece>, rest: bytes)
    requires WfPieces(ps)
    ensures var b := LiteralText(ps) + rest;
            b[0] == QUOTE && ParseString(b[1..]) == Got(PiecesMeaning(ps), rest)
  {
    hide ParseString, PiecesText, PiecesMeaning;
    var b := LiteralText(ps) + rest;
    ParseOfPieces(ps, rest);
    Assoc(PiecesText(ps), [QUOTE], rest);
    assert b[1..] == (PiecesText(ps) + [QUOTE]) + rest;
  }

  lemma ParseOfEmpty(pad: bytes, braces: bool, depth: int, rest: bytes)
    requires Blank(pad) && depth < JSON_MAX_DEPTH
    ensures var b := if braces then [OPEN_BRACE] + (pad + [CLOSE_BRACE]) else [OPEN_BRACKET] + (pad + [CLOSE_BRACKET]);
            ParseValue(b + rest, depth) == Got(if braces then JObject([]) else JArray([]), rest)
  {
    var close := [if braces then CLOSE_BRACE else CLOSE_BRACKET];
    var b := [if braces then OPEN_BRACE else OPEN_BRACKET] + (pad + close) + rest;
    assert b[1..] == pad + (close + rest);
    SkipBlank(pad, close + rest);
    assert SkipWs(close + rest) == close + rest && (close + rest)[1..] == rest;
  }

  /** A value between whitespace, followed by what may follow it. */
  lemma {:induction false} ParseOfItem(it: Item, depth: int, tail: bytes)
    requires WfItem(it, depth) && Follow(tail)
    ensures ParseValue(ItemText(it) + tail, depth) == Got(Meaning(it.doc), it.after + tail)
    ensures SkipWs(it.after + tail) == tail
    ensures SkipWs(ItemText(it) + tail) != [] && Opens(SkipWs(ItemText(it) + tail)[0])
    decreases it, 1
  {
    hide ParseValue;
    FollowAfterBlank(it.after, tail);
    var rest := it.after + tail;
    ParseOfDoc(it.doc, depth, rest);
    LeadingBlankIgnored(it.before, Text(it.doc) + rest, depth);
    SkipBlank(it.before, Text(it.doc) + rest);
    Assoc(Text(it.doc), it.after, tail);
    Assoc(it.before, Text(it.doc) + it.after, tail);
    assert (Text(it.doc) + rest)[0] == Text(it.doc)[0];
  }

  lemma ItemsTextThen(items: seq<Item>, rest: bytes)
    requires items != []
    ensures ItemsText(items) + rest ==
            ItemText(items[0]) +
            (if |items| == 1 then [CLOSE_BRACKET] + rest else [COMMA] + (ItemsText(items[1..]) + rest))
  {
    hide ItemText;
    Assoc(ItemText(items[0]), if |items| == 1 then [CLOSE_BRACKET] else [COMMA] + ItemsText(items[1..]), rest);
    if |items| > 1 {
      Assoc([COMMA], ItemsText(items[1..]), rest);
    }
  }

  lemma {:induction false} ParseOfItems(items: seq<Item>, depth: int, acc: seq<Json>, rest: bytes)
    requires items != [] && forall i :: 0 <= i < |items| ==> WfItem(items[i], depth + 1)
    ensures ParseItems(ItemsText(items) + rest, depth, acc) == Got(JArray(acc + ItemsMeaning(items)), rest)
    ensures var b := SkipWs(ItemsText(items) + rest); b != [] && Opens(b[0])
    decreases items, 2
  {
    hide ParseValue, ItemsText, ItemText, Meaning, WfItem;
    var it := items[0];
    var tail := if |items| == 1 then [CLOSE_BRACKET] + rest else [COMMA] + (ItemsText(items[1..]) + rest);
    ItemsTextThen(items, rest);
    ParseOfItem(it, depth + 1, tail);
    if |items| == 1 {
      assert tail[1..] == rest && ItemsMeaning(items) == [Meaning(it.doc)];
    } else {
      assert tail[1..] == ItemsText(items[1..]) + rest;
      ParseOfItems(items[1..], depth, acc + [Meaning(it.doc)], rest);
      assert (acc + [Meaning(it.doc)]) + ItemsMeaning(items[1..]) == acc + ItemsMeaning(items);
    }
  }

  /** The key, the colon and where the value starts. */
  lemma ParseOfKey(m: DMember, depth: int, tail: bytes)
    requires WfMember(m, depth)
    ensures var b := SkipWs(MemberText(m) + tail);
            b != [] && b[0] == QUOTE && ParseString(b[1..]).Got? && ParseString(b[1..]).value == Spelled(m.key) &&
            SkipWs(ParseString(b[1..]).rest) == [COLON] + (ItemText(m.item) + tail)
  {
    hide ItemText, LiteralText, MemberText;
    var value := [COLON] + (ItemText(m.item) + tail);
    var b := LiteralText(m.key) + (m.mid + value);
    MemberTextThen(m, tail);
    StringOfLiteral(m.key, m.mid + value);
    SkipBlank(m.lead, b);
    assert SkipWs(b) == b;
    SkipBlank(m.mid, value);
    assert SkipWs(value) == value;
  }

  lemma KeyIsNew(acc: seq<Member>, more: seq<Member>)
    requires DistinctKeys(acc + more) && more != []
    ensures !HasKey(acc, more[0].key)
  {
    var all := acc + more;
    forall i | 0 <= i < |acc| ensures acc[i].key != more[0].key {
      assert all[i].key != all[|acc|].key;
    }
  }

  lemma MembersTextThen(ms: seq<DMember>, rest: bytes)
    requires ms != []
    ensures MembersText(ms) + rest ==
            MemberText(ms[0]) +
            (if |ms| == 1 then [CLOSE_BRACE] + rest else [COMMA] + (MembersText(ms[1..]) + rest))
  {
    hide MemberText;
    Assoc(MemberText(ms[0]), if |ms| == 1 then [CLOSE_BRACE] else [COMMA] + MembersText(ms[1..]), rest);
    if |ms| > 1 {
      Assoc([COMMA], MembersText(ms[1..]), rest);
    }
  }

  lemma {:induction false} ParseOfMembers(ms: seq<DMember>, depth: int, acc: seq<Member>, rest: bytes)
    requires ms != [] && forall i :: 0 <= i < |ms| ==> WfMember(ms[i], depth + 1)
    requires DistinctKeys(acc + MembersMeaning(ms))
    ensures ParseMembers(MembersText(ms) + rest, depth, acc) == Got(JObject(acc + MembersMeaning(ms)), rest)
    ensures StartsWith(SkipWs(MembersText(ms) + rest), QUOTE)
    decreases ms, 2
  {
    hide ParseValue, MembersText, MemberText, ItemText, Meaning, WfItem, ParseString, LiteralText, WfPieces,
         DistinctKeys, HasKey;
    var m := ms[0];
    var last := |ms| == 1;
    var tail := if last then [CLOSE_BRACE] + rest else [COMMA] + (MembersText(ms[1..]) + rest);
    var b := MembersText(ms) + rest;
    MembersTextThen(ms, rest);
    ParseOfKey(m, depth + 1, tail);
    ParseOfItem(m.item, depth + 1, tail);
    var value := [COLON] + (ItemText(m.item) + tail);
    assert value[1..] == ItemText(m.item) + tail;
    var acc' := acc + [MemberMeaning(m)];
    KeyIsNew(acc, MembersMeaning(ms));
    if last {
      assert tail[1..] == rest && MembersMeaning(ms) == [MemberMeaning(m)];
    } else {
      assert tail[1..] == MembersText(ms[1..]) + rest;
      assert acc' + MembersMeaning(ms[1..]) == acc + MembersMeaning(ms);
      ParseOfMembers(ms[1..], depth, acc', rest);
    }
  }

  lemma ParseOfName(text: bytes, depth: int, rest: bytes)
    requires text == NULL_TEXT || text == TRUE_TEXT || text == FALSE_TEXT
    ensures ParseValue(text + rest, depth) ==
            Got(if text == NULL_TEXT then JNull else JBool(text == TRUE_TEXT), rest)
  {
    var b := text + rest;
    assert b[|text|..] == rest && text <= b && b[0] == text[0];
  }

  lemma ParseOfString(ps: seq<Piece>, depth: int, rest: bytes)
    requires WfPieces(ps)
    ensures ParseValue(LiteralText(ps) + rest, depth) == Got(JString(Spelled(ps)), rest)
  {
    hide ParseString;
    StringOfLiteral(ps, rest);
  }

  lemma ParseOfArray(body: bytes, depth: int, rest: bytes, items: seq<Json>)
    requires depth < JSON_MAX_DEPTH && ParseItems(body + rest, depth, []) == Got(JArray(items), rest)
    requires var b := SkipWs(body + rest); b != [] && Opens(b[0])
    ensures ParseValue([OPEN_BRACKET] + body + rest, depth) == Got(JArray(items), rest)
  {
    var b := [OPEN_BRACKET] + body + rest;
    assert b[1..] == body + rest;
    LeadingBlankIgnored([], b[1..], depth + 1);
  }

  lemma ParseOfObject(body: bytes, depth: int, rest: bytes, ms: seq<Member>)
    requires depth < JSON_MAX_DEPTH && ParseMembers(body + rest, depth, []) == Got(JObject(ms), rest)
    requires StartsWith(SkipWs(body + rest), QUOTE)
    ensures ParseValue([OPEN_BRACE] + body + rest, depth) == Got(JObject(ms), rest)
  {
    hide ParseString;
    var b := [OPEN_BRACE] + body + rest;
    assert b[1..] == body + rest;
    LeadingBlankIgnored([], b[1..], depth + 1);
  }

  lemma NothingBefore<T>(s: seq<T>)
    ensures [] + s == s
  {
  }

  /** A well-formed document is read as what it means, up to where its text ends. */
  lemma {:induction false} ParseOfDoc(d: Doc, depth: int, rest: bytes)
    requires WfDoc(d, depth) && EndsNumber(rest)
    ensures ParseValue(Text(d) + rest, depth) == Got(Meaning(d), rest)
    ensures Text(d) != [] && Opens(Text(d)[0])
    decreases d, 0
  {
    hide ParseValue, ParseItems, ParseMembers, WfItem, WfMember, ItemsText, MembersText;
    match d
    case DNull => ParseOfName(NULL_TEXT, depth, rest);
    case DBool(x) => ParseOfName(if x then TRUE_TEXT else FALSE_TEXT, depth, rest);
    case DNumber(t) => ParseOfNumber(t, depth, rest);
    case DString(ps) => ParseOfString(ps, depth, rest);
    case DArray(pad, items) =>
      if items == [] {
        ParseOfEmpty(pad, false, depth, rest);
      } else {
        ParseOfItems(items, depth, [], rest);
        NothingBefore(ItemsMeaning(items));
        ParseOfArray(ItemsText(items), depth, rest, ItemsMeaning(items));
      }
    case DObject(pad, ms) =>
      if ms == [] {
        ParseOfEmpty(pad, true, depth, rest);
      } else {
        NothingBefore(MembersMeaning(ms));
        ParseOfMembers(ms, depth, [], rest);
        ParseOfObject(MembersText(ms), depth, rest, MembersMeaning(ms));
      }
  }

  // ---- everything read is a document -----------------------------------------------------------

  /** The document behind a successful read, and the whitespace in front of it. */
  lemma {:induction false} DocOfParse(input: bytes, depth: int) returns (ws: bytes, d: Doc)
    requires ParseValue(input, depth).Got?
    ensures Blank(ws) && WfDoc(d, depth) && Meaning(d) == ParseValue(input, depth).value
    ensures input == ws + (Text(d) + ParseValue(input, depth).rest)
    decreases |input|, 2
  {
    hide ParseItems, ParseMembers, ParseString, SkipNumber, WfItem, WfMember, IsNumberToken, ParseLiteral;
    ws := SkippedIsBlank(input);
    var b := SkipWs(input);
    var r := ParseValue(input, depth);
    if b[0] == OPEN_BRACE || b[0] == OPEN_BRACKET {
      d := NestedOfParse(b, depth);
    } else if b[0] == QUOTE {
      var ps := PiecesOfParse(b[1..]);
      d := DString(ps);
      assert b == LiteralText(ps) + r.rest by {
        assert b == [QUOTE] + b[1..];
        Assoc(PiecesText(ps), [QUOTE], r.rest);
        Assoc([QUOTE], PiecesText(ps) + [QUOTE], r.rest);
      }
    } else if b[0] == 0x74 {
      d := DBool(true);
      NameOfParse(b, TRUE_TEXT, JBool(true));
    } else if b[0] == 0x66 {
      d := DBool(false);
      NameOfParse(b, FALSE_TEXT, JBool(false));
    } else if b[0] == 0x6E {
      d := DNull;
      NameOfParse(b, NULL_TEXT, JNull);
    } else {
      d := DNumber(r.value.token);
      NumberTokenOfSkip(b);
    }
  }

  lemma NameOfParse(b: bytes, text: bytes, v: Json)
    requires text != [] && ParseLiteral(b, text, v).Got?
    ensures b == text + ParseLiteral(b, text, v).rest && ParseLiteral(b, text, v).value == v
  {
  }

  lemma NumberTokenOfSkip(b: bytes)
    requires SkipNumber(b).Some?
    ensures var rest := SkipNumber(b).value; var t := b[..|b| - |rest|];
            IsNumberToken(t) && b == t + rest
  {
    hide SkipNumber, NumberText;
    var n := NumberOfSkip(b);
    assert b[..|b| - |SkipNumber(b).value|] == NumberText(n);
  }

  /** What an object or array reads as, once the brace or bracket is consumed. */
  lemma NestedUnfolds(b: bytes, depth: int)
    requires b != [] && (b[0] == OPEN_BRACE || b[0] == OPEN_BRACKET) && ParseValue(b, depth).Got?
    ensures depth < JSON_MAX_DEPTH
    ensures var inner := SkipWs(b[1..]);
            ParseValue(b, depth) ==
            if b[0] == OPEN_BRACE then
              if StartsWith(inner, CLOSE_BRACE) then Got(JObject([]), inner[1..]) else ParseMembers(b[1..], depth, [])
            else
              if StartsWith(inner, CLOSE_BRACKET) then Got(JArray([]), inner[1..]) else ParseItems(b[1..], depth, [])
  {
    hide ParseItems, ParseMembers;
    MembersSkip(b[1..], depth, []);
    ItemsSkip(b[1..], depth, []);
  }

  lemma {:induction false} NestedOfParse(b: bytes, depth: int) returns (d: Doc)
    requires b != [] && (b[0] == OPEN_BRACE || b[0] == OPEN_BRACKET) && ParseValue(b, depth).Got?
    ensures WfDoc(d, depth) && Meaning(d) == ParseValue(b, depth).value
    ensures b == Text(d) + ParseValue(b, depth).rest
    decreases |b|, 1
  {
    hide ParseValue, ParseItems, ParseMembers, WfItem, WfMember, ItemsText, MembersText, ItemsMeaning, MembersMeaning;
    NestedUnfolds(b, depth);
    var inner, rest := b[1..], ParseValue(b, depth).rest;
    var pad := SkippedIsBlank(inner);
    NothingMeant();
    if b[0] == OPEN_BRACE {
      if StartsWith(SkipWs(inner), CLOSE_BRACE) {
        d := DObject(pad, []);
        assert SkipWs(inner) == [CLOSE_BRACE] + rest;
        Assoc(pad, [CLOSE_BRACE], rest);
      } else {
        var ms := MembersOfParse(inner, depth, []);
        d := DObject([], ms);
        NothingBefore(MembersMeaning(ms));
      }
    } else {
      if StartsWith(SkipWs(inner), CLOSE_BRACKET) {
        d := DArray(pad, []);
        assert SkipWs(inner) == [CLOSE_BRACKET] + rest;
        Assoc(pad, [CLOSE_BRACKET], rest);
      } else {
        var items := ItemsOfParse(inner, depth, []);
        d := DArray([], items);
        NothingBefore(ItemsMeaning(items));
      }
    }
    assert b == [b[0]] + inner;
  }

  lemma NothingMeant()
    ensures ItemsMeaning([]) == [] && MembersMeaning([]) == []
  {
  }

  lemma MembersSkip(b: bytes, depth: int, acc: seq<Member>)
    ensures ParseMembers(SkipWs(b), depth, acc) == ParseMembers(b, depth, acc)
  {
    hide ParseString, ParseValue;
    var _ := SkippedIsBlank(b);
  }

  lemma ItemsSkip(b: bytes, depth: int, acc: seq<Json>)
    ensures ParseItems(SkipWs(b), depth, acc) == ParseItems(b, depth, acc)
  {
    hide ParseValue;
    LeadingBlankIgnored([], b, depth + 1);
  }

  /** The item behind a value and the whitespace after it. */
  lemma {:induction false} ItemOfParse(b: bytes, depth: int) returns (it: Item)
    requires ParseValue(b, depth).Got?
    ensures WfItem(it, depth) && Meaning(it.doc) == ParseValue(b, depth).value
    ensures b == ItemText(it) + SkipWs(ParseValue(b, depth).rest)
    decreases |b|, 3
  {
    hide ParseValue, Text, Meaning, WfDoc;
    var ws, d := DocOfParse(b, depth);
    var left := ParseValue(b, depth).rest;
    var after := SkippedIsBlank(left);
    it := Item(ws, d, after);
    Assoc(Text(d), after, SkipWs(left));
    Assoc(ws, Text(d) + after, SkipWs(left));
  }

  lemma {:induction false} ItemsOfParse(b: bytes, depth: int, acc: seq<Json>) returns (items: seq<Item>)
    requires ParseItems(b, depth, acc).Got?
    ensures items != [] && forall i :: 0 <= i < |items| ==> WfItem(items[i], depth + 1)
    ensures ParseItems(b, depth, acc).value == JArray(acc + ItemsMeaning(items))
    ensures b == ItemsText(items) + ParseItems(b, depth, acc).rest
    decreases |b|, 4
  {
    hide ParseValue, ItemsText, ItemText, Meaning, WfItem;
    var it := ItemOfParse(b, depth + 1);
    var v, left := ParseValue(b, depth + 1).value, SkipWs(ParseValue(b, depth + 1).rest);
    var rest := ParseItems(b, depth, acc).rest;
    assert left == [left[0]] + left[1..];
    if left[0] == COMMA {
      var tail := ItemsOfParse(left[1..], depth, acc + [v]);
      items := [it] + tail;
      assert items[1..] == tail;
      assert (acc + [v]) + ItemsMeaning(tail) == acc + ItemsMeaning(items);
    } else {
      items := [it];
      assert ItemsMeaning(items) == [v] + ItemsMeaning([]);
    }
    ItemsTextThen(items, rest);
  }

  /** The key and the colon behind the head of a member. */
  lemma KeyOfParse(input: bytes) returns (lead: bytes, ps: seq<Piece>, mid: bytes)
    requires var b := SkipWs(input);
             && StartsWith(b, QUOTE) && ParseString(b[1..]).Got?
             && StartsWith(SkipWs(ParseString(b[1..]).rest), COLON)
    ensures Blank(lead) && WfPieces(ps) && Blank(mid)
    ensures var key := ParseString(SkipWs(input)[1..]);
            && Spelled(ps) == key.value
            && input == lead + (LiteralText(ps) + (mid + ([COLON] + SkipWs(key.rest)[1..])))
  {
    hide ParseString, PiecesText, PiecesMeaning, WfPieces, Blank, SkipWs;
    var b := SkipWs(input);
    lead := SkippedIsBlank(input);
    var key := ParseString(b[1..]);
    ps := PiecesOfParse(b[1..]);
    mid := SkippedIsBlank(key.rest);
    var after := SkipWs(key.rest);
    assert after == [COLON] + after[1..] && b == [QUOTE] + b[1..];
    Assoc(PiecesText(ps), [QUOTE], key.rest);
    Assoc([QUOTE], PiecesText(ps) + [QUOTE], key.rest);
  }

  lemma {:induction false} MembersOfParse(input: bytes, depth: int, acc: seq<Member>) returns (ms: seq<DMember>)
    requires ParseMembers(input, depth, acc).Got? && DistinctKeys(acc)
    ensures ms != [] && forall i :: 0 <= i < |ms| ==> WfMember(ms[i], depth + 1)
    ensures ParseMembers(input, depth, acc).value == JObject(acc + MembersMeaning(ms))
    ensures DistinctKeys(acc + MembersMeaning(ms))
    ensures input == MembersText(ms) + ParseMembers(input, depth, acc).rest
    decreases |input|, 4
  {
    hide ParseValue, MembersText, ItemText, Meaning, WfItem, ParseString, LiteralText, WfPieces, Spelled;
    var lead, ps, mid := KeyOfParse(input);
    var key := ParseString(SkipWs(input)[1..]);
    var value := SkipWs(key.rest)[1..];
    var it := ItemOfParse(value, depth + 1);
    var m := DMember(lead, ps, mid, it);
    var left := SkipWs(ParseValue(value, depth + 1).rest);
    var rest := ParseMembers(input, depth, acc).rest;
    var acc' := acc + [MemberMeaning(m)];
    assert DistinctKeys(acc') by { NewKeyKeepsDistinct(acc, MemberMeaning(m)); }
    assert input == MemberText(m) + left by { MemberTextThen(m, left); }
    assert left == [left[0]] + left[1..];
    if left[0] == COMMA {
      var tail := MembersOfParse(left[1..], depth, acc');
      ms := [m] + tail;
      assert ms[1..] == tail;
      assert acc' + MembersMeaning(tail) == acc + MembersMeaning(ms);
    } else {
      ms := [m];
      assert MembersMeaning(ms) == [MemberMeaning(m)] + MembersMeaning([]);
    }
    MembersTextThen(ms, rest);
  }

  lemma MemberTextThen(m: DMember, tail: bytes)
    ensures MemberText(m) + tail == m.lead + (LiteralText(m.key) + (m.mid + ([COLON] + (ItemText(m.item) + tail))))
  {
    Assoc([COLON], ItemText(m.item), tail);
    Assoc(m.mid, [COLON] + ItemText(m.item), tail);
    Assoc(LiteralText(m.key), m.mid + ([COLON] + ItemText(m.item)), tail);
    Assoc(m.lead, LiteralText(m.key) + (m.mid + ([COLON] + ItemText(m.item))), tail);
  }

  lemma NewKeyKeepsDistinct(acc: seq<Member>, m: Member)
    requires DistinctKeys(acc) && !HasKey(acc, m.key)
    ensures DistinctKeys(acc + [m])
  {
  }

  // ---- exactness ---------------------------------------------------------------------------------

  /** The reader accepts exactly the documents, and returns the tree they mean. */
  lemma ParserIsExact(b: bytes, v: Json)
    ensures ParseJson(b) == Some(v) <==> IsDocument(b, v)
  {
    LeadingBlankIgnored([], b, 0);
    if ParseJson(b) == Some(v) {
      var it := ItemOfParse(b, 0);
      assert ItemText(it) + [] == ItemText(it);
      assert WfItem(it, 0) && ItemText(it) == b && Meaning(it.doc) == v;
    }
    if IsDocument(b, v) {
      var it: Item :| WfItem(it, 0) && ItemText(it) == b && Meaning(it.doc) == v;
      ParseOfItem(it, 0, []);
      assert b + [] == b && it.after + [] == it.after;
    }
  }

  /** A text is a document of one meaning only. */
  lemma DocumentsAreUnambiguous(b: bytes, v: Json, w: Json)
    requires IsDocument(b, v) && IsDocument(b, w)
    ensures v == w
  {
    ParserIsExact(b, v);
    ParserIsExact(b, w);
  }
}
