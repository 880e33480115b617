/** Text that is UTF-8 parses to strings that are UTF-8, through every escape. */
module JsonUtf8 {
  import opened Bytes
  import opened Utf8
  import opened Json
  import opened JsonGrammar
  import opened JsonTokens
  import opened JsonExact

  predicate Ascii(b: bytes) { forall i :: 0 <= i < |b| ==> b[i] < 0x80 }

  lemma {:induction false} AsciiIsValid(b: bytes)
    requires Ascii(b)
    ensures ValidUtf8(b)
  {
    if b != [] {
      AsciiHead(b);
      AsciiIsValid(b[1..]);
    }
  }

  lemma AsciiHead(b: bytes)
    requires b != [] && b[0] < 0x80
    ensures LeadOf(b[0]).extra == 0 && Head(b) == Some(b[0])
  {
    FoldUnrolled(b[1..1], b[0]);
  }

  lemma AsciiPrefix(a: bytes, b: bytes)
    requires Ascii(a)
    ensures ValidUtf8(a + b) == ValidUtf8(b)
  {
    AsciiIsValid(a);
    ValidUtf8Append(a, b);
  }

  /** The octets after the first of a well-formed head are continuations. */
  lemma HeadContinues(s: bytes, k: nat)
    requires s != [] && Head(s).Some? && 1 <= k < 1 + LeadOf(s[0]).extra
    ensures k < |s| && IsContinuation(s[k])
  {
    var tail := s[1..1 + LeadOf(s[0]).extra];
    FoldUnrolled(tail, LeadOf(s[0]).bits);
    assert IsContinuation(tail[k - 1]);
  }

  /** An ASCII octet cuts UTF-8 text into two UTF-8 texts. */
  lemma {:induction false} AsciiSplit(a: bytes, c: byte, b: bytes)
    requires c < 0x80 && ValidUtf8(a + ([c] + b))
    ensures ValidUtf8(a) && ValidUtf8(b)
  {
    hide Head;
    var s := a + ([c] + b);
    if a == [] {
      AsciiPrefix([c], b);
      assert s == [c] + b;
    } else {
      HeadFits(s);
      var n := 1 + LeadOf(s[0]).extra;
      assert |a| < |s| && s[|a|] == c;
      if n > |a| {
        HeadContinues(s, |a|);
        assert false;
      }
      SameHead(a, [c] + b);
      assert s[n..] == a[n..] + ([c] + b);
      AsciiSplit(a[n..], c, b);
    }
  }

  lemma SameHead(a: bytes, b: bytes)
    requires a != [] && LeadOf(a[0]).Lead? && 1 + LeadOf(a[0]).extra <= |a|
    ensures Head(a + b) == Head(a)
  {
    assert (a + b)[1..1 + LeadOf(a[0]).extra] == a[1..1 + LeadOf(a[0]).extra];
  }

  // ---- string literals ------------------------------------------------------------------

  lemma HexIsAscii(h: bytes)
    requires |h| == 4 && Hex4Value(h).Some?
    ensures Ascii(h)
  {
  }

  /** An escape is ASCII and means UTF-8. */
  lemma EscapeUtf8(p: Piece)
    requires WfPiece(p) && !p.Plain?
    ensures Ascii(PieceText(p)) && ValidUtf8(PieceMeaning(p))
  {
    hide ValidUtf8, EncodeUtf8, Hex4Value;
    match p
    case Short(e) => AsciiIsValid([Unescape(e).value]);
    case Unit(h) =>
      HexIsAscii(h);
      OneIsValid(Hex4Value(h).value);
    case Pair(hi, lo) =>
      HexIsAscii(hi);
      HexIsAscii(lo);
      OneIsValid(Joined(Hex4Value(hi).value, Hex4Value(lo).value));
  }

  lemma OneIsValid(cp: Scalar)
    ensures ValidUtf8(EncodeUtf8(cp))
  {
    hide EncodeUtf8, ValidUtf8;
    EncodingsAreValid([cp]);
    assert EncodeAll([cp][1..]) == [];
    assert EncodeUtf8(cp) + [] == EncodeUtf8(cp);
  }

  /** Octets from 0x80 at the start of a literal's text are plain pieces. */
  lemma {:induction false} PlainRun(ps: seq<Piece>, n: nat)
    requires WfPieces(ps) && n <= |PiecesText(ps)| && forall k :: 0 <= k < n ==> PiecesText(ps)[k] >= 0x80
    ensures n <= |ps|
    ensures PiecesText(ps) == PiecesText(ps)[..n] + PiecesText(ps[n..])
    ensures PiecesMeaning(ps) == PiecesText(ps)[..n] + PiecesMeaning(ps[n..])
  {
    hide PiecesText, PiecesMeaning, PieceText, PieceMeaning, WfPiece;
    PiecesStep(ps);
    if n > 0 {
      var text, rest := PiecesText(ps), PiecesText(ps[1..]);
      PlainStart(ps[0], rest);
      assert forall k :: 0 <= k < n - 1 ==> rest[k] == text[k + 1];
      PlainRun(ps[1..], n - 1);
      assert ps[1..][n - 1..] == ps[n..];
      assert text[..n] == [text[0]] + rest[..n - 1];
      Assoc([text[0]], rest[..n - 1], PiecesText(ps[n..]));
      Assoc([text[0]], rest[..n - 1], PiecesMeaning(ps[n..]));
    } else {
      assert ps[0..] == ps;
    }
  }

  lemma PiecesStep(ps: seq<Piece>)
    requires ps != [] ==> WfPieces(ps)
    ensures ps == [] ==> PiecesText(ps) == []
    ensures ps != [] ==> WfPiece(ps[0]) && PiecesText(ps) == PieceText(ps[0]) + PiecesText(ps[1..])
    ensures ps != [] ==> PiecesMeaning(ps) == PieceMeaning(ps[0]) + PiecesMeaning(ps[1..])
  {
  }

  lemma PlainStart(p: Piece, rest: bytes)
    requires WfPiece(p) && (PieceText(p) + rest)[0] >= 0x80
    ensures PieceText(p) == PieceMeaning(p) == [(PieceText(p) + rest)[0]]
  {
  }

  lemma {:induction false} LiteralUtf8(ps: seq<Piece>)
    requires WfPieces(ps) && ValidUtf8(PiecesText(ps))
    ensures ValidUtf8(PiecesMeaning(ps))
    decreases |ps|
  {
    hide PieceText, PieceMeaning, Head;
    if ps != [] {
      var text := PiecesText(ps);
      if ps[0].Plain? && ps[0].c >= 0x80 {
        assert text[0] == ps[0].c by { PlainText(ps[0]); }
        HeadFits(text);
        var n := 1 + LeadOf(text[0]).extra;
        forall k | 0 <= k < n ensures text[k] >= 0x80 {
          if k > 0 {
            HeadContinues(text, k);
            ContinuationOctet(text[k]);
          }
        }
        PlainRun(ps, n);
        SameHead(text[..n], text[n..]);
        assert text[..n] + text[n..] == text;
        assert text[..n][n..] == [];
        assert ValidUtf8(text[..n]);
        assert text[n..] == PiecesText(ps[n..]);
        LiteralUtf8(ps[n..]);
        ValidUtf8Append(text[..n], PiecesMeaning(ps[n..]));
      } else {
        assert Ascii(PieceText(ps[0])) && ValidUtf8(PieceMeaning(ps[0])) by { PieceIsAscii(ps[0]); }
        AsciiPrefix(PieceText(ps[0]), PiecesText(ps[1..]));
        LiteralUtf8(ps[1..]);
        ValidUtf8Append(PieceMeaning(ps[0]), PiecesMeaning(ps[1..]));
      }
    }
  }

  lemma PlainText(p: Piece)
    requires p.Plain?
    ensures PieceText(p) == [p.c]
  {
  }

  lemma HeadFits(s: bytes)
    requires s != [] && Head(s).Some?
    ensures LeadOf(s[0]).Lead? && 1 + LeadOf(s[0]).extra <= |s|
  {
  }

  lemma PieceIsAscii(p: Piece)
    requires WfPiece(p) && (p.Plain? ==> p.c < 0x80)
    ensures Ascii(PieceText(p)) && ValidUtf8(PieceMeaning(p))
  {
    if p.Plain? {
      AsciiIsValid([p.c]);
    } else {
      EscapeUtf8(p);
    }
  }

  // ---- documents ------------------------------------------------------------------------

  /** Every string and every key of a tree is UTF-8. */
  predicate StringsUtf8(v: Json)
    decreases v, 0
  {
    match v
    case JString(s) => ValidUtf8(s)
    case JArray(items) => AllUtf8(items)
    case JObject(ms) => MembersAreUtf8(ms)
    case _ => true
  }

  predicate AllUtf8(vs: seq<Json>)
    decreases vs, 1
  {
    forall i :: 0 <= i < |vs| ==> StringsUtf8(vs[i])
  }

  predicate MembersAreUtf8(ms: seq<Member>)
    decreases ms, 1
  {
    forall i :: 0 <= i < |ms| ==> ValidUtf8(ms[i].key) && StringsUtf8(ms[i].value)
  }

  lemma BlankIsAscii(ws: bytes)
    requires Blank(ws)
    ensures Ascii(ws)
  {
  }

  lemma WithoutTrailingBlank(a: bytes, ws: bytes)
    requires Blank(ws) && ValidUtf8(a + ws)
    ensures ValidUtf8(a)
  {
    BlankIsAscii(ws);
    if ws == [] {
      assert a + ws == a;
    } else {
      assert ws == [ws[0]] + ws[1..];
      AsciiSplit(a, ws[0], ws[1..]);
    }
  }

  lemma {:induction false} DocUtf8(d: Doc, depth: int)
    requires WfDoc(d, depth) && ValidUtf8(Text(d))
    ensures StringsUtf8(Meaning(d))
    decreases d, 0
  {
    hide ValidUtf8, WfItem, WfMember, ItemsText, MembersText;
    match d
    case DString(ps) =>
      AsciiPrefix([QUOTE], PiecesText(ps) + [QUOTE]);
      assert [QUOTE] + [] == [QUOTE];
      AsciiSplit(PiecesText(ps), QUOTE, []);
      LiteralUtf8(ps);
    case DArray(_, items) =>
      if items != [] {
        AsciiPrefix([OPEN_BRACKET], ItemsText(items));
        ItemsUtf8(items, depth + 1);
      } else {
        NothingMeant();
      }
    case DObject(_, ms) =>
      if ms != [] {
        AsciiPrefix([OPEN_BRACE], MembersText(ms));
        MembersUtf8(ms, depth + 1);
      } else {
        NothingMeant();
      }
    case _ =>
  }

  lemma {:induction false} ItemUtf8(it: Item, depth: int)
    requires WfItem(it, depth) && ValidUtf8(ItemText(it))
    ensures StringsUtf8(Meaning(it.doc))
    decreases it, 1
  {
    hide ValidUtf8, WfDoc, Text, Meaning, StringsUtf8;
    BlankIsAscii(it.before);
    AsciiPrefix(it.before, Text(it.doc) + it.after);
    WithoutTrailingBlank(Text(it.doc), it.after);
    DocUtf8(it.doc, depth);
  }

  lemma {:induction false} ItemsUtf8(items: seq<Item>, depth: int)
    requires items != [] && forall i :: 0 <= i < |items| ==> WfItem(items[i], depth)
    requires ValidUtf8(ItemsText(items))
    ensures AllUtf8(ItemsMeaning(items))
    decreases items, 2
  {
    hide ValidUtf8, ItemText, WfItem, Meaning, StringsUtf8;
    var vs := ItemsMeaning(items);
    if |items| == 1 {
      assert [CLOSE_BRACKET] + [] == [CLOSE_BRACKET];
      AsciiSplit(ItemText(items[0]), CLOSE_BRACKET, []);
    } else {
      AsciiSplit(ItemText(items[0]), COMMA, ItemsText(items[1..]));
      ItemsUtf8(items[1..], depth);
      assert forall i :: 0 < i < |vs| ==> vs[i] == ItemsMeaning(items[1..])[i - 1];
    }
    ItemUtf8(items[0], depth);
  }

  lemma {:induction false} MemberUtf8(m: DMember, depth: int)
    requires WfMember(m, depth) && ValidUtf8(MemberText(m))
    ensures ValidUtf8(Spelled(m.key)) && StringsUtf8(Meaning(m.item.doc))
    decreases m, 1
  {
    hide ValidUtf8, ItemText, WfItem, Meaning, StringsUtf8, PiecesText, PiecesMeaning;
    var value := [COLON] + ItemText(m.item);
    BlankIsAscii(m.lead);
    BlankIsAscii(m.mid);
    AsciiPrefix(m.lead, LiteralText(m.key) + (m.mid + value));
    Assoc(PiecesText(m.key), [QUOTE], m.mid + value);
    Assoc([QUOTE], PiecesText(m.key) + [QUOTE], m.mid + value);
    AsciiPrefix([QUOTE], PiecesText(m.key) + ([QUOTE] + (m.mid + value)));
    AsciiSplit(PiecesText(m.key), QUOTE, m.mid + value);
    AsciiPrefix(m.mid, value);
    AsciiPrefix([COLON], ItemText(m.item));
    LiteralUtf8(m.key);
    ItemUtf8(m.item, depth);
  }

  lemma {:induction false} MembersUtf8(ms: seq<DMember>, depth: int)
    requires ms != [] && forall i :: 0 <= i < |ms| ==> WfMember(ms[i], depth)
    requires ValidUtf8(MembersText(ms))
    ensures MembersAreUtf8(MembersMeaning(ms))
    decreases ms, 2
  {
    hide ValidUtf8, MemberText, WfMember, Meaning, StringsUtf8, Spelled;
    var vs := MembersMeaning(ms);
    if |ms| == 1 {
      assert [CLOSE_BRACE] + [] == [CLOSE_BRACE];
      AsciiSplit(MemberText(ms[0]), CLOSE_BRACE, []);
    } else {
      AsciiSplit(MemberText(ms[0]), COMMA, MembersText(ms[1..]));
      MembersUtf8(ms[1..], depth);
      assert forall i :: 0 < i < |vs| ==> vs[i] == MembersMeaning(ms[1..])[i - 1];
    }
    MemberUtf8(ms[0], depth);
  }

  /** UTF-8 text parses to strings and keys that are all UTF-8. */
  lemma ParsedStringsAreUtf8(b: bytes, v: Json)
    requires ValidUtf8(b) && ParseJson(b) == Some(v)
    ensures StringsUtf8(v)
  {
    hide ParseJson, ValidUtf8, StringsUtf8, WfItem, ItemText, Meaning;
    ParserIsExact(b, v);
    var it: Item :| WfItem(it, 0) && ItemText(it) == b && Meaning(it.doc) == v;
    ItemUtf8(it, 0);
  }
}
