/** Whitespace, strings and numbers: the reader's scans against the grammar's tokens. */
module JsonTokens {
  import opened Bytes
  import opened Utf8
  import opened Json
  import opened JsonGrammar

  // ---- whitespace -----------------------------------------------------------------------

  lemma {:induction false} SkipBlank(ws: bytes, b: bytes)
    requires Blank(ws)
    ensures SkipWs(ws + b) == SkipWs(b)
  {
    if ws != [] {
      assert IsWs(ws[0]) && (ws + b)[1..] == ws[1..] + b;
      SkipBlank(ws[1..], b);
    } else {
      assert ws + b == b;
    }
  }

  lemma {:induction false} SkippedIsBlank(b: bytes) returns (ws: bytes)
    ensures Blank(ws) && b == ws + SkipWs(b)
    ensures SkipWs(SkipWs(b)) == SkipWs(b)
    ensures SkipWs(b) != [] ==> !IsWs(SkipWs(b)[0])
  {
    ws := [];
    if b != [] && IsWs(b[0]) {
      var tail := SkippedIsBlank(b[1..]);
      ws := [b[0]] + tail;
      assert b == [b[0]] + b[1..];
    }
  }

  lemma LeadingBlankIgnored(ws: bytes, b: bytes, depth: int)
    requires Blank(ws)
    ensures ParseValue(ws + b, depth) == ParseValue(b, depth)
    ensures ParseValue(SkipWs(b), depth) == ParseValue(b, depth)
  {
    SkipBlank(ws, b);
    var _ := SkippedIsBlank(b);
  }

  // ---- strings --------------------------------------------------------------------------

  lemma ParseOfHex4(h: bytes, rest: bytes)
    requires |h| == 4 && Hex4Value(h).Some?
    ensures ParseHex4(h + rest) == Got(Hex4Value(h).value, rest)
  {
    assert (h + rest)[..4] == h && (h + rest)[4..] == rest;
  }

  lemma ParseOfUnit(h: bytes, rest: bytes)
    requires WfPiece(Unit(h))
    ensures ParseUnicode(h + rest) == Got(PieceMeaning(Unit(h)), rest)
  {
    ParseOfHex4(h, rest);
  }

  lemma ParseOfPair(hi: bytes, lo: bytes, rest: bytes)
    requires WfPiece(Pair(hi, lo))
    ensures ParseUnicode(hi + ([BACKSLASH, 0x75] + (lo + rest))) == Got(PieceMeaning(Pair(hi, lo)), rest)
  {
    hide ParseHex4, Hex4Value;
    var tail := [BACKSLASH, 0x75] + (lo + rest);
    ParseOfHex4(hi, tail);
    ParseOfHex4(lo, rest);
    assert tail[2..] == lo + rest;
  }

  lemma ParseOfPiece(p: Piece, rest: bytes)
    requires WfPiece(p)
    ensures PieceText(p)[0] != QUOTE
    ensures ParsePiece(PieceText(p) + rest) == Got(PieceMeaning(p), rest)
  {
    hide ParseUnicode, Hex4Value;
    var b := PieceText(p) + rest;
    match p
    case Plain(c) => assert b[1..] == rest;
    case Short(e) => assert b[2..] == rest && Unescape(0x75).None?;
    case Unit(h) =>
      ParseOfUnit(h, rest);
      assert b[2..] == h + rest;
    case Pair(hi, lo) =>
      ParseOfPair(hi, lo, rest);
      assert b[2..] == hi + ([BACKSLASH, 0x75] + (lo + rest));
  }

  lemma {:induction false} ParseOfPieces(ps: seq<Piece>, rest: bytes)
    requires WfPieces(ps)
    ensures ParseString(PiecesText(ps) + ([QUOTE] + rest)) == Got(PiecesMeaning(ps), rest)
  {
    hide ParsePiece, PieceText, PieceMeaning, WfPiece;
    var b := PiecesText(ps) + ([QUOTE] + rest);
    if ps == [] {
      assert b == [QUOTE] + rest;
    } else {
      var tail := PiecesText(ps[1..]) + ([QUOTE] + rest);
      assert b == PieceText(ps[0]) + tail;
      ParseOfPiece(ps[0], tail);
      assert b[0] == PieceText(ps[0])[0];
      ParseOfPieces(ps[1..], rest);
    }
  }

  lemma PieceOfParse(b: bytes) returns (p: Piece)
    requires b != [] && b[0] != QUOTE && ParsePiece(b).Got?
    ensures WfPiece(p) && b == PieceText(p) + ParsePiece(b).rest && PieceMeaning(p) == ParsePiece(b).value
  {
    hide Hex4Value;
    if b[0] != BACKSLASH {
      p := Plain(b[0]);
      assert b == [b[0]] + b[1..];
    } else if b[1] != 0x75 {
      p := Short(b[1]);
      assert b == [b[0], b[1]] + b[2..];
    } else {
      var h, left := b[2..][..4], b[2..][4..];
      assert b == [BACKSLASH, 0x75] + (h + left);
      if IsHigh(Hex4Value(h).value) {
        var lo := left[2..][..4];
        p := Pair(h, lo);
        assert left == [BACKSLASH, 0x75] + (lo + left[2..][4..]);
      } else {
        p := Unit(h);
      }
    }
  }

  lemma {:induction false} PiecesOfParse(b: bytes) returns (ps: seq<Piece>)
    requires ParseString(b).Got?
    ensures WfPieces(ps) && b == PiecesText(ps) + ([QUOTE] + ParseString(b).rest)
    ensures PiecesMeaning(ps) == ParseString(b).value
    decreases |b|
  {
    hide ParsePiece, PieceText, PieceMeaning, WfPiece;
    var rest := ParseString(b).rest;
    if b[0] == QUOTE {
      ps := [];
      assert b == [] + ([QUOTE] + b[1..]);
    } else {
      var p := PieceOfParse(b);
      var left := ParsePiece(b).rest;
      var tail := PiecesOfParse(left);
      ps := [p] + tail;
      assert ps[1..] == tail;
      assert b == PieceText(p) + (PiecesText(tail) + ([QUOTE] + rest));
    }
  }

  // ---- numbers --------------------------------------------------------------------------

  /** b does not go on with a number. */
  predicate EndsNumber(b: bytes) {
    b == [] || !(IsDigit(b[0]) || b[0] == 0x2E || b[0] == 0x65 || b[0] == 0x45)
  }

  predicate NoDigit(b: bytes) { b == [] || !IsDigit(b[0]) }

  lemma {:induction false} SkipOfDigits(ds: bytes, rest: bytes)
    requires Digits(ds) && NoDigit(rest)
    ensures SkipDigits(ds + rest) == rest
    ensures ds != [] ==> SkipDigits1(ds + rest) == Some(rest)
  {
    if ds == [] {
      assert ds + rest == rest;
    } else {
      assert IsDigit(ds[0]) && (ds + rest)[1..] == ds[1..] + rest;
      SkipOfDigits(ds[1..], rest);
    }
  }

  predicate IsSign(sign: bytes) { sign == [] || sign == [0x2B] || sign == [MINUS] }

  lemma SkipOfSign(sign: bytes, digits: bytes)
    requires IsSign(sign) && digits != [] && IsDigit(digits[0])
    ensures SkipSign(sign + digits) == digits
  {
    assert sign == [] ==> sign + digits == digits;
    assert sign != [] ==> (sign + digits)[1..] == digits;
  }

  lemma SignOfSkip(b: bytes) returns (sign: bytes)
    ensures IsSign(sign) && b == sign + SkipSign(b)
  {
    if SkipSign(b) == b {
      sign := [];
      assert b == [] + b;
    } else {
      sign := [b[0]];
      assert b == [b[0]] + b[1..];
    }
  }

  lemma SkipOfExponent(e: Option<Exponent>, rest: bytes)
    requires WfExponent(e) && EndsNumber(rest)
    ensures SkipExponent(ExponentText(e) + rest) == Some(rest)
    ensures NoDigit(ExponentText(e) + rest) && !StartsWith(ExponentText(e) + rest, 0x2E)
  {
    hide SkipDigits1, SkipSign;
    var b := ExponentText(e) + rest;
    if e.Some? {
      var x, digits := e.value, e.value.digits + rest;
      SkipOfDigits(x.digits, rest);
      assert IsDigit(digits[0]);
      SkipOfSign(x.sign, digits);
      Assoc(x.sign, x.digits, rest);
      assert b == [x.mark] + (x.sign + digits);
      assert b[1..] == x.sign + digits;
    } else {
      assert b == rest;
    }
  }

  lemma SkipOfFraction(f: Option<bytes>, rest: bytes)
    requires f.Some? ==> f.value != [] && Digits(f.value)
    requires NoDigit(rest) && !StartsWith(rest, 0x2E)
    ensures SkipFraction(FractionText(f) + rest) == Some(rest)
    ensures NoDigit(FractionText(f) + rest)
  {
    if f.Some? {
      assert (FractionText(f) + rest)[1..] == f.value + rest;
      SkipOfDigits(f.value, rest);
    } else {
      assert FractionText(f) + rest == rest;
    }
  }

  lemma SkipOfWhole(whole: bytes, rest: bytes)
    requires whole != [] && Digits(whole) && (whole[0] == 0x30 ==> |whole| == 1) && NoDigit(rest)
    ensures SkipWhole(whole + rest) == Some(rest)
  {
    SkipOfDigits(whole, rest);
    assert |whole| == 1 ==> (whole + rest)[1..] == rest;
  }

  lemma SkipOfNumber(n: Number, rest: bytes)
    requires WfNumber(n) && EndsNumber(rest)
    ensures SkipNumber(NumberText(n) + rest) == Some(rest)
    ensures var c := NumberText(n)[0]; c == MINUS || IsDigit(c)
  {
    hide SkipWhole, SkipFraction, SkipExponent, FractionText, ExponentText, WfExponent;
    var b2 := ExponentText(n.exponent) + rest;
    SkipOfExponent(n.exponent, rest);
    var b1 := FractionText(n.fraction) + b2;
    SkipOfFraction(n.fraction, b2);
    var b0 := n.whole + b1;
    SkipOfWhole(n.whole, b1);
    assert IsDigit(b0[0]);
    Assoc(FractionText(n.fraction), ExponentText(n.exponent), rest);
    Assoc(n.whole, FractionText(n.fraction) + ExponentText(n.exponent), rest);
    var b := NumberText(n) + rest;
    assert if n.neg then b == [MINUS] + b0 && b[1..] == b0 else b == b0;
  }

  lemma {:induction false} DigitsOfSkip(b: bytes) returns (ds: bytes)
    ensures Digits(ds) && b == ds + SkipDigits(b)
    ensures NoDigit(SkipDigits(b))
  {
    ds := [];
    if b != [] && IsDigit(b[0]) {
      var tail := DigitsOfSkip(b[1..]);
      ds := [b[0]] + tail;
      assert b == [b[0]] + b[1..];
    }
  }

  lemma DigitsOfSkip1(b: bytes) returns (ds: bytes)
    requires SkipDigits1(b).Some?
    ensures Digits(ds) && ds != [] && ds[0] == b[0] && b == ds + SkipDigits1(b).value
  {
    var tail := DigitsOfSkip(b[1..]);
    ds := [b[0]] + tail;
    assert b == [b[0]] + b[1..];
  }

  lemma WholeOfSkip(b: bytes) returns (whole: bytes)
    requires SkipWhole(b).Some?
    ensures whole != [] && Digits(whole) && (whole[0] == 0x30 ==> |whole| == 1)
    ensures b == whole + SkipWhole(b).value
  {
    if StartsWith(b, 0x30) {
      whole := [b[0]];
      assert b == [b[0]] + b[1..];
    } else {
      whole := DigitsOfSkip1(b);
    }
  }

  lemma FractionOfSkip(b: bytes) returns (f: Option<bytes>)
    requires SkipFraction(b).Some?
    ensures f.Some? ==> f.value != [] && Digits(f.value)
    ensures b == FractionText(f) + SkipFraction(b).value
  {
    f := None;
    if StartsWith(b, 0x2E) {
      var ds := DigitsOfSkip1(b[1..]);
      f := Some(ds);
      assert b == [b[0]] + b[1..];
    }
  }

  lemma ExponentOfSkip(b: bytes) returns (e: Option<Exponent>)
    requires SkipExponent(b).Some?
    ensures WfExponent(e) && b == ExponentText(e) + SkipExponent(b).value
  {
    hide SkipDigits1, SkipSign;
    e := None;
    if StartsWith(b, 0x65) || StartsWith(b, 0x45) {
      var signed, rest := b[1..], SkipExponent(b).value;
      var sign := SignOfSkip(signed);
      var ds := DigitsOfSkip1(SkipSign(signed));
      e := Some(Exponent(b[0], sign, ds));
      Assoc(sign, ds, rest);
      Assoc([b[0]], sign + ds, rest);
      assert b == [b[0]] + signed;
    }
  }

  lemma NumberOfSkip(b: bytes) returns (n: Number)
    requires SkipNumber(b).Some?
    ensures WfNumber(n) && b == NumberText(n) + SkipNumber(b).value
  {
    hide SkipWhole, SkipFraction, SkipExponent, FractionText, ExponentText, WfExponent;
    var neg := StartsWith(b, MINUS);
    var b0 := if neg then b[1..] else b;
    assert b == (if neg then [MINUS] else []) + b0;
    var whole := WholeOfSkip(b0);
    var b1 := SkipWhole(b0).value;
    var f := FractionOfSkip(b1);
    var b2 := SkipFraction(b1).value;
    var e := ExponentOfSkip(b2);
    n := Number(neg, whole, f, e);
    var rest := SkipExponent(b2).value;
    Assoc(FractionText(f), ExponentText(e), rest);
    Assoc(whole, FractionText(f) + ExponentText(e), rest);
    Assoc(if neg then [MINUS] else [], whole + (FractionText(f) + ExponentText(e)), rest);
  }
}
