/** The recursive-descent parser and the quoter as they run (src/detail/json.cpp): one
    cursor over the input, loops that push onto their output. */
module JsonParser {
  import opened Bytes
  import opened Utf8
  import opened Json
  import opened JsonTokens

  /** The characters read so far, completed with what the rest reads as. */
  ghost function Gathered(done: bytes, tail: Read<bytes>): Read<bytes> {
    match tail
    case Refused => Refused
    case Got(cs, rest) => Got(done + cs, rest)
  }

  class Parser {
    const s: bytes
    var i: nat

    ghost predicate Valid()
      reads this
    {
      i <= |s|
    }

    ghost function Left(): bytes
      reads this
      requires Valid()
    {
      s[i..]
    }

    constructor (input: bytes)
      ensures Valid() && s == input && i == 0
    {
      s, i := input, 0;
    }

    /** A successful read is the specified one; a refused read only moves forward. */
    twostate predicate Reads<T>(ok: bool, value: T, spec: Read<T>)
      reads this
      requires old(Valid())
    {
      Valid() && i >= old(i) && ok == spec.Got? && (ok ==> spec == Got(value, Left()))
    }

    /** peek() is c; the NUL that peek() yields at the end matches no c asked about. */
    predicate Peeks(c: byte)
      reads this
    {
      i < |s| && s[i] == c
    }

    method SkipSpace()
      requires Valid()
      modifies this
      ensures Valid() && i >= old(i) && Left() == SkipWs(old(Left()))
    {
      while i < |s| && IsWs(s[i])
        invariant Valid() && i >= old(i)
        invariant SkipWs(Left()) == SkipWs(old(Left()))
      {
        assert Left()[1..] == s[i + 1..];
        i := i + 1;
      }
    }

    method Advance(n: nat)
      requires Valid() && n <= |Left()|
      modifies this
      ensures Valid() && i == old(i) + n && Left() == old(Left())[n..]
    {
      i := i + n;
    }

    method Hex4() returns (ok: bool, cp: nat)
      requires Valid()
      modifies this
      ensures Reads(ok, cp, ParseHex4(old(Left())))
    {
      if i + 4 > |s| {
        return false, 0;
      }
      ghost var h := Left()[..4];
      cp := 0;
      var k := 0;
      while k < 4
        invariant 0 <= k <= 4
        invariant forall j :: 0 <= j < k ==> HexDigit(h[j]).Some?
        invariant cp == HexPrefix(h, k)
      {
        var d := HexDigit(s[i + k]);
        assert h[k] == s[i + k];
        if d.None? {
          return false, 0;
        }
        cp := cp * 16 + d.value;
        k := k + 1;
      }
      assert HexPrefix(h, 4) == Hex4Value(h).value by { HexPrefixes(h); }
      Advance(4);
      ok := true;
    }

    method Unicode() returns (ok: bool, cs: bytes)
      requires Valid()
      modifies this
      ensures Reads(ok, cs, ParseUnicode(old(Left())))
    {
      hide ParseHex4;
      cs := [];
      var got, cp := Hex4();
      if !got {
        return false, [];
      }
      if IsHigh(cp) {
        if i + 2 > |s| || s[i] != BACKSLASH || s[i + 1] != 0x75 {
          return false, [];
        }
        Advance(2);
        var got2, lo := Hex4();
        if !got2 {
          return false, [];
        }
        if !IsLow(lo) {
          return false, [];
        }
        return true, EncodeUtf8(Joined(cp, lo));
      }
      if IsLow(cp) {
        return false, [];
      }
      return true, EncodeUtf8(cp);
    }

    /** One turn of the string loop, not at a quote. */
    method StringPiece() returns (ok: bool, cs: bytes)
      requires Valid() && Left() != [] && Left()[0] != QUOTE
      modifies this
      ensures Reads(ok, cs, ParsePiece(old(Left())))
      ensures ok ==> i > old(i)
    {
      hide ParseUnicode;
      cs := [];
      ghost var b := Left();
      var c := s[i];
      if c == BACKSLASH {
        Advance(1);
        if i >= |s| {
          return false, [];
        }
        var e := s[i];
        Advance(1);
        assert b[1] == e && Left() == b[2..];
        if e == 0x75 {
          ok, cs := Unicode();
          return;
        }
        var u := Unescape(e);
        if u.None? {
          return false, [];
        }
        return true, [u.value];
      }
      if c < 0x20 {
        return false, [];
      }
      Advance(1);
      return true, [c];
    }

    /** A string from its opening quote. */
    method StringLiteral() returns (ok: bool, out: bytes)
      requires Valid() && Peeks(QUOTE)
      modifies this
      ensures Reads(ok, out, ParseString(old(Left())[1..]))
      ensures ok ==> i > old(i)
    {
      hide ParsePiece;
      Advance(1);
      ghost var start := Left();
      out := [];
      assert ParseString(start).Got? ==> [] + ParseString(start).value == ParseString(start).value;
      while true
        invariant Valid() && i > old(i)
        invariant ParseString(start) == Gathered(out, ParseString(Left()))
        decreases |s| - i
      {
        if i >= |s| {
          return false, [];
        }
        if s[i] == QUOTE {
          Advance(1);
          assert out + [] == out;
          return true, out;
        }
        ghost var b := Left();
        var got, cs := StringPiece();
        if !got {
          return false, [];
        }
        if ParseString(Left()).Got? {
          Assoc(out, cs, ParseString(Left()).value);
        }
        out := out + cs;
      }
    }

    method Digits()
      requires Valid()
      modifies this
      ensures Valid() && i >= old(i) && Left() == SkipDigits(old(Left()))
    {
      while i < |s| && IsDigit(s[i])
        invariant Valid() && i >= old(i)
        invariant SkipDigits(Left()) == SkipDigits(old(Left()))
      {
        assert Left()[1..] == s[i + 1..];
        i := i + 1;
      }
    }

    /** A required digit and those after it. */
    method Digits1() returns (ok: bool)
      requires Valid()
      modifies this
      ensures Valid() && i >= old(i) && ok == SkipDigits1(old(Left())).Some?
      ensures ok ==> Some(Left()) == SkipDigits1(old(Left()))
    {
      if i >= |s| || !IsDigit(s[i]) {
        return false;
      }
      Advance(1);
      Digits();
      ok := true;
    }

    /** A scan that moved to where the specification says, or refused. */
    twostate predicate Scans(ok: bool, spec: Option<bytes>)
      reads this
      requires old(Valid())
    {
      Valid() && i >= old(i) && ok == spec.Some? && (ok ==> spec == Some(Left()))
    }

    method Whole() returns (ok: bool)
      requires Valid()
      modifies this
      ensures Scans(ok, SkipWhole(old(Left())))
    {
      if Peeks(0x30) {
        Advance(1);
        return true;
      }
      ok := Digits1();
    }

    method Fraction() returns (ok: bool)
      requires Valid()
      modifies this
      ensures Scans(ok, SkipFraction(old(Left())))
    {
      if Peeks(0x2E) {
        Advance(1);
        ok := Digits1();
        return;
      }
      ok := true;
    }

    method Exponent() returns (ok: bool)
      requires Valid()
      modifies this
      ensures Scans(ok, SkipExponent(old(Left())))
    {
      if Peeks(0x65) || Peeks(0x45) {
        Advance(1);
        if Peeks(0x2B) || Peeks(MINUS) {
          Advance(1);
        }
        ok := Digits1();
        return;
      }
      ok := true;
    }

    /** parse_number, its three parts in order. */
    method NumberLiteral() returns (ok: bool, v: Json)
      requires Valid() && Left() != []
      modifies this
      ensures Scans(ok, SkipNumber(old(Left())))
      ensures ok ==> v == JNumber(old(Left())[..|old(Left())| - |Left()|])
    {
      hide SkipWhole, SkipFraction, SkipExponent;
      v := JNull;
      ghost var b := Left();
      var start := i;
      if Peeks(MINUS) {
        Advance(1);
      }
      ok := Whole();
      if !ok {
        return;
      }
      ok := Fraction();
      if !ok {
        return;
      }
      ok := Exponent();
      if !ok {
        return;
      }
      assert s[start..i] == b[..|b| - |Left()|];
      v := JNumber(s[start..i]);
    }

    method Literal(text: bytes, node: Json) returns (ok: bool, v: Json)
      requires Valid() && text != []
      modifies this
      ensures Reads(ok, v, ParseLiteral(old(Left()), text, node))
    {
      v := node;
      if |text| > |s| - i || s[i..i + |text|] != text {
        assert !(text <= Left());
        return false, node;
      }
      Advance(|text|);
      ok := true;
    }

    method Value(depth: nat) returns (ok: bool, v: Json)
      requires Valid()
      modifies this
      ensures Reads(ok, v, ParseValue(old(Left()), depth))
      ensures ok ==> i > old(i)
      decreases |s| - i, 1
    {
      hide ParseMembers, ParseItems, ParseString, SkipNumber;
      v := JNull;
      SkipSpace();
      ghost var b := Left();
      if i >= |s| {
        return false, JNull;
      }
      var c := s[i];
      if c == OPEN_BRACE {
        ok, v := Object(depth);
      } else if c == OPEN_BRACKET {
        ok, v := Array(depth);
      } else if c == QUOTE {
        var got, text := StringLiteral();
        return got, JString(text);
      } else if c == 0x74 {
        ok, v := Literal(TRUE_TEXT, JBool(true));
      } else if c == 0x66 {
        ok, v := Literal(FALSE_TEXT, JBool(false));
      } else if c == 0x6E {
        ok, v := Literal(NULL_TEXT, JNull);
      } else if c == MINUS || IsDigit(c) {
        ok, v := NumberLiteral();
      } else {
        ok := false;
      }
    }

    method Object(depth: nat) returns (ok: bool, v: Json)
      requires Valid() && Peeks(OPEN_BRACE)
      modifies this
      ensures Reads(ok, v, ObjectSpec(old(Left()), depth))
      ensures ok ==> i > old(i)
      decreases |s| - i, 0
    {
      hide ParseMembers, MemberSpec;
      v := JNull;
      if depth + 1 > JSON_MAX_DEPTH {
        return false, JNull;
      }
      Advance(1);
      SkipSpace();
      if Peeks(CLOSE_BRACE) {
        Advance(1);
        return true, JObject([]);
      }
      ghost var spec := ParseMembers(Left(), depth, []);
      var members: seq<Member> := [];
      while true
        invariant Valid() && i > old(i)
        invariant spec == ParseMembers(Left(), depth, members)
        decreases |s| - i
      {
        MembersByOne(Left(), depth, members);
        var got, m := OneMember(members, depth);
        if !got {
          return false, JNull;
        }
        members := members + [m];
        SkipSpace();
        if Peeks(COMMA) {
          Advance(1);
        } else if Peeks(CLOSE_BRACE) {
          Advance(1);
          return true, JObject(members);
        } else {
          return false, JNull;
        }
      }
    }

    /** A key that is new, a colon, a value. */
    method OneMember(members: seq<Member>, depth: nat) returns (ok: bool, m: Member)
      requires Valid()
      modifies this
      ensures Reads(ok, m, MemberSpec(members, old(Left()), depth))
      ensures ok ==> i > old(i)
      decreases |s| - i, 2
    {
      hide ParseString, ParseValue, HasKey;
      m := Member([], JNull);
      SkipSpace();
      if !Peeks(QUOTE) {
        return false, m;
      }
      var got, key := StringLiteral();
      if !got {
        return false, m;
      }
      var duplicate := Contains(members, key);
      if duplicate {
        return false, m;
      }
      SkipSpace();
      if !Peeks(COLON) {
        return false, m;
      }
      Advance(1);
      var got2, item := Value(depth + 1);
      ok, m := got2, Member(key, item);
    }

    method Array(depth: nat) returns (ok: bool, v: Json)
      requires Valid() && Peeks(OPEN_BRACKET)
      modifies this
      ensures Reads(ok, v, ArraySpec(old(Left()), depth))
      ensures ok ==> i > old(i)
      decreases |s| - i, 0
    {
      hide ParseValue;
      v := JNull;
      if depth + 1 > JSON_MAX_DEPTH {
        return false, JNull;
      }
      Advance(1);
      SkipSpace();
      if Peeks(CLOSE_BRACKET) {
        Advance(1);
        return true, JArray([]);
      }
      ghost var spec := ParseItems(Left(), depth, []);
      var items: seq<Json> := [];
      while true
        invariant Valid() && i > old(i)
        invariant spec == ParseItems(Left(), depth, items)
        decreases |s| - i
      {
        var got, item := Value(depth + 1);
        if !got {
          return false, JNull;
        }
        items := items + [item];
        SkipSpace();
        if Peeks(COMMA) {
          Advance(1);
        } else if Peeks(CLOSE_BRACKET) {
          Advance(1);
          return true, JArray(items);
        } else {
          return false, JNull;
        }
      }
    }
  }

  /** One member of an object, after those in acc. */
  ghost function MemberSpec(acc: seq<Member>, input: bytes, depth: nat): Read<Member> {
    var b := SkipWs(input);
    if !StartsWith(b, QUOTE) then Refused
    else
      match ParseString(b[1..])
      case Refused => Refused
      case Got(key, left) =>
        var b1 := SkipWs(left);
        if HasKey(acc, key) || !StartsWith(b1, COLON) then Refused
        else
          match ParseValue(b1[1..], depth + 1)
          case Refused => Refused
          case Got(v, rest) => Got(Member(key, v), rest)
  }

  /** The members of an object, one at a time. */
  lemma MembersByOne(b: bytes, depth: nat, acc: seq<Member>)
    ensures var r := MemberSpec(acc, b, depth);
            ParseMembers(b, depth, acc) ==
            if r.Refused? then Refused
            else
              var b2 := SkipWs(r.rest);
              if StartsWith(b2, COMMA) then ParseMembers(b2[1..], depth, acc + [r.value])
              else if StartsWith(b2, CLOSE_BRACE) then Got(JObject(acc + [r.value]), b2[1..])
              else Refused
  {
    hide ParseString, ParseValue, HasKey;
  }

  /** What ParseValue says of an input that starts with a brace. */
  ghost function ObjectSpec(b: bytes, depth: nat): Read<Json>
    requires StartsWith(b, OPEN_BRACE)
  {
    if depth + 1 > JSON_MAX_DEPTH then Refused
    else if StartsWith(SkipWs(b[1..]), CLOSE_BRACE) then Got(JObject([]), SkipWs(b[1..])[1..])
    else ParseMembers(SkipWs(b[1..]), depth, [])
  }

  /** What ParseValue says of an input that starts with a bracket. */
  ghost function ArraySpec(b: bytes, depth: nat): Read<Json>
    requires StartsWith(b, OPEN_BRACKET)
  {
    if depth + 1 > JSON_MAX_DEPTH then Refused
    else if StartsWith(SkipWs(b[1..]), CLOSE_BRACKET) then Got(JArray([]), SkipWs(b[1..])[1..])
    else ParseItems(SkipWs(b[1..]), depth, [])
  }

  /** The first k of four hexadecimal digits, as a number. */
  ghost function HexPrefix(h: bytes, k: nat): nat
    requires k <= |h| && forall j :: 0 <= j < k ==> HexDigit(h[j]).Some?
  {
    if k == 0 then 0 else HexPrefix(h, k - 1) * 16 + HexDigit(h[k - 1]).value
  }

  lemma HexPrefixes(h: bytes)
    requires |h| == 4 && forall j :: 0 <= j < 4 ==> HexDigit(h[j]).Some?
    ensures HexPrefix(h, 4) == Hex4Value(h).value
  {
    assert HexPrefix(h, 1) == HexDigit(h[0]).value;
    assert HexPrefix(h, 2) == HexPrefix(h, 1) * 16 + HexDigit(h[1]).value;
    assert HexPrefix(h, 3) == HexPrefix(h, 2) * 16 + HexDigit(h[2]).value;
  }

  method Contains(members: seq<Member>, key: bytes) returns (found: bool)
    ensures found == HasKey(members, key)
  {
    for k := 0 to |members|
      invariant forall j :: 0 <= j < k ==> members[j].key != key
    {
      if members[k].key == key {
        return true;
      }
    }
    return false;
  }

  /** parse_json: run() of a fresh parser. */
  method ParseDocument(input: bytes) returns (r: Option<Json>)
    ensures r == ParseJson(input)
  {
    var p := new Parser(input);
    p.SkipSpace();
    var got, v := p.Value(0);
    if !got {
      return None;
    }
    p.SkipSpace();
    if p.i != |p.s| {
      return None;
    }
    r := Some(v);
  }

  method QuoteInto(s: bytes, out: Sink)
    modifies out
    ensures out.data == old(out.data) + Quote(s)
  {
    out.Push(QUOTE);
    var k := 0;
    assert s[0..] == s;
    while k < |s|
      invariant 0 <= k <= |s|
      invariant out.data + QuoteChars(s[k..]) == old(out.data) + [QUOTE] + QuoteChars(s)
    {
      assert s[k..][1..] == s[k + 1..];
      Assoc(out.data, QuoteChar(s[k]), QuoteChars(s[k + 1..]));
      out.Append(QuoteChar(s[k]));
      k := k + 1;
    }
    out.Push(QUOTE);
    assert old(out.data) + Quote(s) == old(out.data) + [QUOTE] + QuoteChars(s) + [QUOTE];
  }
}
