/** Base64 (RFC 4648, section 4) with canonical padding bits required (section 3.5). */
module Base64 {
  import opened Bytes

  type sextet = x: int | 0 <= x < 64

  /** The alphabet, forwards. */
  function Symbol(v: sextet): byte {
    if v < 26 then 0x41 + v
    else if v < 52 then 0x61 + (v - 26)
    else if v < 62 then 0x30 + (v - 52)
    else if v == 62 then 0x2B
    else 0x2F
  }

  /** The reverse table; None is its 0xFF entry. */
  function Sextet(c: byte): Option<sextet> {
    if 0x41 <= c <= 0x5A then Some(c - 0x41)
    else if 0x61 <= c <= 0x7A then Some(c - 0x61 + 26)
    else if 0x30 <= c <= 0x39 then Some(c - 0x30 + 52)
    else if c == 0x2B then Some(62)
    else if c == 0x2F then Some(63)
    else None
  }

  const PAD: byte := 0x3D

  lemma AlphabetIsExact(v: sextet, c: byte)
    ensures Sextet(Symbol(v)) == Some(v) && Symbol(v) != PAD
    ensures Sextet(c).Some? ==> Symbol(Sextet(c).value) == c
  {
  }

  function Quad(x: byte, y: byte, z: byte): bytes {
    [Symbol(x / 4), Symbol(x % 4 * 16 + y / 16), Symbol(y % 16 * 4 + z / 64), Symbol(z % 64)]
  }

  function Encode(b: bytes): bytes {
    if |b| == 0 then []
    else if |b| == 1 then [Symbol(b[0] / 4), Symbol(b[0] % 4 * 16), PAD, PAD]
    else if |b| == 2 then [Symbol(b[0] / 4), Symbol(b[0] % 4 * 16 + b[1] / 16), Symbol(b[1] % 16 * 4), PAD]
    else Quad(b[0], b[1], b[2]) + Encode(b[3..])
  }

  /** The octets four symbols spell; `last` says this is the final quad. */
  function Unquad(c0: byte, c1: byte, c2: byte, c3: byte, last: bool): Option<bytes> {
    var pad2, pad3 := c2 == PAD, c3 == PAD;
    if (pad2 || pad3) && !last then None
    else if pad2 && !pad3 then None
    else
      var v0, v1 := Sextet(c0), Sextet(c1);
      if v0.None? || v1.None? then None
      else
        var x: byte := v0.value * 4 + v1.value / 16;
        if pad2 then if v1.value % 16 != 0 then None else Some([x])
        else
          var v2 := Sextet(c2);
          if v2.None? then None
          else
            var y: byte := v1.value % 16 * 16 + v2.value / 4;
            if pad3 then if v2.value % 4 != 0 then None else Some([x, y])
            else
              var v3 := Sextet(c3);
              if v3.None? then None else Some([x, y, v2.value % 4 * 64 + v3.value])
  }

  function Decode(s: bytes): Option<bytes> {
    if |s| == 0 then Some([])
    else if |s| < 4 then None
    else
      match (Unquad(s[0], s[1], s[2], s[3], |s| == 4), Decode(s[4..]))
      case (Some(head), Some(tail)) => Some(head + tail)
      case _ => None
  }

  /** Three octets cut into four sextets and put together again. */
  lemma Octets(x: byte, y: byte, z: byte)
    ensures var v0, v1, v2, v3 := x / 4, x % 4 * 16 + y / 16, y % 16 * 4 + z / 64, z % 64;
            v0 * 4 + v1 / 16 == x && v1 % 16 * 16 + v2 / 4 == y && v2 % 4 * 64 + v3 == z
  {
    var v1, v2 := x % 4 * 16 + y / 16, y % 16 * 4 + z / 64;
    assert v1 / 16 == x % 4 && v1 % 16 == y / 16;
    assert v2 / 4 == y % 16 && v2 % 4 == z / 64;
  }

  /** Four sextets joined into three octets and cut again. */
  lemma Sextets(v0: sextet, v1: sextet, v2: sextet, v3: sextet)
    ensures var x, y, z := v0 * 4 + v1 / 16, v1 % 16 * 16 + v2 / 4, v2 % 4 * 64 + v3;
            x / 4 == v0 && x % 4 * 16 + y / 16 == v1 && y % 16 * 4 + z / 64 == v2 && z % 64 == v3
  {
    var x, y, z := v0 * 4 + v1 / 16, v1 % 16 * 16 + v2 / 4, v2 % 4 * 64 + v3;
    assert x % 4 == v1 / 16 && y / 16 == v1 % 16;
    assert y % 16 == v2 / 4 && z / 64 == v2 % 4;
  }

  lemma UnquadOfQuad(x: byte, y: byte, z: byte, last: bool)
    ensures var q := Quad(x, y, z); Unquad(q[0], q[1], q[2], q[3], last) == Some([x, y, z])
  {
    hide Symbol, Sextet;
    AlphabetIsExact(x / 4, 0);
    AlphabetIsExact(x % 4 * 16 + y / 16, 0);
    AlphabetIsExact(y % 16 * 4 + z / 64, 0);
    AlphabetIsExact(z % 64, 0);
    Octets(x, y, z);
  }

  lemma UnquadOfTail(x: byte, y: byte)
    ensures Unquad(Symbol(x / 4), Symbol(x % 4 * 16), PAD, PAD, true) == Some([x])
    ensures Unquad(Symbol(x / 4), Symbol(x % 4 * 16 + y / 16), Symbol(y % 16 * 4), PAD, true) == Some([x, y])
  {
    hide Symbol, Sextet;
    AlphabetIsExact(x / 4, 0);
    AlphabetIsExact(x % 4 * 16, 0);
    AlphabetIsExact(x % 4 * 16 + y / 16, 0);
    AlphabetIsExact(y % 16 * 4, 0);
    Octets(x, y, 0);
    Octets(x, 0, 0);
  }

  lemma EncodeShort(o: bytes)
    requires 1 <= |o| <= 3
    ensures Encode(o) == match |o|
                         case 1 => [Symbol(o[0] / 4), Symbol(o[0] % 4 * 16), PAD, PAD]
                         case 2 => [Symbol(o[0] / 4), Symbol(o[0] % 4 * 16 + o[1] / 16), Symbol(o[1] % 16 * 4), PAD]
                         case _ => Quad(o[0], o[1], o[2])
  {
    assert |o| == 3 ==> Encode(o[3..]) == [];
  }

  /** A quad that decodes is the one encoding of its octets. */
  lemma QuadOfUnquad(c0: byte, c1: byte, c2: byte, c3: byte, last: bool)
    requires Unquad(c0, c1, c2, c3, last).Some?
    ensures var o := Unquad(c0, c1, c2, c3, last).value;
            1 <= |o| <= 3 && (|o| < 3 ==> last) && Encode(o) == [c0, c1, c2, c3]
  {
    hide Symbol, Sextet, Encode;
    AlphabetIsExact(0, c0);
    AlphabetIsExact(0, c1);
    AlphabetIsExact(0, c2);
    AlphabetIsExact(0, c3);
    EncodeShort(Unquad(c0, c1, c2, c3, last).value);
    var v0, v1 := Sextet(c0).value, Sextet(c1).value;
    if c2 == PAD {
      Sextets(v0, v1, 0, 0);
    } else {
      Sextets(v0, v1, Sextet(c2).value, if c3 == PAD then 0 else Sextet(c3).value);
    }
  }

  lemma DecodeQuadThen(q: bytes, o: bytes, rest: bytes)
    requires |q| == 4 && Unquad(q[0], q[1], q[2], q[3], |rest| == 0) == Some(o)
    ensures Decode(q + rest) == match Decode(rest) case None => None case Some(t) => Some(o + t)
  {
    hide Unquad;
    assert (q + rest)[4..] == rest;
  }

  lemma {:induction false} DecodeOfEncode(b: bytes)
    ensures Decode(Encode(b)) == Some(b)
    ensures |Encode(b)| % 4 == 0
  {
    hide Symbol, Unquad, Decode;
    assert Decode([]) == Some([]) by { DecodeNothing(); }
    if |b| == 1 {
      UnquadOfTail(b[0], 0);
      assert b == [b[0]];
      DecodeQuadThen(Encode(b), b, []);
    } else if |b| == 2 {
      UnquadOfTail(b[0], b[1]);
      assert b == [b[0], b[1]];
      DecodeQuadThen(Encode(b), b, []);
    } else if |b| >= 3 {
      DecodeOfEncode(b[3..]);
      UnquadOfQuad(b[0], b[1], b[2], |Encode(b[3..])| == 0);
      DecodeQuadThen(Quad(b[0], b[1], b[2]), [b[0], b[1], b[2]], Encode(b[3..]));
      assert b == [b[0], b[1], b[2]] + b[3..];
    }
    assert Encode(b) + [] == Encode(b) && b + [] == b;
  }

  lemma DecodeNothing()
    ensures Decode([]) == Some([])
  {
  }

  /** Whatever is accepted is the canonical encoding of what it decodes to. */
  lemma {:induction false} EncodeOfDecode(s: bytes)
    requires Decode(s).Some?
    ensures Encode(Decode(s).value) == s
  {
    if |s| > 0 {
      var head := Unquad(s[0], s[1], s[2], s[3], |s| == 4).value;
      var tail := Decode(s[4..]).value;
      QuadOfUnquad(s[0], s[1], s[2], s[3], |s| == 4);
      EncodeOfDecode(s[4..]);
      assert s == [s[0], s[1], s[2], s[3]] + s[4..];
      if |head| == 3 {
        assert (head + tail)[3..] == tail && head[3..] == [];
        assert Encode(head) == Quad(head[0], head[1], head[2]) + Encode([]);
      } else {
        assert head + tail == head;
      }
    }
  }

  method EncodeInto(data: bytes, out: Sink)
    modifies out
    ensures out.data == old(out.data) + Encode(data)
  {
    var i := 0;
    assert data[0..] == data;
    while i + 3 <= |data|
      invariant 0 <= i <= |data|
      invariant out.data + Encode(data[i..]) == old(out.data) + Encode(data)
    {
      assert data[i..][3..] == data[i + 3..];
      out.Append(Quad(data[i], data[i + 1], data[i + 2]));
      i := i + 3;
    }
    var rem := |data| - i;
    if rem == 1 {
      out.Append([Symbol(data[i] / 4), Symbol(data[i] % 4 * 16), PAD, PAD]);
    } else if rem == 2 {
      out.Append([Symbol(data[i] / 4), Symbol(data[i] % 4 * 16 + data[i + 1] / 16), Symbol(data[i + 1] % 16 * 4), PAD]);
    }
  }

  method DecodeAll(s: bytes) returns (ok: bool, out: bytes)
    ensures ok == Decode(s).Some?
    ensures ok ==> out == Decode(s).value
  {
    out := [];
    if |s| % 4 != 0 {
      OddLengthRefused(s);
      return false, [];
    }
    var i := 0;
    assert s[0..] == s && (Decode(s).Some? ==> [] + Decode(s).value == Decode(s).value);
    while i < |s|
      invariant 0 <= i <= |s| && i % 4 == 0
      invariant Decode(s) == match Decode(s[i..]) case None => None case Some(t) => Some(out + t)
    {
      var quad := Unquad(s[i], s[i + 1], s[i + 2], s[i + 3], i + 4 == |s|);
      assert s[i..][4..] == s[i + 4..];
      if quad.None? {
        return false, [];
      }
      if Decode(s[i + 4..]).Some? {
        assert out + (quad.value + Decode(s[i + 4..]).value) == (out + quad.value) + Decode(s[i + 4..]).value;
      }
      out := out + quad.value;
      i := i + 4;
    }
    ok := true;
  }

  lemma {:induction false} OddLengthRefused(s: bytes)
    requires |s| % 4 != 0
    ensures Decode(s).None?
  {
    if |s| > 4 {
      OddLengthRefused(s[4..]);
    }
  }
}
