/** UTF-8 (RFC 3629, sections 3 and 4): the encoder of JSON escapes and the one
    validity scan both codecs use. */
module Utf8 {
  import opened Bytes

  /** A Unicode scalar value: any code point that is not a surrogate half. */
  type Scalar = cp: int | 0 <= cp < 0xD800 || 0xE000 <= cp <= 0x10FFFF

  function EncodeUtf8(cp: Scalar): (r: bytes)
    ensures 1 <= |r| <= 4
  {
    if cp <= 0x7F then [cp]
    else if cp <= 0x7FF then [0xC0 + cp / 0x40, 0x80 + cp % 0x40]
    else if cp <= 0xFFFF then [0xE0 + cp / 0x1000, 0x80 + cp / 0x40 % 0x40, 0x80 + cp % 0x40]
    else [0xF0 + cp / 0x40000, 0x80 + cp / 0x1000 % 0x40, 0x80 + cp / 0x40 % 0x40, 0x80 + cp % 0x40]
  }

  function EncodeAll(cps: seq<Scalar>): bytes {
    if cps == [] then [] else EncodeUtf8(cps[0]) + EncodeAll(cps[1..])
  }

  /** What a lead octet announces: continuation octets, payload bits, and the range
      of code points that length is allowed to spell. */
  datatype Lead = NotALead | Lead(extra: nat, bits: nat, lo: nat, hi: nat)

  function LeadOf(c: byte): Lead {
    if c < 0x80 then Lead(0, c, 0, 0x7F)
    else if c / 0x20 == 6 then Lead(1, c % 0x20, 0x80, 0x7FF)
    else if c / 0x10 == 14 then Lead(2, c % 0x10, 0x800, 0xFFFF)
    else if c / 0x08 == 30 then Lead(3, c % 0x08, 0x10000, 0x10FFFF)
    else NotALead
  }

  /** (c & 0xC0) == 0x80 */
  predicate IsContinuation(c: byte) { c / 0x40 == 2 }

  /** (c & 0x3F) */
  function Payload(c: byte): (r: nat)
    ensures r < 0x40
  {
    c % 0x40
  }

  /** Fold continuation octets onto the bits gathered so far. */
  function Fold(tail: bytes, cp: nat): Option<nat> {
    if tail == [] then Some(cp)
    else if !IsContinuation(tail[0]) then None
    else Fold(tail[1..], cp * 0x40 + Payload(tail[0]))
  }

  /** The code point s starts with, if s starts with a well-formed one. */
  function Head(s: bytes): (r: Option<Scalar>)
    requires s != []
  {
    var lead := LeadOf(s[0]);
    if lead.NotALead? || |s| < 1 + lead.extra then None
    else match Fold(s[1..1 + lead.extra], lead.bits)
      case None => None
      case Some(cp) => if lead.lo <= cp <= lead.hi && !(0xD800 <= cp <= 0xDFFF) then Some(cp) else None
  }

  predicate ValidUtf8(s: bytes) {
    s == [] || (Head(s).Some? && ValidUtf8(s[1 + LeadOf(s[0]).extra..]))
  }

  lemma FoldUnrolled(tail: bytes, cp: nat)
    requires |tail| <= 3
    ensures Fold(tail, cp) ==
            if exists k :: 0 <= k < |tail| && !IsContinuation(tail[k]) then None
            else Some(match |tail|
                      case 0 => cp
                      case 1 => cp * 0x40 + Payload(tail[0])
                      case 2 => (cp * 0x40 + Payload(tail[0])) * 0x40 + Payload(tail[1])
                      case _ => ((cp * 0x40 + Payload(tail[0])) * 0x40 + Payload(tail[1])) * 0x40 + Payload(tail[2]))
  {
    if |tail| > 0 {
      FoldUnrolled(tail[1..], cp * 0x40 + Payload(tail[0]));
    }
  }

  /** The shifts of the encoder taken six bits at a time. */
  lemma SixBitGroups(cp: nat)
    ensures cp / 0x1000 == cp / 0x40 / 0x40
    ensures cp / 0x40000 == cp / 0x40 / 0x40 / 0x40
    ensures cp == cp / 0x40 * 0x40 + cp % 0x40
    ensures cp == (cp / 0x1000 * 0x40 + cp / 0x40 % 0x40) * 0x40 + cp % 0x40
    ensures cp == ((cp / 0x40000 * 0x40 + cp / 0x1000 % 0x40) * 0x40 + cp / 0x40 % 0x40) * 0x40 + cp % 0x40
  {
  }

  /** The octets of an encoding, read as lead and continuations. */
  lemma EncodingShape(cp: Scalar)
    ensures var e := EncodeUtf8(cp); var lead := LeadOf(e[0]);
            && lead.Lead? && lead.extra == |e| - 1 && lead.lo <= cp <= lead.hi
            && (forall k :: 1 <= k < |e| ==> IsContinuation(e[k]))
  {
  }

  /** Reading back what the encoder wrote, whatever follows. */
  lemma HeadOfEncoding(cp: Scalar, rest: bytes)
    ensures Head(EncodeUtf8(cp) + rest) == Some(cp)
    ensures 1 + LeadOf(EncodeUtf8(cp)[0]).extra == |EncodeUtf8(cp)|
  {
    var e := EncodeUtf8(cp);
    EncodingShape(cp);
    assert (e + rest)[1..|e|] == e[1..];
    assert Fold(e[1..], LeadOf(e[0]).bits) == Some(cp) by {
      FoldUnrolled(e[1..], LeadOf(e[0]).bits);
      SixBitGroups(cp);
    }
  }

  lemma TwoOctets(a: nat, p: nat)
    requires a < 0x20 && p < 0x40 && 0x80 <= a * 0x40 + p
    ensures EncodeUtf8(a * 0x40 + p) == [0xC0 + a, 0x80 + p]
  {
  }

  lemma ThreeOctets(a: nat, p: nat, q: nat)
    requires a < 0x10 && p < 0x40 && q < 0x40
    requires var cp := (a * 0x40 + p) * 0x40 + q; 0x800 <= cp && !(0xD800 <= cp <= 0xDFFF)
    ensures EncodeUtf8((a * 0x40 + p) * 0x40 + q) == [0xE0 + a, 0x80 + p, 0x80 + q]
  {
    var cp := (a * 0x40 + p) * 0x40 + q;
    assert cp / 0x40 == a * 0x40 + p;
    SixBitGroups(cp);
  }

  lemma FourOctets(a: nat, p: nat, q: nat, r: nat)
    requires a < 0x08 && p < 0x40 && q < 0x40 && r < 0x40
    requires 0x10000 <= ((a * 0x40 + p) * 0x40 + q) * 0x40 + r <= 0x10FFFF
    ensures EncodeUtf8(((a * 0x40 + p) * 0x40 + q) * 0x40 + r) == [0xF0 + a, 0x80 + p, 0x80 + q, 0x80 + r]
  {
    var cp := ((a * 0x40 + p) * 0x40 + q) * 0x40 + r;
    assert cp / 0x40 == (a * 0x40 + p) * 0x40 + q;
    assert cp / 0x40 / 0x40 == a * 0x40 + p;
    SixBitGroups(cp);
  }

  lemma LeadOctet(c: byte)
    requires LeadOf(c).Lead?
    ensures var l := LeadOf(c);
            match l.extra
            case 0 => c == l.bits
            case 1 => c == 0xC0 + l.bits && l.bits < 0x20
            case 2 => c == 0xE0 + l.bits && l.bits < 0x10
            case _ => l.extra == 3 && c == 0xF0 + l.bits && l.bits < 0x08
  {
  }

  lemma ContinuationOctet(c: byte)
    requires IsContinuation(c)
    ensures c == 0x80 + Payload(c)
  {
  }

  lemma HeadOfTwo(s: bytes)
    requires s != [] && Head(s).Some? && LeadOf(s[0]).extra == 1
    ensures s[..2] == EncodeUtf8(Head(s).value)
  {
    LeadOctet(s[0]);
    var tail := s[1..2];
    FoldUnrolled(tail, LeadOf(s[0]).bits);
    assert IsContinuation(tail[0]);
    ContinuationOctet(s[1]);
    TwoOctets(LeadOf(s[0]).bits, Payload(s[1]));
  }

  lemma HeadOfThree(s: bytes)
    requires s != [] && Head(s).Some? && LeadOf(s[0]).extra == 2
    ensures s[..3] == EncodeUtf8(Head(s).value)
  {
    LeadOctet(s[0]);
    var tail := s[1..3];
    FoldUnrolled(tail, LeadOf(s[0]).bits);
    assert IsContinuation(tail[0]) && IsContinuation(tail[1]);
    ContinuationOctet(s[1]);
    ContinuationOctet(s[2]);
    ThreeOctets(LeadOf(s[0]).bits, Payload(s[1]), Payload(s[2]));
  }

  lemma HeadOfFour(s: bytes)
    requires s != [] && Head(s).Some? && LeadOf(s[0]).extra == 3
    ensures s[..4] == EncodeUtf8(Head(s).value)
  {
    LeadOctet(s[0]);
    var tail := s[1..4];
    FoldUnrolled(tail, LeadOf(s[0]).bits);
    assert IsContinuation(tail[0]) && IsContinuation(tail[1]) && IsContinuation(tail[2]);
    ContinuationOctet(s[1]);
    ContinuationOctet(s[2]);
    ContinuationOctet(s[3]);
    FourOctets(LeadOf(s[0]).bits, Payload(s[1]), Payload(s[2]), Payload(s[3]));
  }

  /** A well-formed head is exactly the encoding of its code point. */
  lemma HeadIsEncoding(s: bytes)
    requires s != [] && Head(s).Some?
    ensures LeadOf(s[0]).Lead? && 1 + LeadOf(s[0]).extra <= |s|
    ensures s[..1 + LeadOf(s[0]).extra] == EncodeUtf8(Head(s).value)
  {
    var lead := LeadOf(s[0]);
    var n := 1 + lead.extra;
    LeadOctet(s[0]);
    FoldUnrolled(s[1..n], lead.bits);
    match lead.extra
    case 0 => assert s[..1] == [s[0]];
    case 1 => HeadOfTwo(s);
    case 2 => HeadOfThree(s);
    case _ => HeadOfFour(s);
  }

  /** Exactness of the scan: it accepts the concatenations of encoded scalar values
      and nothing else. */
  lemma {:induction false} EncodingsAreValid(cps: seq<Scalar>)
    ensures ValidUtf8(EncodeAll(cps))
  {
    if cps != [] {
      var rest := EncodeAll(cps[1..]);
      HeadOfEncoding(cps[0], rest);
      assert (EncodeUtf8(cps[0]) + rest)[|EncodeUtf8(cps[0])|..] == rest;
      EncodingsAreValid(cps[1..]);
    }
  }

  lemma {:induction false} ValidIsEncoding(s: bytes) returns (cps: seq<Scalar>)
    requires ValidUtf8(s)
    ensures EncodeAll(cps) == s
  {
    hide Head, LeadOf, EncodeUtf8;
    if s == [] {
      cps := [];
    } else {
      HeadIsEncoding(s);
      var n := 1 + LeadOf(s[0]).extra;
      var rest := ValidIsEncoding(s[n..]);
      cps := [Head(s).value] + rest;
      assert cps[1..] == rest;
      assert s == s[..n] + s[n..];
    }
  }

  lemma ValidUtf8IsExact(s: bytes)
    ensures ValidUtf8(s) <==> exists cps :: EncodeAll(cps) == s
  {
    if ValidUtf8(s) {
      var cps := ValidIsEncoding(s);
    }
    forall cps | EncodeAll(cps) == s ensures ValidUtf8(s) {
      EncodingsAreValid(cps);
    }
  }

  /** A code-point sequence has one spelling only, so the encoding is injective. */
  lemma {:induction false} EncodeAllInjective(a: seq<Scalar>, b: seq<Scalar>)
    requires EncodeAll(a) == EncodeAll(b)
    ensures a == b
  {
    if a != [] && b != [] {
      var ra, rb := EncodeAll(a[1..]), EncodeAll(b[1..]);
      HeadOfEncoding(a[0], ra);
      HeadOfEncoding(b[0], rb);
      assert (EncodeUtf8(a[0]) + ra)[|EncodeUtf8(a[0])|..] == ra;
      assert (EncodeUtf8(b[0]) + rb)[|EncodeUtf8(b[0])|..] == rb;
      EncodeAllInjective(a[1..], b[1..]);
      assert a == [a[0]] + a[1..];
    }
  }

  lemma {:induction false} ValidUtf8Append(a: bytes, b: bytes)
    requires ValidUtf8(a)
    ensures ValidUtf8(a + b) == ValidUtf8(b)
  {
    if a == [] {
      assert a + b == b;
    } else {
      var n := 1 + LeadOf(a[0]).extra;
      assert (a + b)[1..n] == a[1..n];
      assert (a + b)[n..] == a[n..] + b;
      ValidUtf8Append(a[n..], b);
    }
  }

  /** Append the encoding of one scalar value (json.cpp's encode_utf8). */
  method PutUtf8(cp: Scalar, out: Sink)
    modifies out
    ensures out.data == old(out.data) + EncodeUtf8(cp)
  {
    if cp <= 0x7F {
      out.Push(cp);
    } else if cp <= 0x7FF {
      out.Push(0xC0 + cp / 0x40);
      out.Push(0x80 + cp % 0x40);
    } else if cp <= 0xFFFF {
      out.Push(0xE0 + cp / 0x1000);
      out.Push(0x80 + cp / 0x40 % 0x40);
      out.Push(0x80 + cp % 0x40);
    } else {
      out.Push(0xF0 + cp / 0x40000);
      out.Push(0x80 + cp / 0x1000 % 0x40);
      out.Push(0x80 + cp / 0x40 % 0x40);
      out.Push(0x80 + cp % 0x40);
    }
  }

  /** The scan itself: one moving index. */
  method ScanUtf8(s: bytes) returns (ok: bool)
    ensures ok == ValidUtf8(s)
  {
    hide Fold, LeadOf;
    var i := 0;
    while i < |s|
      invariant i <= |s|
      invariant ValidUtf8(s) == ValidUtf8(s[i..])
    {
      var lead := LeadOf(s[i]);
      if lead.NotALead? || i + 1 + lead.extra > |s| {
        return false;
      }
      var whole, cp := Gather(s, i + 1, lead.extra, lead.bits);
      assert s[i..][1..1 + lead.extra] == s[i + 1..i + 1 + lead.extra];
      if !whole || cp < lead.lo || cp > lead.hi || 0xD800 <= cp <= 0xDFFF {
        return false;
      }
      assert s[i..][1 + lead.extra..] == s[i + 1 + lead.extra..];
      i := i + 1 + lead.extra;
    }
    return true;
  }

  /** Its inner loop: the continuation octets folded onto the lead's bits. */
  method Gather(s: bytes, from: nat, n: nat, bits: nat) returns (whole: bool, cp: nat)
    requires from + n <= |s|
    ensures Fold(s[from..from + n], bits) == if whole then Some(cp) else None
  {
    cp := bits;
    ghost var tail := s[from..from + n];
    var k := 0;
    while k < n
      invariant k <= n
      invariant Fold(tail, bits) == Fold(tail[k..], cp)
    {
      var cc := s[from + k];
      assert tail[k] == cc && tail[k..][1..] == tail[k + 1..];
      if !IsContinuation(cc) {
        return false, 0;
      }
      cp := cp * 0x40 + Payload(cc);
      k := k + 1;
    }
    whole := true;
  }

  /** valid_utf8 accepts exactly the concatenations of encoded scalar values. */
  method CheckUtf8(s: bytes) returns (ok: bool)
    ensures ok <==> exists cps :: EncodeAll(cps) == s
  {
    hide ValidUtf8, EncodeAll;
    ok := ScanUtf8(s);
    ValidUtf8IsExact(s);
  }
}
