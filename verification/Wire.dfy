/** The primitives of the native wire format (src/detail/binary.cpp): little-endian
    integers, minimal LEB128 (DWARF 5, section 7.6), zigzag, canonical binary64. */
module Wire {
  import opened Bytes

  // ---- little-endian integers ------------------------------------------------

  function PutLE(v: nat, n: nat): (r: bytes)
    ensures |r| == n
  {
    if n == 0 then [] else [v % 256] + PutLE(v / 256, n - 1)
  }

  function FromLE(b: bytes): nat {
    if b == [] then 0 else b[0] + 256 * FromLE(b[1..])
  }

  function Pow256(n: nat): nat {
    if n == 0 then 1 else 256 * Pow256(n - 1)
  }

  lemma {:induction false} FromLEBound(b: bytes)
    ensures FromLE(b) < Pow256(|b|)
  {
    if b != [] {
      FromLEBound(b[1..]);
    }
  }

  lemma {:induction false} FromPutLE(v: nat, n: nat)
    requires v < Pow256(n)
    ensures FromLE(PutLE(v, n)) == v
  {
    if n > 0 {
      FromPutLE(v / 256, n - 1);
      assert PutLE(v, n)[1..] == PutLE(v / 256, n - 1);
    }
  }

  lemma LowOctet(v: nat, q: nat, d: nat)
    requires v == 256 * q + d && d < 256
    ensures v % 256 == d && v / 256 == q
  {
  }

  lemma PutNext(v: nat, n: nat)
    requires n > 0
    ensures PutLE(v, n) == [v % 256] + PutLE(v / 256, n - 1)
  {
  }

  lemma {:induction false} PutFromLE(b: bytes)
    ensures PutLE(FromLE(b), |b|) == b
  {
    if b != [] {
      hide PutLE;
      var hi := FromLE(b[1..]);
      PutFromLE(b[1..]);
      PutNext(FromLE(b), |b|);
      LowOctet(FromLE(b), hi, b[0]);
      assert b == [b[0]] + b[1..];
    }
  }

  lemma Widths()
    ensures Pow256(1) == 256 && Pow256(2) == TWO_16 && Pow256(4) == TWO_32 && Pow256(8) == TWO_64
  {
    assert Pow256(3) == 256 * Pow256(2);
    assert Pow256(5) == 256 * Pow256(4);
    assert Pow256(6) == 256 * Pow256(5);
    assert Pow256(7) == 256 * Pow256(6);
  }

  /** The number b still adds at its weight, on top of v. */
  ghost function Summed(weight: nat, b: bytes, v: nat): nat { weight * FromLE(b) + v }

  /** One more octet of a little-endian number, at its weight. */
  lemma Digit(b: bytes, k: nat, weight: nat, v: nat)
    requires k < |b|
    ensures Summed(weight, b[k..], v) == Summed(256 * weight, b[k + 1..], v + weight * b[k])
  {
    assert b[k..][1..] == b[k + 1..];
    var high := FromLE(b[k + 1..]);
    assert FromLE(b[k..]) == b[k] + 256 * high;
    Distribute(weight, b[k], high);
  }

  lemma Distribute(weight: nat, digit: nat, high: nat)
    ensures weight * (digit + 256 * high) == 256 * weight * high + weight * digit
  {
  }

  lemma NoDigits(b: bytes, weight: nat, v: nat)
    ensures Summed(weight, b[|b|..], v) == v && Summed(1, b[0..], 0) == FromLE(b)
  {
    assert b[|b|..] == [] && b[0..] == b;
  }

  function ReadLE(b: bytes, n: nat): (r: Read<nat>)
    ensures r.Got? ==> |r.rest| == |b| - n
  {
    if |b| < n then Refused else Got(FromLE(b[..n]), b[n..])
  }

  lemma ReadPutLE(v: nat, n: nat, rest: bytes)
    requires v < Pow256(n)
    ensures ReadLE(PutLE(v, n) + rest, n) == Got(v, rest)
  {
    FromPutLE(v, n);
    assert (PutLE(v, n) + rest)[..n] == PutLE(v, n);
  }

  lemma ReadLEIsPut(b: bytes, n: nat)
    requires ReadLE(b, n).Got?
    ensures ReadLE(b, n).value < Pow256(n)
    ensures b == PutLE(ReadLE(b, n).value, n) + ReadLE(b, n).rest
  {
    FromLEBound(b[..n]);
    PutFromLE(b[..n]);
    assert b == b[..n] + b[n..];
  }

  // ---- minimal LEB128 --------------------------------------------------------

  function PutUvarint(v: nat): (r: bytes)
    ensures r != []
  {
    if v >= 0x80 then [v % 0x80 + 0x80] + PutUvarint(v / 0x80) else [v]
  }

  /** The reader at octet idx of one varint. */
  function ReadUvarint(b: bytes, idx: nat): (r: Read<nat>)
    ensures r.Got? ==> |r.rest| < |b|
    decreases |b|
  {
    if idx >= 10 || b == [] || (idx == 9 && b[0] > 1) then Refused
    else if b[0] < 0x80 then
      if idx > 0 && b[0] == 0 then Refused else Got(b[0], b[1..])
    else
      match ReadUvarint(b[1..], idx + 1)
      case Refused => Refused
      case Got(hi, rest) => Got(b[0] - 0x80 + 0x80 * hi, rest)
  }

  /** The values octets idx, idx+1, ..., 9 can still carry: below 2^(64 - 7*idx). */
  function Room(idx: nat): (r: nat)
    requires idx <= 9
    ensures r >= 2
    decreases 9 - idx
  {
    if idx == 9 then 2 else 0x80 * Room(idx + 1)
  }

  lemma RoomOf64Bits()
    ensures Room(0) == TWO_64
  {
    assert Room(8) == 0x100 && Room(7) == 0x80 * Room(8) && Room(6) == 0x80 * Room(7);
    assert Room(5) == 0x80 * Room(6) && Room(4) == 0x80 * Room(5) && Room(3) == 0x80 * Room(4);
    assert Room(2) == 0x80 * Room(3) && Room(1) == 0x80 * Room(2);
  }

  /** Reading what was written returns it exactly when it fits in 64 bits. */
  lemma {:induction false} ReadPutUvarintAt(v: nat, idx: nat, rest: bytes)
    requires idx <= 9 && (idx > 0 ==> v > 0)
    ensures ReadUvarint(PutUvarint(v) + rest, idx) == if v < Room(idx) then Got(v, rest) else Refused
    decreases v
  {
    var b := PutUvarint(v) + rest;
    if v >= 0x80 {
      assert b[1..] == PutUvarint(v / 0x80) + rest;
      if idx < 9 {
        ReadPutUvarintAt(v / 0x80, idx + 1, rest);
      }
    } else {
      assert b[1..] == rest;
    }
  }

  /** Only the minimal spelling is accepted. */
  lemma {:induction false} ReadUvarintAtIsPut(b: bytes, idx: nat)
    requires idx <= 9 && ReadUvarint(b, idx).Got?
    ensures var r := ReadUvarint(b, idx);
            r.value < Room(idx) && (idx > 0 ==> r.value > 0) && b == PutUvarint(r.value) + r.rest
    decreases |b|
  {
    if b[0] >= 0x80 {
      ReadUvarintAtIsPut(b[1..], idx + 1);
      var hi := ReadUvarint(b[1..], idx + 1).value;
      var v := b[0] - 0x80 + 0x80 * hi;
      assert v / 0x80 == hi && v % 0x80 == b[0] - 0x80;
    }
    assert b == [b[0]] + b[1..];
  }

  lemma ReadPutUvarint(v: nat, rest: bytes)
    ensures ReadUvarint(PutUvarint(v) + rest, 0) == if v < TWO_64 then Got(v, rest) else Refused
  {
    RoomOf64Bits();
    ReadPutUvarintAt(v, 0, rest);
  }

  lemma ReadUvarintIsPut(b: bytes)
    requires ReadUvarint(b, 0).Got?
    ensures var r := ReadUvarint(b, 0); r.value < TWO_64 && b == PutUvarint(r.value) + r.rest
  {
    RoomOf64Bits();
    ReadUvarintAtIsPut(b, 0);
  }

  /** The number seven-bit groups spell, the least significant first. */
  function Groups(bs: bytes): nat {
    if bs == [] then 0 else bs[0] % 0x80 + 0x80 * Groups(bs[1..])
  }

  /** A minimal LEB128 number: the top bit marks every octet but the last, and only zero itself ends
      in a zero. */
  predicate Leb128(bs: bytes) {
    && bs != [] && bs[|bs| - 1] < 0x80 && (|bs| > 1 ==> bs[|bs| - 1] != 0)
    && forall i :: 0 <= i < |bs| - 1 ==> bs[i] >= 0x80
  }

  /** What is written for v is the one minimal LEB128 number that means v. */
  lemma {:induction false} UvarintIsLeb128(v: nat, bs: bytes)
    ensures bs == PutUvarint(v) <==> Leb128(bs) && Groups(bs) == v
    decreases v, |bs|
  {
    if |bs| <= 1 {
      assert |bs| == 1 ==> bs[1..] == [] && bs == [bs[0]];
    } else {
      assert bs == [bs[0]] + bs[1..];
      TailIsLeb128(bs);
      GroupsPositive(bs[1..]);
      if v >= 0x80 {
        UvarintIsLeb128(v / 0x80, bs[1..]);
        assert bs == PutUvarint(v) <==> bs[0] == v % 0x80 + 0x80 && bs[1..] == PutUvarint(v / 0x80);
      }
    }
  }

  lemma TailIsLeb128(bs: bytes)
    requires |bs| > 1
    ensures Leb128(bs) <==> bs[0] >= 0x80 && Leb128(bs[1..]) && bs[|bs| - 1] != 0
  {
    if bs[0] >= 0x80 && Leb128(bs[1..]) {
      forall i | 0 < i < |bs| - 1 ensures bs[i] >= 0x80 {
        assert bs[1..][i - 1] == bs[i];
      }
    }
  }

  lemma {:induction false} GroupsPositive(bs: bytes)
    requires bs != []
    ensures Leb128(bs) && bs[|bs| - 1] != 0 ==> Groups(bs) > 0
  {
    if |bs| > 1 {
      TailIsLeb128(bs);
      GroupsPositive(bs[1..]);
    }
  }

  // ---- zigzag ----------------------------------------------------------------

  /** (v << 1) ^ (v < 0 ? ~0 : 0) on 64 bits. */
  function Zigzag(v: i64): u64 {
    if v < 0 then -2 * v - 1 else 2 * v
  }

  /** (z >> 1) ^ -(z & 1) on 64 bits. */
  function Unzigzag(z: u64): i64 {
    if z % 2 == 0 then z / 2 else -(z / 2) - 1
  }

  lemma ZigzagRoundTrip(v: i64, z: u64)
    ensures Unzigzag(Zigzag(v)) == v && Zigzag(Unzigzag(z)) == z
  {
  }

  function ReadZigzag(b: bytes): (r: Read<i64>)
    ensures r.Got? ==> |r.rest| < |b|
  {
    match ReadUvarint(b, 0)
    case Refused => Refused
    case Got(z, rest) => ReadUvarintIsPut(b); Got(Unzigzag(z), rest)
  }

  // ---- binary64 --------------------------------------------------------------

  const CANONICAL_NAN: u64 := 0x7FF8_0000_0000_0000

  /** Exponent all ones and a non-zero mantissa (IEEE 754-2008, section 3.4). */
  predicate IsNaN(bits: u64) {
    bits / 0x10_0000_0000_0000 % 0x800 == 0x7FF && bits % 0x10_0000_0000_0000 != 0
  }

  function NormFloat(bits: u64): u64 {
    if IsNaN(bits) then CANONICAL_NAN else bits
  }

  function PutFloat(bits: u64): (r: bytes)
    ensures |r| == 8
  {
    PutLE(NormFloat(bits), 8)
  }

  function ReadFloat(b: bytes): (r: Read<u64>)
    ensures r.Got? ==> |r.rest| == |b| - 8
  {
    match ReadLE(b, 8)
    case Refused => Refused
    case Got(v, rest) =>
      ReadLEIsPut(b, 8); Widths();
      if IsNaN(v) && v != CANONICAL_NAN then Refused else Got(v, rest)
  }

  lemma ReadPutFloat(bits: u64, rest: bytes)
    ensures ReadFloat(PutFloat(bits) + rest) == Got(NormFloat(bits), rest)
  {
    Widths();
    ReadPutLE(NormFloat(bits), 8, rest);
  }

  lemma ReadFloatIsPut(b: bytes)
    requires ReadFloat(b).Got?
    ensures var r := ReadFloat(b); NormFloat(r.value) == r.value && b == PutFloat(r.value) + r.rest
  {
    ReadLEIsPut(b, 8);
    assert IsNaN(CANONICAL_NAN);
  }

  /** The pattern of a sign, an exponent and a mantissa. */
  function FloatOf(s: nat, e: nat, m: nat): u64
    requires s < 2 && e < 0x800 && m < 0x10_0000_0000_0000
  {
    s * 0x8000_0000_0000_0000 + e * 0x10_0000_0000_0000 + m
  }

  /** Every pattern has its parts, and only those. */
  lemma FloatHasParts(bits: u64) returns (s: nat, e: nat, m: nat)
    ensures s < 2 && e < 0x800 && m < 0x10_0000_0000_0000 && FloatOf(s, e, m) == bits
  {
    var top := bits / 0x10_0000_0000_0000;
    s, e, m := top / 0x800, top % 0x800, bits % 0x10_0000_0000_0000;
  }

  lemma PartsOfFloat(s: nat, e: nat, m: nat)
    requires s < 2 && e < 0x800 && m < 0x10_0000_0000_0000
    ensures FloatOf(s, e, m) / 0x10_0000_0000_0000 % 0x800 == e && FloatOf(s, e, m) % 0x10_0000_0000_0000 == m
  {
    var top := s * 0x800 + e;
    assert FloatOf(s, e, m) == top * 0x10_0000_0000_0000 + m;
    assert FloatOf(s, e, m) / 0x10_0000_0000_0000 == top;
  }

  /** What the wire does to each pattern: finite numbers, zeros of either sign, subnormals and
      infinities are written as their own eight octets and read back; every NaN is written as the
      one quiet NaN, and no other NaN is read. */
  lemma FloatsTravel(s: nat, e: nat, m: nat, rest: bytes)
    requires s < 2 && e < 0x800 && m < 0x10_0000_0000_0000
    ensures var x := FloatOf(s, e, m);
            if e != 0x7FF || m == 0 then PutFloat(x) == PutLE(x, 8) && ReadFloat(PutLE(x, 8) + rest) == Got(x, rest)
            else
              && PutFloat(x) == PutLE(0x7FF8_0000_0000_0000, 8)
              && ReadFloat(PutLE(x, 8) + rest) == if x == 0x7FF8_0000_0000_0000 then Got(x, rest) else Refused
  {
    hide PutLE, ReadLE;
    PartsOfFloat(s, e, m);
    Widths();
    ReadPutLE(FloatOf(s, e, m), 8, rest);
  }

  ghost predicate NotANumber(bits: u64) {
    exists s: nat, m: nat :: s < 2 && 0 < m < 0x10_0000_0000_0000 && bits == FloatOf(s, 0x7FF, m)
  }

  /** The same pattern, or both no number at all. */
  ghost predicate SameFloat(a: u64, b: u64) { a == b || (NotANumber(a) && NotANumber(b)) }

  lemma NaNIsNotANumber(bits: u64)
    ensures IsNaN(bits) <==> NotANumber(bits)
  {
    var s, e, m := FloatHasParts(bits);
    PartsOfFloat(s, e, m);
    if NotANumber(bits) {
      var s1: nat, m1: nat :| s1 < 2 && 0 < m1 < 0x10_0000_0000_0000 && bits == FloatOf(s1, 0x7FF, m1);
      PartsOfFloat(s1, 0x7FF, m1);
    }
  }

  lemma SameFloatIsNorm(a: u64, b: u64)
    ensures SameFloat(a, b) <==> NormFloat(a) == NormFloat(b)
  {
    hide NotANumber;
    NaNIsNotANumber(a);
    NaNIsNotANumber(b);
    assert IsNaN(CANONICAL_NAN);
  }

  // ---- the writers, as they append ---------------------------------------------

  method WriteLE(out: Sink, v: nat, n: nat)
    modifies out
    ensures out.data == old(out.data) + PutLE(v, n)
  {
    var left: nat, rest: nat := n, v;
    while left > 0
      invariant out.data + PutLE(rest, left) == old(out.data) + PutLE(v, n)
    {
      assert PutLE(rest, left) == [rest % 256] + PutLE(rest / 256, left - 1);
      out.Push(rest % 256);
      left, rest := left - 1, rest / 256;
    }
  }

  method WriteUvarint(out: Sink, value: nat)
    modifies out
    ensures out.data == old(out.data) + PutUvarint(value)
  {
    var v := value;
    while v >= 0x80
      invariant out.data + PutUvarint(v) == old(out.data) + PutUvarint(value)
    {
      assert PutUvarint(v) == [v % 0x80 + 0x80] + PutUvarint(v / 0x80);
      out.Push(v % 0x80 + 0x80);
      v := v / 0x80;
    }
    out.Push(v);
  }

  method WriteZigzag(out: Sink, v: i64)
    modifies out
    ensures out.data == old(out.data) + PutUvarint(Zigzag(v))
  {
    WriteUvarint(out, if v < 0 then 2 * -(v + 1) + 1 else 2 * v);
  }

  method WriteFloat(out: Sink, bits: u64)
    modifies out
    ensures out.data == old(out.data) + PutFloat(bits)
  {
    WriteLE(out, if IsNaN(bits) then CANONICAL_NAN else bits, 8);
  }

  // ---- the reader, with its moving cursor ----------------------------------------

  class BinReader {
    const p: bytes
    var i: nat

    ghost predicate Valid()
      reads this
    {
      i <= |p|
    }

    /** The input not consumed yet. */
    ghost function Left(): bytes
      reads this
      requires Valid()
    {
      p[i..]
    }

    constructor (input: bytes)
      ensures p == input && i == 0 && Valid()
    {
      p, i := input, 0;
    }

    function Remaining(): nat
      reads this
      requires Valid()
    {
      |p| - i
    }

    /** A successful read is the specified one; a refused read only moves forward. */
    twostate predicate Reads<T>(ok: bool, value: T, spec: Read<T>)
      reads this
      requires old(Valid())
    {
      Valid() && i >= old(i) && ok == spec.Got? && (ok ==> spec == Got(value, Left()))
    }

    method U8() returns (ok: bool, b: byte)
      requires Valid()
      modifies this
      ensures Valid() && ok == (old(Left()) != [])
      ensures if ok then old(Left()) == [b] + Left() && i == old(i) + 1 else i == old(i)
    {
      if Remaining() < 1 {
        return false, 0;
      }
      ok, b := true, p[i];
      i := i + 1;
    }

    method FixedLE(n: nat) returns (ok: bool, v: nat)
      requires Valid()
      modifies this
      ensures Reads(ok, v, ReadLE(old(Left()), n))
    {
      if Remaining() < n {
        return false, 0;
      }
      hide FromLE, Summed;
      ghost var field := Left()[..n];
      v := 0;
      var weight: nat := 1;
      var k := 0;
      NoDigits(field, weight, v);
      while k < n
        invariant k <= n && i == old(i) + k && Valid()
        invariant Summed(weight, field[k..], v) == FromLE(field)
      {
        assert field[k] == p[i];
        Digit(field, k, weight, v);
        v := v + weight * p[i];
        weight := 256 * weight;
        i := i + 1;
        k := k + 1;
      }
      NoDigits(field, weight, v);
      ok := true;
    }

    method Float() returns (ok: bool, bits: u64)
      requires Valid()
      modifies this
      ensures Reads(ok, bits, ReadFloat(old(Left())))
    {
      var got, v := FixedLE(8);
      if !got {
        return false, 0;
      }
      ReadLEIsPut(old(Left()), 8);
      Widths();
      bits := v;
      ok := !(IsNaN(bits) && bits != CANONICAL_NAN);
    }

    method Uvarint() returns (ok: bool, v: u64)
      requires Valid()
      modifies this
      ensures Reads(ok, v, ReadUvarint(old(Left()), 0))
    {
      hide ReadUvarint, Shifted;
      ghost var start := Left();
      ShiftedNot(ReadUvarint(start, 0));
      var result: nat, weight: nat, idx: nat := 0, 1, 0;
      while true
        invariant Valid() && i >= old(i)
        invariant ReadUvarint(start, 0) == Shifted(ReadUvarint(Left(), idx), result, weight)
        decreases 10 - idx
      {
        if idx >= 10 {
          UvarintStep(Left(), idx);
          ShiftedResult(ReadUvarint(Left(), idx), result, weight);
          return false, 0;
        }
        ghost var before := Left();
        UvarintStep(before, idx);
        ShiftedResult(ReadUvarint(before, idx), result, weight);
        var got, b := U8();
        if !got {
          return false, 0;
        }
        assert before[0] == b && before[1..] == Left();
        if idx == 9 && b > 1 {
          return false, 0;
        }
        if b < 0x80 {
          if idx > 0 && b == 0 {
            return false, 0;
          }
          assert ReadUvarint(start, 0) == Got(result + weight * b, Left());
          ReadUvarintIsPut(start);
          return true, result + weight * b;
        }
        ShiftedTwice(ReadUvarint(Left(), idx + 1), result, weight, b - 0x80);
        result, weight, idx := result + weight * (b - 0x80), weight * 0x80, idx + 1;
      }
    }

    method ZigzagInt() returns (ok: bool, v: i64)
      requires Valid()
      modifies this
      ensures Reads(ok, v, ReadZigzag(old(Left())))
    {
      var got, z := Uvarint();
      if !got {
        return false, 0;
      }
      var mag: int := z / 2;
      ok, v := true, if z % 2 == 0 then mag else -mag - 1;
    }

    method Take(n: nat) returns (ok: bool, view: bytes)
      requires Valid()
      modifies this
      ensures Valid() && ok == (n <= |old(Left())|)
      ensures if ok then old(Left()) == view + Left() && |view| == n else i == old(i)
    {
      if Remaining() < n {
        return false, [];
      }
      view := p[i..i + n];
      i := i + n;
      ok := true;
    }
  }

  /** The value a reader that has gathered `low` will end with. */
  ghost function Shifted(r: Read<nat>, low: nat, weight: nat): Read<nat> {
    match r
    case Refused => Refused
    case Got(v, rest) => Got(low + weight * v, rest)
  }

  lemma ShiftedNot(r: Read<nat>)
    ensures Shifted(r, 0, 1) == r
  {
  }

  lemma ShiftedResult(r: Read<nat>, low: nat, weight: nat)
    ensures Shifted(r, low, weight) == if r.Got? then Got(low + weight * r.value, r.rest) else Refused
  {
  }

  /** One octet of a varint. */
  lemma UvarintStep(b: bytes, idx: nat)
    ensures idx >= 10 || b == [] || (idx == 9 && b[0] > 1) ==> ReadUvarint(b, idx).Refused?
    ensures idx < 10 && b != [] && !(idx == 9 && b[0] > 1) ==>
              ReadUvarint(b, idx) ==
              if b[0] < 0x80 then (if idx > 0 && b[0] == 0 then Refused else Got(b[0], b[1..]))
              else Shifted(ReadUvarint(b[1..], idx + 1), b[0] - 0x80, 0x80)
  {
  }

  lemma ShiftedTwice(r: Read<nat>, low: nat, weight: nat, digit: nat)
    ensures Shifted(Shifted(r, digit, 0x80), low, weight) == Shifted(r, low + weight * digit, weight * 0x80)
  {
    if r.Got? {
      assert weight * (digit + 0x80 * r.value) == weight * digit + (weight * 0x80) * r.value;
    }
  }
}
