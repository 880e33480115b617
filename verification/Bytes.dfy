/** Octets, machine integers and the small arithmetic every other module shares.
    A std::string of the original is a sequence of octets here. */
module Bytes {
  const TWO_16: int := 0x1_0000
  const TWO_32: int := 0x1_0000_0000
  const TWO_63: int := 0x8000_0000_0000_0000
  const TWO_64: int := 0x1_0000_0000_0000_0000

  type byte = x: int | 0 <= x < 256
  type bytes = seq<byte>
  type u16 = x: int | 0 <= x < TWO_16
  type u32 = x: int | 0 <= x < TWO_32
  type u64 = x: int | 0 <= x < TWO_64
  type i64 = x: int | -TWO_63 <= x < TWO_63

  datatype Option<+T> = None | Some(value: T)

  /** A read on the remaining input: a value and what is left, or a refusal. */
  datatype Read<+T> = Got(value: T, rest: bytes) | Refused

  /** The mutable std::string the writers append to. */
  class Sink {
    var data: bytes

    constructor ()
      ensures data == []
    {
      data := [];
    }

    method Push(b: byte)
      modifies this
      ensures data == old(data) + [b]
    {
      data := data + [b];
    }

    method Append(bs: bytes)
      modifies this
      ensures data == old(data) + bs
    {
      data := data + bs;
    }
  }

  lemma Assoc(a: bytes, b: bytes, c: bytes)
    ensures (a + b) + c == a + (b + c)
  {
  }

  /** Decimal digits of n, as std::to_string renders them. */
  function Decimal(n: nat): bytes {
    if n < 10 then [0x30 + n] else Decimal(n / 10) + [0x30 + n % 10]
  }

  function Pow2(k: nat): (p: nat)
    ensures p >= 1
  {
    if k == 0 then 1 else 2 * Pow2(k - 1)
  }

  /** (x >> k) & 1 */
  predicate Bit(x: nat, k: nat) {
    if k == 0 then x % 2 == 1 else Bit(x / 2, k - 1)
  }

  /** x | (1 << k) */
  function SetBit(x: nat, k: nat): (r: nat) {
    if Bit(x, k) then x else x + Pow2(k)
  }

  /** Setting a bit changes that bit and no other. */
  lemma {:induction false} SetBitIsOr(x: nat, k: nat, j: nat)
    ensures Bit(SetBit(x, k), j) == (j == k || Bit(x, j))
  {
    if k > 0 {
      assert SetBit(x, k) / 2 == SetBit(x / 2, k - 1);
      assert SetBit(x, k) % 2 == x % 2;
      if j > 0 {
        SetBitIsOr(x / 2, k - 1, j - 1);
      }
    } else if j > 0 {
      assert SetBit(x, k) / 2 == x / 2;
    }
  }

  /** Setting a bit never outgrows the width. */
  lemma {:induction false} SetBitFits(x: nat, k: nat, n: nat)
    requires k < n && x < Pow2(n)
    ensures SetBit(x, k) < Pow2(n)
  {
    var half := Pow2(n - 1);
    if k == 0 {
      assert x + 1 < 2 * half || x % 2 == 1;
    } else {
      SetBitFits(x / 2, k - 1, n - 1);
      assert x < 2 * half;
      assert !Bit(x, k) ==> x / 2 + Pow2(k - 1) < half;
    }
  }

  /** Numbers of n bits with the same bits are the same number. */
  lemma {:induction false} BitsDetermine(x: nat, y: nat, n: nat)
    requires x < Pow2(n) && y < Pow2(n)
    requires forall j: nat :: j < n ==> Bit(x, j) == Bit(y, j)
    ensures x == y
  {
    if n > 0 {
      assert Bit(x, 0) == Bit(y, 0);
      forall j: nat | j < n - 1 ensures Bit(x / 2, j) == Bit(y / 2, j) {
        assert Bit(x, j + 1) == Bit(y, j + 1);
      }
      BitsDetermine(x / 2, y / 2, n - 1);
    }
  }
}
