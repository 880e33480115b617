/** The 64-bit FNV-1a fold behind every content id (src/detail/hash.hpp). The offset basis is
    the code's own, which is not the published FNV-1a constant. */
module Hash {
  import opened Bytes
  import opened Wire

  const FNV_OFFSET: u64 := 1469598103934665603
  const FNV_PRIME: u64 := 1099511628211

  /** The inverse of the prime modulo 2^64: their product is 1 + FNV_CARRY * 2^64. */
  const FNV_INVERSE: u64 := 14886173955864302971
  const FNV_CARRY: nat := 887285111055

  /** a ^ b */
  function Xor(a: nat, b: nat): nat
    decreases a + b
  {
    if a == 0 && b == 0 then 0
    else (a % 2 + b % 2) % 2 + 2 * Xor(a / 2, b / 2)
  }

  /** Xor with the same operand undoes itself. */
  lemma {:induction false} XorUndone(a: nat, b: nat)
    ensures Xor(Xor(a, b), b) == a
    decreases a + b
  {
    hide Xor;
    if a == 0 && b == 0 {
      XorOfNothing();
    } else {
      var x := Xor(a, b);
      XorHalves(a, b);
      XorHalves(x, b);
      XorUndone(a / 2, b / 2);
      Parity(a % 2, b % 2);
      Halved(Xor(x, b), a);
    }
  }

  lemma XorOfNothing()
    ensures Xor(0, 0) == 0
  {
  }

  lemma Parity(a: nat, b: nat)
    requires a < 2 && b < 2
    ensures ((a + b) % 2 + b) % 2 == a
  {
  }

  lemma Halved(a: nat, b: nat)
    requires a / 2 == b / 2 && a % 2 == b % 2
    ensures a == b
  {
  }

  lemma XorHalves(a: nat, b: nat)
    ensures Xor(a, b) / 2 == Xor(a / 2, b / 2) && Xor(a, b) % 2 == (a % 2 + b % 2) % 2
  {
    var half := Xor(a / 2, b / 2);
    assert a == 0 && b == 0 ==> half == 0;
  }

  lemma {:induction false} XorCommutes(a: nat, b: nat)
    ensures Xor(a, b) == Xor(b, a)
    decreases a + b
  {
    if a != 0 || b != 0 {
      XorCommutes(a / 2, b / 2);
    }
  }

  lemma {:induction false} XorFits(a: nat, b: nat, n: nat)
    requires a < Pow2(n) && b < Pow2(n)
    ensures Xor(a, b) < Pow2(n)
  {
    if n > 0 {
      XorFits(a / 2, b / 2, n - 1);
    }
  }

  lemma Pow2Of64()
    ensures Pow2(64) == TWO_64
  {
    assert Pow2(8) == 256;
    Pow2Splits(8, 8);
    Pow2Splits(16, 16);
    Pow2Splits(32, 32);
  }

  lemma {:induction false} Pow2Splits(m: nat, n: nat)
    ensures Pow2(m + n) == Pow2(m) * Pow2(n)
  {
    if m > 0 {
      Pow2Splits(m - 1, n);
    }
  }

  lemma XorIsU64(h: u64, b: byte)
    ensures 0 <= Xor(h, b) < TWO_64
  {
    Pow2Of64();
    XorFits(h, b, 64);
  }

  /** One octet folded in: xor, then multiply modulo 2^64. */
  function Step(h: u64, b: byte): u64 {
    Xor(h, b) * FNV_PRIME % TWO_64
  }

  function Fold(h: u64, bs: bytes): u64
    decreases |bs|
  {
    if bs == [] then h else Fold(Step(h, bs[0]), bs[1..])
  }

  function Digest(bs: bytes): u64 { Fold(FNV_OFFSET, bs) }

  lemma {:induction false} FoldAppend(h: u64, a: bytes, b: bytes)
    ensures Fold(h, a + b) == Fold(Fold(h, a), b)
    decreases |a|
  {
    if a == [] {
      assert a + b == b;
    } else {
      assert (a + b)[1..] == a[1..] + b;
      FoldAppend(Step(h, a[0]), a[1..], b);
    }
  }

  /** Multiplying by the prime modulo 2^64 is undone by multiplying by its inverse. */
  lemma PrimeUndone(x: u64)
    ensures x * FNV_PRIME % TWO_64 * FNV_INVERSE % TWO_64 == x
  {
    var p: int := x * FNV_PRIME;
    var r := p % TWO_64;
    var q := p / TWO_64;
    assert p == q * TWO_64 + r;
    var lifted := r * FNV_INVERSE;
    var k := x * FNV_CARRY - q * FNV_INVERSE;
    assert lifted == x + k * TWO_64;
    Residue(lifted, k, x);
  }

  lemma Residue(n: int, k: int, r: u64)
    requires n == r + k * TWO_64
    ensures n % TWO_64 == r
  {
  }

  /** For a fixed octet the step is one-to-one on states, and for a fixed state on octets. */
  lemma StepIsInjective(h: u64, g: u64, b: byte, c: byte)
    requires Step(h, b) == Step(g, c)
    ensures b == c ==> h == g
    ensures h == g ==> b == c
  {
    hide Xor;
    XorIsU64(h, b);
    XorIsU64(g, c);
    PrimeUndone(Xor(h, b));
    PrimeUndone(Xor(g, c));
    assert Xor(h, b) == Xor(g, c);
    XorUndone(h, b);
    XorUndone(g, c);
    XorCommutes(h, b);
    XorCommutes(g, c);
    XorUndone(b, h);
    XorUndone(c, g);
  }

  lemma {:induction false} FoldIsInjective(h: u64, g: u64, bs: bytes)
    requires Fold(h, bs) == Fold(g, bs)
    ensures h == g
    decreases |bs|
  {
    hide Step;
    if bs != [] {
      FoldIsInjective(Step(h, bs[0]), Step(g, bs[0]), bs[1..]);
      StepIsInjective(h, g, bs[0], bs[0]);
    }
  }

  /** a and b have the same length and differ at exactly one octet. */
  ghost predicate OneOctetApart(a: bytes, b: bytes) {
    exists k :: 0 <= k < |a| && |a| == |b| && a[k] != b[k] && a[..k] == b[..k] && a[k + 1..] == b[k + 1..]
  }

  /** Streams one octet apart always hash differently. */
  lemma OneOctetChangesDigest(a: bytes, b: bytes)
    requires OneOctetApart(a, b)
    ensures Digest(a) != Digest(b)
  {
    hide Step, Fold;
    var k :| 0 <= k < |a| && |a| == |b| && a[k] != b[k] && a[..k] == b[..k] && a[k + 1..] == b[k + 1..];
    SplitFold(a, k);
    SplitFold(b, k);
    var h := Fold(FNV_OFFSET, a[..k]);
    if Digest(a) == Digest(b) {
      FoldIsInjective(Step(h, a[k]), Step(h, b[k]), a[k + 1..]);
      StepIsInjective(h, h, a[k], b[k]);
    }
  }

  lemma SplitFold(a: bytes, k: nat)
    requires k < |a|
    ensures Digest(a) == Fold(Step(Fold(FNV_OFFSET, a[..k]), a[k]), a[k + 1..])
  {
    hide Step;
    assert a == a[..k] + a[k..];
    FoldAppend(FNV_OFFSET, a[..k], a[k..]);
    assert a[k..][1..] == a[k + 1..];
  }

  /** The streaming hasher. `fed` is everything folded in so far. */
  class Fnv1a {
    var h: u64
    ghost var fed: bytes

    constructor ()
      ensures Valid() && fed == []
    {
      h, fed := FNV_OFFSET, [];
    }

    ghost predicate Valid()
      reads this
    {
      h == Digest(fed)
    }

    method Byte(b: byte)
      requires Valid()
      modifies this
      ensures Valid() && fed == old(fed) + [b]
    {
      FoldAppend(FNV_OFFSET, fed, [b]);
      assert Fold(h, [b]) == Step(h, b) by { assert [b][1..] == []; }
      h := Xor(h, b) * FNV_PRIME % TWO_64;
      fed := fed + [b];
    }

    method Octets(s: bytes)
      requires Valid()
      modifies this
      ensures Valid() && fed == old(fed) + s
    {
      var i := 0;
      while i < |s|
        invariant i <= |s| && Valid() && fed == old(fed) + s[..i]
      {
        Byte(s[i]);
        assert s[..i + 1] == s[..i] + [s[i]];
        i := i + 1;
      }
      assert s[..i] == s;
    }

    method U64(v: u64)
      requires Valid()
      modifies this
      ensures Valid() && fed == old(fed) + PutLE(v, 8)
    {
      var left: nat := v;
      var i := 0;
      while i < 8
        invariant i <= 8 && Valid()
        invariant fed + PutLE(left, 8 - i) == old(fed) + PutLE(v, 8)
      {
        Assoc(fed, [left % 256], PutLE(left / 256, 7 - i));
        Byte(left % 256);
        left := left / 256;
        i := i + 1;
      }
      assert fed + [] == fed;
    }

    /** A string behind its length. */
    method Field(s: bytes)
      requires Valid() && |s| < TWO_64
      modifies this
      ensures Valid() && fed == old(fed) + (PutLE(|s|, 8) + s)
    {
      U64(|s|);
      Assoc(old(fed), PutLE(|s|, 8), s);
      Octets(s);
    }

    method Value() returns (r: u64)
      requires Valid()
      ensures r == Digest(fed)
    {
      r := h;
    }
  }
}
