/** The content-id fold computed by hand: one octet at a time, each step checked by its bits and its
    carry (src/detail/hash.hpp). */
module HashSteps {
  import opened Bytes
  import opened Wire
  import opened Hash

  lemma {:induction false} XorNothing(a: nat)
    ensures Xor(a, 0) == a
  {
    if a != 0 {
      XorNothing(a / 2);
    }
  }

  /** Halving what is below 2 * m. */
  lemma HalfBelow(h: nat, m: nat)
    requires m > 0
    ensures h % (2 * m) % 2 == h % 2 && h % (2 * m) / 2 == h / 2 % m
    ensures h - h % (2 * m) == 2 * (h / 2 - h / 2 % m)
  {
    var q, r := h / (2 * m), h % (2 * m);
    assert h == 2 * m * q + r;
    assert m * q + r / 2 == h / 2 && r % 2 == h % 2 by {
      assert 2 * m * q == 2 * (m * q);
    }
    Remainder(h / 2, m, q, r / 2);
  }

  lemma Remainder(n: nat, m: nat, q: nat, r: nat)
    requires r < m && n == m * q + r
    ensures n % m == r
  {
    var d := n / m - q;
    assert m * (n / m) + n % m == n;
    assert m * d == r - n % m by {
      assert m * d == m * (n / m) - m * q;
    }
    if d >= 1 {
      Product(m, d);
    } else if d <= -1 {
      Product(m, -d);
    }
  }

  lemma Product(m: nat, d: nat)
    requires d >= 1
    ensures m * d >= m
  {
    assert m * d == m + m * (d - 1);
  }

  /** Xor with a number of n bits leaves the bits above alone. */
  lemma {:induction false} XorLow(h: nat, b: nat, n: nat)
    requires b < Pow2(n)
    ensures Xor(h, b) == h - h % Pow2(n) + Xor(h % Pow2(n), b)
  {
    if n == 0 {
      XorNothing(h);
      assert Xor(0, 0) == 0;
    } else {
      hide Xor;
      var m := Pow2(n - 1);
      XorLow(h / 2, b / 2, n - 1);
      HalfBelow(h, m);
      XorHalves(h, b);
      XorHalves(h % (2 * m), b);
    }
  }

  /** Eight bits, the most significant first. */
  datatype Bits = Bits(p7: bool, p6: bool, p5: bool, p4: bool, p3: bool, p2: bool, p1: bool, p0: bool) {
    function Num(): nat {
      Then(Then(Then(Then(Then(Then(Then(Then(0, p7), p6), p5), p4), p3), p2), p1), p0)
    }

    function Mixed(b: Bits): Bits {
      Bits(p7 != b.p7, p6 != b.p6, p5 != b.p5, p4 != b.p4, p3 != b.p3, p2 != b.p2, p1 != b.p1, p0 != b.p0)
    }
  }

  /** The number one bit longer than a. */
  function Then(a: nat, p: bool): nat { 2 * a + One(p) }

  function One(p: bool): nat { if p then 1 else 0 }

  lemma ThenHalves(a: nat, p: bool)
    ensures Then(a, p) / 2 == a && Then(a, p) % 2 == One(p)
  {
  }

  lemma OnesMix(p: bool, q: bool)
    ensures (One(p) + One(q)) % 2 == One(p != q)
  {
  }

  lemma XorParts(x: nat, y: nat, a: nat, b: nat)
    requires x / 2 == a && y / 2 == b
    ensures Xor(x, y) / 2 == Xor(a, b)
  {
    hide Xor;
    XorHalves(x, y);
  }

  lemma XorParity(x: nat, y: nat, p: bool, q: bool)
    requires x % 2 == One(p) && y % 2 == One(q)
    ensures Xor(x, y) % 2 == One(p != q)
  {
    hide Xor;
    XorHalves(x, y);
    OnesMix(p, q);
  }

  lemma XorThen(a: nat, b: nat, p: bool, q: bool)
    ensures Xor(Then(a, p), Then(b, q)) == Then(Xor(a, b), p != q)
  {
    hide *;
    ThenHalves(a, p);
    ThenHalves(b, q);
    XorParts(Then(a, p), Then(b, q), a, b);
    XorParity(Then(a, p), Then(b, q), p, q);
    ThenHalves(Xor(a, b), p != q);
    Halved(Xor(Then(a, p), Then(b, q)), Then(Xor(a, b), p != q));
  }

  lemma XorBits(a: Bits, b: Bits)
    ensures Xor(a.Num(), b.Num()) == a.Mixed(b).Num()
  {
    hide Xor, Then;
    XorNothing(0);
    XorThen(0, 0, a.p7, b.p7);
    var a7, b7 := Then(0, a.p7), Then(0, b.p7);
    XorThen(a7, b7, a.p6, b.p6);
    var a6, b6 := Then(a7, a.p6), Then(b7, b.p6);
    XorThen(a6, b6, a.p5, b.p5);
    var a5, b5 := Then(a6, a.p5), Then(b6, b.p5);
    XorThen(a5, b5, a.p4, b.p4);
    var a4, b4 := Then(a5, a.p4), Then(b5, b.p4);
    XorThen(a4, b4, a.p3, b.p3);
    var a3, b3 := Then(a4, a.p3), Then(b4, b.p3);
    XorThen(a3, b3, a.p2, b.p2);
    var a2, b2 := Then(a3, a.p2), Then(b3, b.p2);
    XorThen(a2, b2, a.p1, b.p1);
    XorThen(Then(a2, a.p1), Then(b2, b.p1), a.p0, b.p0);
  }

  lemma NumFits(b: Bits)
    ensures b.Num() < 256
  {
  }

  /** Mixing an octet in changes the low octet of the state. */
  lemma MixedIn(hi: nat, lo: Bits, b: Bits)
    ensures Xor(256 * hi + lo.Num(), b.Num()) == 256 * hi + lo.Mixed(b).Num()
  {
    hide Xor, Bits.Num;
    assert Pow2(8) == 256 by { assert Pow2(4) == 16; }
    NumFits(lo);
    NumFits(b);
    XorLow(256 * hi + lo.Num(), b.Num(), 8);
    LowOctet(256 * hi + lo.Num(), hi, lo.Num());
    XorBits(lo, b);
  }

  /** One step of the fold, checked by its carry: the product of the mixed state and the prime is
      g + carry * 2^64. */
  lemma OneStep(h: u64, b: byte, hi: nat, lo: Bits, bits: Bits, g: u64, carry: nat)
    requires h == 256 * hi + lo.Num() && b == bits.Num()
    requires (256 * hi + lo.Mixed(bits).Num()) * FNV_PRIME == g + carry * TWO_64
    ensures Step(h, b) == g
  {
    hide Xor, Bits.Num, Bits.Mixed;
    MixedIn(hi, lo, bits);
    Residue(g + carry * TWO_64, carry, g);
  }

  lemma Unroll1(h: u64, s: bytes)
    requires s != []
    ensures Fold(h, s) == Fold(Step(h, s[0]), s[1..])
  {
  }

  lemma Unroll4(h: u64, s: bytes)
    requires |s| == 4
    ensures Fold(h, s) == Step(Step(Step(Step(h, s[0]), s[1]), s[2]), s[3])
  {
    hide Step;
    Unroll1(h, s);
    Unroll1(Step(h, s[0]), s[1..]);
    Unroll1(Step(Step(h, s[0]), s[1]), s[1..][1..]);
    Unroll1(Step(Step(Step(h, s[0]), s[1]), s[2]), s[1..][1..][1..]);
  }

  lemma UnrollMore(h: u64, s: bytes)
    requires |s| >= 4
    ensures Fold(h, s) == Fold(Step(Step(Step(Step(h, s[0]), s[1]), s[2]), s[3]), s[4..])
  {
    hide Step, Fold;
    assert s == s[..4] + s[4..];
    FoldAppend(h, s[..4], s[4..]);
    Unroll4(h, s[..4]);
  }

  lemma Unroll5(h: u64, s: bytes)
    requires |s| == 5
    ensures Fold(h, s) == Step(Step(Step(Step(Step(h, s[0]), s[1]), s[2]), s[3]), s[4])
  {
    hide Step;
    UnrollMore(h, s);
    Unroll1(Step(Step(Step(Step(h, s[0]), s[1]), s[2]), s[3]), s[4..]);
  }

  lemma Unroll6(h: u64, s: bytes)
    requires |s| == 6
    ensures Fold(h, s) == Step(Step(Step(Step(Step(Step(h, s[0]), s[1]), s[2]), s[3]), s[4]), s[5])
  {
    hide Step;
    UnrollMore(h, s);
    var g := Step(Step(Step(Step(h, s[0]), s[1]), s[2]), s[3]);
    Unroll1(g, s[4..]);
    Unroll1(Step(g, s[4]), s[4..][1..]);
  }

  lemma Unroll8(h: u64, s: bytes)
    requires |s| == 8
    ensures Fold(h, s) ==
            Step(Step(Step(Step(Step(Step(Step(Step(h, s[0]), s[1]), s[2]), s[3]), s[4]), s[5]), s[6]), s[7])
  {
    hide Step;
    UnrollMore(h, s);
    Unroll4(Step(Step(Step(Step(h, s[0]), s[1]), s[2]), s[3]), s[4..]);
  }
}
