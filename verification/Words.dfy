/** 64-bit machine words as integers below 2^64, with exclusive or, shift and multiplication written out. */
module Words {
  const MODULUS := 0x1_0000_0000_0000_0000
  const HALF := 0x1_0000_0000

  type Word = w: int | 0 <= w < MODULUS

  /** Bitwise exclusive or. */
  function Xor(a: nat, b: nat): nat
    decreases a + b
  {
    if a == 0 && b == 0 then 0 else 2 * Xor(a / 2, b / 2) + (a + b) % 2
  }

  function Pow2(k: nat): (p: nat)
    ensures p > 0
  {
    if k == 0 then 1 else 2 * Pow2(k - 1)
  }

  lemma XorHalves(a: nat, b: nat)
    ensures Xor(a, b) == 2 * Xor(a / 2, b / 2) + (a + b) % 2
    ensures Xor(a, b) / 2 == Xor(a / 2, b / 2) && Xor(a, b) % 2 == (a + b) % 2
  {
  }

  lemma Parity(x: nat, a: nat, b: nat)
    requires x % 2 == (a + b) % 2
    ensures (x + b) % 2 == a % 2
  {
  }

  /** Xor with the same word twice gives back what there was. */
  lemma {:induction false} XorCancels(a: nat, b: nat)
    ensures Xor(Xor(a, b), b) == a
    decreases a + b
  {
    if a > 0 || b > 0 {
      hide Xor;
      XorCancels(a / 2, b / 2);
      XorHalves(a, b);
      XorHalves(Xor(a, b), b);
      Parity(Xor(a, b), a, b);
    }
  }

  lemma {:induction false} XorCommutes(a: nat, b: nat)
    ensures Xor(a, b) == Xor(b, a)
    decreases a + b
  {
    if a > 0 || b > 0 {
      XorCommutes(a / 2, b / 2);
    }
  }

  lemma {:induction false} XorBounded(k: nat, a: nat, b: nat)
    requires a < Pow2(k) && b < Pow2(k)
    ensures Xor(a, b) < Pow2(k)
  {
    if k > 0 {
      XorBounded(k - 1, a / 2, b / 2);
    }
  }

  lemma {:induction false} XorZero(a: nat)
    ensures Xor(a, 0) == a
  {
    if a > 0 {
      XorZero(a / 2);
    }
  }

  lemma HalveTwice(x: nat, p: nat)
    requires p > 0
    ensures x / (2 * p) == x / 2 / p
  {
    var q, r := x / 2 / p, x / 2 % p;
    assert x == 2 * p * q + (2 * r + x % 2);
    Quotient(x, 2 * p, q, 2 * r + x % 2);
  }

  lemma Quotient(x: int, d: int, q: int, r: int)
    requires x == d * q + r && 0 <= r < d
    ensures x / d == q
  {
    var gap := q - x / d;
    assert d * gap == x % d - r;
    AtLeastOnce(d, gap);
    AtLeastOnce(d, -gap);
  }

  lemma AtLeastOnce(d: int, n: int)
    requires d > 0
    ensures n > 0 ==> d * n >= d
  {
  }

  /** Xor with a number of at most `k` bits leaves the bits above alone. */
  lemma {:induction false} XorKeepsHigh(k: nat, a: nat, b: nat)
    requires b < Pow2(k)
    ensures Xor(a, b) / Pow2(k) == a / Pow2(k)
  {
    if k == 0 {
      XorZero(a);
    } else {
      XorKeepsHigh(k - 1, a / 2, b / 2);
      XorHalves(a, b);
      HalveTwice(a, Pow2(k - 1));
      HalveTwice(Xor(a, b), Pow2(k - 1));
      hide Xor;
    }
  }

  lemma Sizes()
    ensures Pow2(32) == HALF && Pow2(64) == MODULUS
  {
    assert Pow2(8) == 256;
    assert Pow2(16) == 256 * Pow2(8);
    assert Pow2(24) == 256 * Pow2(16);
    assert Pow2(32) == 256 * Pow2(24);
    assert Pow2(40) == 256 * Pow2(32);
    assert Pow2(48) == 256 * Pow2(40);
    assert Pow2(56) == 256 * Pow2(48);
    assert Pow2(64) == 256 * Pow2(56);
  }

  function XorWord(a: Word, b: Word): Word {
    Sizes();
    XorBounded(64, a, b);
    Xor(a, b)
  }

  lemma WordCancels(a: Word, b: Word)
    ensures XorWord(XorWord(a, b), b) == a && XorWord(b, XorWord(b, a)) == a
  {
    XorCancels(a, b);
    XorCommutes(a, b);
    XorCommutes(b, XorWord(b, a));
  }

  /** `h ^ (h >> 32)`. */
  function Fold(h: Word): Word {
    XorWord(h, h / HALF)
  }

  /** The fold keeps the upper half, so folding twice gives back the word. */
  lemma FoldTwice(h: Word)
    ensures Fold(Fold(h)) == h
  {
    Sizes();
    XorKeepsHigh(32, h, h / HALF);
    XorCancels(h, h / HALF);
  }

  /** Bit `k`, the lowest being bit 0. */
  function Bit(a: nat, k: nat): nat {
    a / Pow2(k) % 2
  }

  lemma BitIsBit(a: nat, k: nat)
    ensures Bit(a, k) == 0 || Bit(a, k) == 1
  {
  }

  lemma BitShift(a: nat, k: nat)
    requires k > 0
    ensures Bit(a, k) == Bit(a / 2, k - 1)
  {
    HalveTwice(a, Pow2(k - 1));
  }

  /** A bit of the exclusive or is set exactly if the bits differ. */
  lemma {:induction false} XorBit(a: nat, b: nat, k: nat)
    ensures Bit(Xor(a, b), k) == 1 <==> Bit(a, k) != Bit(b, k)
    decreases k
  {
    XorHalves(a, b);
    hide Xor;
    if k == 0 {
      assert forall x: nat :: Bit(x, 0) == x % 2;
    } else {
      XorBit(a / 2, b / 2, k - 1);
      BitShift(a, k);
      BitShift(b, k);
      BitShift(Xor(a, b), k);
    }
  }

  function Halved(a: nat, n: nat): nat {
    if n == 0 then a else Halved(a / 2, n - 1)
  }

  lemma {:induction false} HalvedIs(a: nat, n: nat)
    ensures Halved(a, n) == a / Pow2(n)
  {
    if n > 0 {
      HalveTwice(a, Pow2(n - 1));
      HalvedIs(a / 2, n - 1);
    }
  }

  lemma {:induction false} HalvedBit(a: nat, n: nat, k: nat)
    ensures Bit(Halved(a, n), k) == Bit(a, k + n)
    decreases n
  {
    if n > 0 {
      hide Bit;
      HalvedBit(a / 2, n - 1, k);
      BitShift(a, k + n);
    }
  }

  lemma {:induction false} HighBit(a: nat, n: nat, k: nat)
    requires a < Pow2(n) && k >= n
    ensures Bit(a, k) == 0
    decreases k
  {
    if k > 0 {
      BitShift(a, k);
      HighBit(a / 2, if n > 0 then n - 1 else 0, k - 1);
    }
  }

  /** The fold combines each bit with the one 32 places higher. */
  lemma FoldBit(h: Word, k: nat)
    requires k < 64
    ensures Bit(Fold(h), k) == 1 <==> if k < 32 then Bit(h, k) != Bit(h, k + 32) else Bit(h, k) == 1
  {
    Sizes();
    HalvedIs(h, 32);
    assert Fold(h) == Xor(h, Halved(h, 32));
    hide Xor, Pow2, Bit, Fold, Halved;
    XorBit(h, Halved(h, 32), k);
    HalvedBit(h, 32, k);
    if k >= 32 {
      HighBit(h, 64, k + 32);
    }
    BitIsBit(h, k);
  }

  /** Multiplication modulo 2^64 by `m` is undone by an `n` with `m * n` one more than a multiple of 2^64. */
  lemma TimesInverse(h: Word, m: int, n: int, q: int)
    requires m * n == q * MODULUS + 1
    ensures h * m % MODULUS * n % MODULUS == h
  {
    var r, t := h * m % MODULUS, h * m / MODULUS;
    calc {
      r * n;
      (h * m - t * MODULUS) * n;
      h * m * n - t * MODULUS * n;
      { assert h * m * n == h * (m * n) == h * (q * MODULUS + 1) == h * q * MODULUS + h; }
      h + (h * q - t * n) * MODULUS;
    }
    Residue(r * n, h, h * q - t * n);
  }

  lemma Residue(x: int, r: Word, k: int)
    requires x == r + k * MODULUS
    ensures x % MODULUS == r
  {
  }
}
