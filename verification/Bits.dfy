/** Non-negative machine integers as bit strings: exclusive or, single bits and
    carry-less multiplication, all on unbounded naturals so that no law below
    depends on a word width. */
module Bits {
  type Byte = b: int | 0 <= b < 256

  type Bytes = seq<Byte>

  function Pow2(n: nat): (p: nat)
    ensures p >= 1
  {
    if n == 0 then 1 else 2 * Pow2(n - 1)
  }

  /** `v >>> i`. */
  function Shr(v: nat, i: nat): nat
    decreases i
  {
    if i == 0 then v else Shr(v / 2, i - 1)
  }

  /** Bit `i` of `v`, as `(v >>> i) & 1`. */
  function Bit(v: nat, i: nat): (b: nat)
    ensures b < 2
  {
    Shr(v, i) % 2
  }

  lemma {:induction false} ShrNext(v: nat, i: nat)
    ensures Shr(v, i + 1) == Shr(v, i) / 2
    ensures Shr(v, i) == 2 * Shr(v, i + 1) + Bit(v, i)
    decreases i
  {
    if i != 0 {
      ShrNext(v / 2, i - 1);
    }
  }

  lemma {:induction false} ShrRange(v: nat, i: nat)
    ensures Pow2(i) * Shr(v, i) <= v < Pow2(i) * (Shr(v, i) + 1)
    decreases i
  {
    if i != 0 {
      ShrNext(v, i - 1);
      ShrRange(v, i - 1);
      RangeHalves(Pow2(i - 1), Shr(v, i - 1), Shr(v, i));
    }
  }

  lemma RangeHalves(p: nat, s: nat, h: nat)
    requires 2 * h <= s <= 2 * h + 1
    ensures 2 * p * h <= p * s && p * (s + 1) <= 2 * p * (h + 1)
  {
    assert p * s == 2 * (p * h) + p * (s - 2 * h);
    assert p * (s + 1) == 2 * (p * h) + p * (s + 1 - 2 * h);
  }

  function Xor(a: nat, b: nat): nat
  {
    if a == 0 && b == 0 then 0 else 2 * Xor(a / 2, b / 2) + (a + b) % 2
  }

  /** The carry-less product: multiplication of polynomials over GF(2) whose
      coefficients are the bits of the arguments. */
  function ClMul(x: nat, y: nat): nat
  {
    if y == 0 then 0 else Xor(2 * ClMul(x, y / 2), (y % 2) * x)
  }

  lemma ClMulStep(x: nat, y: nat)
    ensures ClMul(x, y) == Xor(2 * ClMul(x, y / 2), (y % 2) * x)
  {
    if y == 0 {
      XorZero(0);
    }
  }

  lemma XorHalf(a: nat, b: nat)
    ensures Xor(a, b) / 2 == Xor(a / 2, b / 2)
    ensures Xor(a, b) % 2 == (a + b) % 2
  {
  }

  lemma {:induction false} XorCommutes(a: nat, b: nat)
    ensures Xor(a, b) == Xor(b, a)
  {
    if a != 0 || b != 0 {
      XorCommutes(a / 2, b / 2);
    }
  }

  lemma {:induction false} XorAssociates(a: nat, b: nat, c: nat)
    ensures Xor(Xor(a, b), c) == Xor(a, Xor(b, c))
    decreases a + b + c
  {
    if a != 0 || b != 0 || c != 0 {
      var p, q := Xor(a, b), Xor(b, c);
      XorAssociates(a / 2, b / 2, c / 2);
      XorHalf(a, b);
      XorHalf(b, c);
      XorParts(p, c);
      XorParts(a, q);
      ParityAssociates(a, b, c, p, q);
    }
  }

  lemma ParityAssociates(a: nat, b: nat, c: nat, p: nat, q: nat)
    requires p % 2 == (a + b) % 2 && q % 2 == (b + c) % 2
    ensures (p + c) % 2 == (a + q) % 2
  {
  }

  lemma XorParts(a: nat, b: nat)
    ensures Xor(a, b) == 2 * Xor(a / 2, b / 2) + (a + b) % 2
  {
  }

  lemma {:induction false} XorZero(a: nat)
    ensures Xor(a, 0) == a && Xor(0, a) == a
  {
    if a != 0 {
      XorZero(a / 2);
    }
  }

  lemma {:induction false} XorSelf(a: nat)
    ensures Xor(a, a) == 0
  {
    if a != 0 {
      XorSelf(a / 2);
    }
  }

  lemma XorDouble(a: nat, b: nat)
    ensures Xor(2 * a, 2 * b) == 2 * Xor(a, b)
  {
    hide Xor;
    XorParts(2 * a, 2 * b);
    assert 2 * a / 2 == a && 2 * b / 2 == b;
  }

  /** Exclusive or of two `n`-bit values is an `n`-bit value. */
  lemma {:induction false} XorWidth(a: nat, b: nat, n: nat)
    requires a < Pow2(n) && b < Pow2(n)
    ensures Xor(a, b) < Pow2(n)
  {
    if n != 0 {
      XorWidth(a / 2, b / 2, n - 1);
      XorParts(a, b);
    }
  }

  /** A shared highest bit cancels. */
  lemma {:induction false} XorHighBit(a: nat, b: nat, n: nat)
    requires Pow2(n) <= a < 2 * Pow2(n) && Pow2(n) <= b < 2 * Pow2(n)
    ensures Xor(a, b) < Pow2(n)
  {
    XorParts(a, b);
    if n == 0 {
      XorSelf(1);
    } else {
      XorHighBit(a / 2, b / 2, n - 1);
    }
  }

  lemma XorByte(a: nat, b: nat)
    requires a < 256 && b < 256
    ensures Xor(a, b) < 256
  {
    Pow2Byte();
    XorWidth(a, b, 8);
  }

  lemma Pow2Byte()
    ensures Pow2(8) == 256 && Pow2(7) == 128
  {
    assert Pow2(4) == 16;
  }

  /** Regrouping: `(a ^ b) ^ (c ^ d) == (a ^ c) ^ (b ^ d)`. */
  lemma XorSwap(a: nat, b: nat, c: nat, d: nat)
    ensures Xor(Xor(a, b), Xor(c, d)) == Xor(Xor(a, c), Xor(b, d))
  {
    XorAssociates(a, b, Xor(c, d));
    XorAssociates(b, c, d);
    XorCommutes(b, c);
    XorAssociates(c, b, d);
    XorAssociates(a, c, Xor(b, d));
  }

  /** Adding the same value twice removes it again. */
  lemma XorCancel(a: nat, b: nat)
    ensures Xor(Xor(a, b), b) == a && Xor(a, Xor(a, b)) == b
  {
    XorAssociates(a, b, b);
    XorSelf(b);
    XorZero(a);
    XorAssociates(a, a, b);
    XorSelf(a);
    XorZero(b);
  }

  lemma {:induction false} BitOfXor(a: nat, b: nat, i: nat)
    ensures Bit(Xor(a, b), i) == (Bit(a, i) + Bit(b, i)) % 2
    decreases i
  {
    XorHalf(a, b);
    hide Xor;
    if i != 0 {
      BitOfXor(a / 2, b / 2, i - 1);
    }
  }

  /** With no bit in common, or, exclusive or and sum agree. */
  lemma {:induction false} XorDisjoint(a: nat, b: nat, n: nat)
    requires b < Pow2(n)
    ensures Xor(Pow2(n) * a, b) == Pow2(n) * a + b
  {
    hide Xor;
    if n == 0 {
      XorZero(a);
    } else {
      XorDisjoint(a, b / 2, n - 1);
      EvenAndBit(Pow2(n - 1) * a, b);
      assert Pow2(n) * a == 2 * (Pow2(n - 1) * a);
    }
  }

  lemma EvenAndBit(w: nat, b: nat)
    requires Xor(w, b / 2) == w + b / 2
    ensures Xor(2 * w, b) == 2 * w + b
  {
    hide Xor;
    XorParts(2 * w, b);
    assert 2 * w / 2 == w && (2 * w + b) % 2 == b % 2;
  }
}
