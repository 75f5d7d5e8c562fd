/** GF(256) modulo 0x11D by shift and exclusive or, as the Reed-Solomon code of
    the QR encoder computes it (web/src/lib/qr.ts). */
module Gf256 {
  import opened Bits

  /** One turn of the loop's first statement: shift left, then subtract the
      modulus if a bit left the byte. */
  function Double(z: Byte): Byte
  {
    DoubleIsByte(z);
    Xor(2 * z, (z / 128) * 0x11d)
  }

  lemma DoubleIsByte(z: Byte)
    ensures 0 <= Xor(2 * z, (z / 128) * 0x11d) < 256
  {
    hide Xor;
    if z < 128 {
      XorZero(2 * z);
    } else {
      Pow2Byte();
      XorHighBit(2 * z, 0x11d, 8);
    }
  }

  /** The Horner step for one bit of the second factor. */
  function Turn(z: Byte, x: Byte, bit: nat): Byte
    requires bit < 2
  {
    XorByte(Double(z), bit * x);
    Xor(Double(z), bit * x)
  }

  /** The accumulator once bits 7 down to `i` of `y` have been read. */
  function Horner(x: Byte, y: Byte, i: nat): Byte
    requires i <= 8
    decreases 8 - i
  {
    if i == 8 then 0 else Turn(Horner(x, y, i + 1), x, Bit(y, i))
  }

  function Mul(x: Byte, y: Byte): Byte
  {
    Horner(x, y, 0)
  }

  /** `reedSolomonMultiply`: eight shift-and-xor turns from the top bit down. */
  method ReedSolomonMultiply(x: Byte, y: Byte) returns (z: Byte)
    ensures z == Mul(x, y)
  {
    z := 0;
    var i := 7;
    while i >= 0
      invariant -1 <= i <= 7
      invariant z == Horner(x, y, i + 1)
    {
      DoubleIsByte(z);
      z := Xor(2 * z, (z / 128) * 0x11d);
      XorByte(z, Bit(y, i) * x);
      z := Xor(z, Bit(y, i) * x);
      i := i - 1;
    }
  }

  // ---- the product is multiplication of polynomials modulo 0x11D ----

  /** The quotient left behind by the reduction of the leading bits. */
  ghost function Quotient(x: Byte, y: Byte, i: nat): nat
    requires i <= 8
    decreases 8 - i
  {
    if i == 8 then 0 else 2 * Quotient(x, y, i + 1) + Horner(x, y, i + 1) / 128
  }

  lemma ByteHasEightBits(y: Byte)
    ensures Shr(y, 8) == 0
  {
    ShrNext(y, 0);
    hide Shr;
    ShrNext(y, 1);
    ShrNext(y, 2);
    ShrNext(y, 3);
    ShrNext(y, 4);
    ShrNext(y, 5);
    ShrNext(y, 6);
    ShrNext(y, 7);
  }

  lemma {:induction false} TakenOut(x: Byte, y: Byte, i: nat)
    requires i <= 8
    ensures ClMul(x, Shr(y, i)) == Xor(ClMul(0x11d, Quotient(x, y, i)), Horner(x, y, i))
    decreases 8 - i
  {
    hide Xor;
    if i == 8 {
      ByteHasEightBits(y);
      XorZero(0);
    } else {
      TakenOut(x, y, i + 1);
      ShrNext(y, i);
      var z, q := Horner(x, y, i + 1), Quotient(x, y, i + 1);
      TakeOutOne(x, Shr(y, i), Bit(y, i), q, z);
    }
  }

  /** One more bit of the second factor: the bit shifted out of `z` moves into
      the quotient. */
  lemma TakeOutOne(x: Byte, v: nat, bit: nat, q: nat, z: Byte)
    requires bit == v % 2
    requires ClMul(x, v / 2) == Xor(ClMul(0x11d, q), z)
    ensures ClMul(x, v) == Xor(ClMul(0x11d, 2 * q + z / 128), Turn(z, x, bit))
  {
    hide Xor;
    var m, t := ClMul(0x11d, q), (z / 128) * 0x11d;
    ClMulStep(x, v);
    ClMulStep(0x11d, 2 * q + z / 128);
    XorDouble(m, z);
    assert (2 * q + z / 128) / 2 == q && (2 * q + z / 128) % 2 == z / 128;
    TakeOut(2 * m, 2 * z, t, bit * x);
  }

  lemma TakeOut(m: nat, z: nat, t: nat, b: nat)
    ensures Xor(Xor(m, z), b) == Xor(Xor(m, t), Xor(Xor(z, t), b))
  {
    hide Xor;
    XorCommutes(z, t);
    XorAssociates(m, t, Xor(Xor(z, t), b));
    XorAssociates(t, Xor(t, z), b);
    XorCancel(t, z);
    XorAssociates(m, z, b);
  }

  /** The product is the remainder of the carry-less product modulo 0x11D: it
      differs from it by a multiple of the modulus and has degree below 8. */
  lemma ProductIsRemainder(x: Byte, y: Byte)
    ensures ClMul(x, y) == Xor(ClMul(0x11d, Quotient(x, y, 0)), Mul(x, y))
  {
    hide Xor;
    TakenOut(x, y, 0);
  }

  // ---- ring laws ----

  lemma DoubleAdds(a: Byte, b: Byte)
    requires Xor(a, b) < 256
    ensures Xor(Double(a), Double(b)) < 256
    ensures Double(Xor(a, b)) == Xor(Double(a), Double(b))
  {
    hide Xor;
    XorByte(Double(a), Double(b));
    XorSwap(2 * a, (a / 128) * 0x11d, 2 * b, (b / 128) * 0x11d);
    XorDouble(a, b);
    TopBitAdds(a, b);
    ScaledBitAdds(a / 128, b / 128, 0x11d);
  }

  lemma ScaledBitAdds(p: nat, q: nat, m: nat)
    requires p < 2 && q < 2
    ensures Xor(p * m, q * m) == ((p + q) % 2) * m
  {
    hide Xor;
    XorSelf(m);
    XorZero(m);
    XorZero(0);
  }

  lemma TopBitAdds(a: Byte, b: Byte)
    ensures Xor(a, b) / 128 == (a / 128 + b / 128) % 2
  {
    hide Xor;
    BitOfXor(a, b, 7);
    TopBit(a);
    TopBit(b);
    XorByte(a, b);
    TopBit(Xor(a, b));
  }

  lemma TopBit(a: Byte)
    ensures Bit(a, 7) == a / 128
  {
    ShrRange(a, 7);
    Pow2Byte();
  }

  lemma TurnAdds(za: Byte, zb: Byte, a: Byte, b: Byte, bit: nat)
    requires Xor(za, zb) < 256 && Xor(a, b) < 256 && bit < 2
    ensures Turn(Xor(za, zb), Xor(a, b), bit) == Xor(Turn(za, a, bit), Turn(zb, b, bit))
  {
    hide Xor;
    DoubleAdds(za, zb);
    XorSwap(Double(za), bit * a, Double(zb), bit * b);
    XorZero(0);
  }

  lemma {:induction false} HornerAddsLeft(a: Byte, b: Byte, y: Byte, i: nat)
    requires i <= 8 && Xor(a, b) < 256
    ensures Horner(Xor(a, b), y, i) == Xor(Horner(a, y, i), Horner(b, y, i))
    decreases 8 - i
  {
    hide Xor;
    if i == 8 {
      XorZero(0);
    } else {
      HornerAddsLeft(a, b, y, i + 1);
      TurnAdds(Horner(a, y, i + 1), Horner(b, y, i + 1), a, b, Bit(y, i));
    }
  }

  lemma {:induction false} HornerDoublesLeft(a: Byte, y: Byte, i: nat)
    requires i <= 8
    ensures Horner(Double(a), y, i) == Double(Horner(a, y, i))
    decreases 8 - i
  {
    hide Xor;
    if i == 8 {
      XorZero(0);
    } else {
      HornerDoublesLeft(a, y, i + 1);
      var z, bit := Horner(a, y, i + 1), Bit(y, i);
      XorByte(Double(z), bit * a);
      DoubleAdds(Double(z), bit * a);
      XorZero(0);
    }
  }

  lemma {:induction false} ZeroTimes(y: Byte, i: nat)
    requires i <= 8
    ensures Horner(0, y, i) == 0
    decreases 8 - i
  {
    hide Xor;
    XorZero(0);
    if i < 8 {
      ZeroTimes(y, i + 1);
    }
  }

  lemma {:induction false} OneTimesFrom(y: Byte, i: nat)
    requires i <= 8
    ensures Horner(1, y, i) == Shr(y, i)
    decreases 8 - i
  {
    hide Xor;
    if i == 8 {
      ByteHasEightBits(y);
    } else {
      OneTimesFrom(y, i + 1);
      ShrNext(y, i);
      ShrSmall(y, i + 1);
      OneTurn(Shr(y, i + 1), Bit(y, i));
    }
  }

  lemma OneTurn(z: Byte, bit: nat)
    requires z < 128 && bit < 2
    ensures Turn(z, 1, bit) == 2 * z + bit
  {
    hide Xor;
    XorZero(2 * z);
    XorParts(2 * z, bit);
    XorZero(z);
  }

  lemma {:induction false} ShrSmall(y: Byte, i: nat)
    requires 1 <= i
    ensures Shr(y, i) < 128
    decreases i
  {
    hide Xor;
    if i > 1 {
      ShrNext(y, i - 1);
      ShrSmall(y, i - 1);
    }
  }

  lemma OneTimes(y: Byte)
    ensures Mul(1, y) == y
  {
    hide Xor;
    OneTimesFrom(y, 0);
  }

  lemma TurnTimes(z: Byte, b: Byte, a: Byte, bit: nat)
    requires bit < 2
    ensures Mul(Turn(z, b, bit), a) == Turn(Mul(z, a), Mul(b, a), bit)
  {
    hide Xor, Horner;
    XorByte(Double(z), bit * b);
    HornerAddsLeft(Double(z), bit * b, a, 0);
    HornerDoublesLeft(z, a, 0);
    ZeroTimes(a, 0);
  }

  /** Multiplying by `y` bit by bit is the same from either side. */
  lemma {:induction false} HornerMovesFactor(a: Byte, b: Byte, c: Byte, i: nat)
    requires i <= 8
    ensures Mul(Horner(b, c, i), a) == Horner(Mul(b, a), c, i)
    decreases 8 - i
  {
    hide Xor;
    if i == 8 {
      ZeroTimes(a, 0);
    } else {
      HornerMovesFactor(a, b, c, i + 1);
      TurnTimes(Horner(b, c, i + 1), b, a, Bit(c, i));
    }
  }

  lemma MulCommutes(a: Byte, c: Byte)
    ensures Mul(a, c) == Mul(c, a)
  {
    hide Xor;
    OneTimes(c);
    OneTimes(a);
    HornerMovesFactor(a, 1, c, 0);
  }

  lemma MulAssociates(a: Byte, b: Byte, c: Byte)
    ensures Mul(Mul(a, b), c) == Mul(a, Mul(b, c))
  {
    hide Xor;
    HornerMovesFactor(a, b, c, 0);
    MulCommutes(Mul(b, c), a);
    MulCommutes(b, a);
  }

  lemma MulDistributes(a: Byte, b: Byte, y: Byte)
    ensures Xor(a, b) < 256 && Xor(Mul(a, y), Mul(b, y)) < 256
    ensures Mul(Xor(a, b), y) == Xor(Mul(a, y), Mul(b, y))
    ensures Mul(y, Xor(a, b)) == Xor(Mul(y, a), Mul(y, b))
  {
    hide Xor;
    XorByte(a, b);
    XorByte(Mul(a, y), Mul(b, y));
    HornerAddsLeft(a, b, y, 0);
    MulCommutes(Xor(a, b), y);
    MulCommutes(a, y);
    MulCommutes(b, y);
  }

  lemma MulUnits(y: Byte)
    ensures Mul(0, y) == 0 && Mul(y, 0) == 0 && Mul(1, y) == y && Mul(y, 1) == y
  {
    hide Xor;
    ZeroTimes(y, 0);
    OneTimes(y);
    MulCommutes(0, y);
    MulCommutes(1, y);
  }
}
