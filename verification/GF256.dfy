/**
  The field GF(256) modulo x^8 + x^4 + x^3 + x^2 + 1 (0x11d), on which the
  Reed-Solomon code of QR symbols is built (section 7.5.2 of ISO/IEC 18004:2015).
*/
module GF256 {
  import opened Bitwise

  type Byte = x: nat | x < 256

  lemma XorByte(a: Byte, b: Byte)
    ensures Xor(a, b) < 256
  {
    hide Xor;
    assert Pow2(8) == 256;
    XorBound(a, b, 8);
  }

  /** Field addition. */
  function Add(a: Byte, b: Byte): Byte {
    XorByte(a, b);
    Xor(a, b)
  }

  lemma DoubleRange(a: Byte)
    requires 2 * a > 255
    ensures Xor(2 * a, 0x11d) < 256
  {
    hide Xor;
    assert Pow2(9) == 512;
    XorBound(2 * a, 0x11d, 9);
    XorShift(2 * a, 0x11d, 8);
    assert ShiftRight(2 * a, 8) == 1;
    assert ShiftRight(0x11d, 8) == 1;
    XorSelf(1);
  }

  /** Multiplication by x: shift left and reduce by 0x11d when a bit falls out. */
  function Double(a: Byte): Byte {
    if 2 * a > 255 then DoubleRange(a); Xor(2 * a, 0x11d) else 2 * a
  }

  /** The sum of a * x^k over those of the n low bits k that are set in b. */
  function MulBits(a: Byte, b: nat, n: nat): Byte
    decreases n
  {
    if n == 0 then 0 else Add(if b % 2 == 0 then 0 else a, MulBits(Double(a), b / 2, n - 1))
  }

  /** Field multiplication: the product of two polynomials over GF(2), modulo 0x11d. */
  function Mul(a: Byte, b: Byte): Byte {
    MulBits(a, b, 8)
  }

  lemma AddLaws(a: Byte, b: Byte)
    ensures Add(a, b) == Add(b, a) && Add(a, 0) == a && Add(0, a) == a && Add(a, a) == 0
    ensures Add(Add(a, b), b) == a
  {
    hide Xor;
    XorComm(a, b);
    XorZero(a);
    XorSelf(a);
    XorCancel(a, b);
  }

  lemma AddSwap(a: Byte, b: Byte, c: Byte, d: Byte)
    ensures Add(Add(a, b), Add(c, d)) == Add(Add(a, c), Add(b, d))
  {
    hide Xor;
    XorSwap(a, b, c, d);
  }

  lemma AddZeroOnlySelf(a: Byte, b: Byte)
    requires Add(a, b) == 0
    ensures a == b
  {
    hide Add;
    AddLaws(a, b);
    AddLaws(b, b);
  }

  lemma HighBit(a: Byte, b: Byte)
    ensures Add(a, b) >= 128 <==> (a >= 128) != (b >= 128)
  {
    hide Xor;
    XorShift(a, b, 7);
    XorByte(a, b);
    assert ShiftRight(a, 7) == a / 128 && ShiftRight(b, 7) == b / 128;
    assert ShiftRight(Xor(a, b), 7) == Xor(a, b) / 128;
    XorZero(0);
    XorZero(1);
    XorSelf(1);
  }

  lemma DoubleAdd(a: Byte, b: Byte)
    ensures Double(Add(a, b)) == Add(Double(a), Double(b))
  {
    hide Xor;
    HighBit(a, b);
    XorDouble(a, b);
    if a >= 128 && b >= 128 {
      XorSwap(2 * a, 0x11d, 2 * b, 0x11d);
      XorSelf(0x11d);
      XorZero(Xor(2 * a, 2 * b));
    } else if a >= 128 {
      XorAssoc(2 * a, 0x11d, 2 * b);
      XorComm(0x11d, 2 * b);
      XorAssoc(2 * a, 2 * b, 0x11d);
    } else if b >= 128 {
      XorAssoc(2 * a, 2 * b, 0x11d);
    }
  }

  lemma DoubleNonzero(a: Byte)
    requires Double(a) == 0
    ensures a == 0
  {
    hide Xor;
    if 2 * a > 255 {
      XorCancel(2 * a, 0x11d);
      XorZero(0x11d);
    }
  }

  lemma DoubleInjective(a: Byte, b: Byte)
    requires Double(a) == Double(b)
    ensures a == b
  {
    hide Add, Double;
    DoubleAdd(a, b);
    AddLaws(Double(a), Double(b));
    DoubleNonzero(Add(a, b));
    AddZeroOnlySelf(a, b);
  }

  lemma {:induction false} MulBitsAddLeft(a: Byte, b: Byte, c: nat, n: nat)
    ensures MulBits(Add(a, b), c, n) == Add(MulBits(a, c, n), MulBits(b, c, n))
    decreases n
  {
    hide Add, Double;
    AddLaws(0, 0);
    if n > 0 {
      DoubleAdd(a, b);
      MulBitsAddLeft(Double(a), Double(b), c / 2, n - 1);
      var s, t := if c % 2 == 0 then 0 else a, if c % 2 == 0 then 0 else b;
      AddSwap(s, t, MulBits(Double(a), c / 2, n - 1), MulBits(Double(b), c / 2, n - 1));
    }
  }

  lemma {:induction false} MulBitsDouble(a: Byte, b: nat, n: nat)
    ensures MulBits(Double(a), b, n) == Double(MulBits(a, b, n))
    decreases n
  {
    assert Double(0) == 0;
    hide Add, Double;
    if n > 0 {
      MulBitsDouble(Double(a), b / 2, n - 1);
      DoubleAdd(if b % 2 == 0 then 0 else a, MulBits(Double(a), b / 2, n - 1));
    }
  }

  function ShiftLeft(b: nat, k: nat): nat
    decreases k
  {
    if k == 0 then b else ShiftLeft(2 * b, k - 1)
  }

  lemma {:induction false} ShiftLeftDouble(b: nat, k: nat)
    ensures ShiftLeft(2 * b, k) == 2 * ShiftLeft(b, k)
    decreases k
  {
    if k > 0 {
      ShiftLeftDouble(2 * b, k - 1);
    }
  }

  lemma {:induction false} ShiftLeftXor(a: nat, b: nat, k: nat)
    ensures ShiftLeft(Xor(a, b), k) == Xor(ShiftLeft(a, k), ShiftLeft(b, k))
    decreases k
  {
    hide Xor;
    if k > 0 {
      XorDouble(a, b);
      ShiftLeftXor(2 * a, 2 * b, k - 1);
    }
  }

  /** 1, 2, 4, ... stay below 128 for the first seven shifts. */
  lemma {:induction false} ShiftOneRange(k: nat)
    requires k < 8
    ensures ShiftLeft(1, k) < 256 && (k < 7 ==> ShiftLeft(1, k) < 128)
  {
    assert ShiftLeft(1, 7) == 128;
    ShiftOneMonotone(k, 7);
  }

  lemma {:induction false} ShiftOneMonotone(j: nat, k: nat)
    requires j <= k
    ensures ShiftLeft(1, j) <= ShiftLeft(1, k) && (j < k ==> ShiftLeft(1, j) < ShiftLeft(1, k))
    decreases k
  {
    ShiftOnePositive(j);
    if j < k {
      ShiftOneMonotone(j, k - 1);
      ShiftLeftDouble(1, k - 1);
    }
  }

  lemma {:induction false} ShiftOnePositive(k: nat)
    ensures ShiftLeft(1, k) > 0
  {
    if k > 0 {
      ShiftOnePositive(k - 1);
      ShiftLeftDouble(1, k - 1);
    }
  }

  lemma XorLowBit(b: nat)
    ensures Xor(b % 2, 2 * (b / 2)) == b
  {
    hide Xor;
    XorUnfold(b % 2, 2 * (b / 2));
    XorZero(b / 2);
  }

  lemma {:induction false} MulPower(k: nat, b: nat, n: nat)
    requires k + n == 8 && b < Pow2(n) && n > 0
    ensures ShiftLeft(1, k) < 256 && MulBits(ShiftLeft(1, k), b, n) == ShiftLeft(b, k)
    decreases n
  {
    hide Xor;
    ShiftOneRange(k);
    ShiftLeftXor(0, 0, k);
    XorSelf(ShiftLeft(0, k));
    var p, m := ShiftLeft(1, k), if n == 1 then 0 else MulBits(Double(ShiftLeft(1, k)), b / 2, n - 1);
    if n > 1 {
      ShiftLeftDouble(1, k);
      MulPower(k + 1, b / 2, n - 1);
    }
    XorSelf(0);
    assert m == ShiftLeft(2 * (b / 2), k);
    ShiftLeftXor(b % 2, 2 * (b / 2), k);
    XorLowBit(b);
  }

  lemma MulOneLeft(b: Byte)
    ensures Mul(1, b) == b
  {
    assert Pow2(8) == 256;
    MulPower(0, b, 8);
  }
}
