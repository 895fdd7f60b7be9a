/**
  Powers of alpha = 2 in GF(256): alpha generates every nonzero byte, so
  multiplication can be done by adding logarithms modulo 255.
*/
module GFLogs {
  import opened Bitwise
  import opened GF256
  import opened MachineXor

  /** alpha^i */
  function Power(i: nat): Byte {
    if i == 0 then 1 else Double(Power(i - 1))
  }

  lemma {:induction false} MulPowerLeft(i: nat, b: Byte)
    ensures Mul(Power(i), b) == DoubleTimes(b, i)
  {
    if i == 0 {
      MulOneLeft(b);
    } else {
      MulPowerLeft(i - 1, b);
      MulBitsDouble(Power(i - 1), b, 8);
    }
  }

  function DoubleTimes(b: Byte, i: nat): Byte {
    if i == 0 then b else Double(DoubleTimes(b, i - 1))
  }

  lemma {:induction false} PowerAdd(i: nat, j: nat)
    ensures Mul(Power(i), Power(j)) == Power(i + j)
  {
    hide Mul, Double;
    MulPowerLeft(i, Power(j));
    DoubleTimesPower(i, j);
  }

  lemma {:induction false} DoubleTimesPower(i: nat, j: nat)
    ensures DoubleTimes(Power(j), i) == Power(i + j)
  {
    hide Double;
    if i > 0 {
      DoubleTimesPower(i - 1, j);
    }
  }

  lemma {:induction false} PowerNonzero(i: nat)
    ensures Power(i) != 0
  {
    if i > 0 {
      PowerNonzero(i - 1);
      if Power(i) == 0 {
        DoubleNonzero(Power(i - 1));
      }
    }
  }

  // ---- the order of alpha is exactly 255 -------------------------------------

  lemma PowerNext(i: nat)
    ensures Power(i + 1) == Double(Power(i))
  {
  }

  /** The bits of b select powers of alpha from alpha^i on. */
  function PowerTimes(i: nat, b: nat, n: nat): Byte
    decreases n
  {
    if n == 0 then 0
    else if b % 2 == 0 then PowerTimes(i + 1, b / 2, n - 1)
    else Add(Power(i), PowerTimes(i + 1, b / 2, n - 1))
  }

  lemma {:induction false} PowerTimesIsMul(i: nat, b: nat, n: nat)
    ensures PowerTimes(i, b, n) == MulBits(Power(i), b, n)
    decreases n
  {
    hide Add, Double;
    if n > 0 {
      PowerNext(i);
      PowerTimesIsMul(i + 1, b / 2, n - 1);
      AddLaws(MulBits(Power(i + 1), b / 2, n - 1), 0);
    }
  }

  /** Reducing x^8 by the polynomial leaves x^4 + x^3 + x^2 + 1. */
  lemma EighthPower()
    ensures Double(128) == 16 + 8 + 4 + 1
  {
    hide Xor;
    XorIsBitwise(256, 0x11d);
  }

  lemma PowersTo23()
    ensures Power(15) == 38 && Power(16) == 76 && Power(18) == 45 && Power(19) == 90 && Power(22) == 234
  {
    hide Power, Xor;
    PowerZero();
    PowerNext(0); assert Power(1) == 2;
    PowerNext(1); assert Power(2) == 4;
    PowerNext(2); assert Power(3) == 8;
    PowerNext(3); assert Power(4) == 16;
    PowerNext(4); assert Power(5) == 32;
    PowerNext(5); assert Power(6) == 64;
    PowerNext(6); assert Power(7) == 128;
    PowerNext(7); XorIsBitwise(256, 0x11d); assert Power(8) == 29;
    PowerNext(8); assert Power(9) == 58;
    PowerNext(9); assert Power(10) == 116;
    PowerNext(10); assert Power(11) == 232;
    PowerNext(11); XorIsBitwise(464, 0x11d); assert Power(12) == 205;
    PowerNext(12); XorIsBitwise(410, 0x11d); assert Power(13) == 135;
    PowerNext(13); XorIsBitwise(270, 0x11d); assert Power(14) == 19;
    PowerNext(14); assert Power(15) == 38;
    PowerNext(15); assert Power(16) == 76;
    PowerNext(16); assert Power(17) == 152;
    PowerNext(17); XorIsBitwise(304, 0x11d); assert Power(18) == 45;
    PowerNext(18); assert Power(19) == 90;
    PowerNext(19); assert Power(20) == 180;
    PowerNext(20); XorIsBitwise(360, 0x11d); assert Power(21) == 117;
    PowerNext(21); assert Power(22) == 234;
  }

  lemma PowersTo39()
    ensures Power(32) == 157 && Power(34) == 78 && Power(35) == 156 && Power(36) == 37
    ensures Power(38) == 148 && Power(39) == 53
  {
    hide Power, Xor;
    PowersTo23();
    PowerAdd(16, 16);
    PowerTimesIsMul(16, 76, 8);
    assert PowerTimes(16, 76, 8) == Add(Power(18), Add(Power(19), Add(Power(22), 0)));
    AddLaws(234, 0);
    XorIsBitwise(90, 234);
    XorIsBitwise(45, 176);
    PowerNext(32); XorIsBitwise(314, 0x11d); assert Power(33) == 39;
    PowerNext(33); assert Power(34) == 78;
    PowerNext(34); assert Power(35) == 156;
    PowerNext(35); XorIsBitwise(312, 0x11d); assert Power(36) == 37;
    PowerNext(36); assert Power(37) == 74;
    PowerNext(37); assert Power(38) == 148;
    PowerNext(38); XorIsBitwise(296, 0x11d); assert Power(39) == 53;
  }

  lemma PowerZero()
    ensures Power(0) == 1
  {
  }

  lemma Power48()
    ensures Power(48) == 70
  {
    hide Power, Xor;
    PowersTo23();
    PowersTo39();
    PowerAdd(32, 16);
    PowerTimesIsMul(32, 76, 8);
    assert PowerTimes(32, 76, 8) == Add(Power(34), Add(Power(35), Add(Power(38), 0)));
    AddLaws(148, 0);
    XorIsBitwise(156, 148);
    XorIsBitwise(78, 8);
  }

  lemma Power51()
    ensures Power(51) == 10
  {
    hide Power, Xor;
    Power48();
    PowerNext(48); assert Power(49) == 140;
    PowerNext(49); XorIsBitwise(280, 0x11d); assert Power(50) == 5;
    PowerNext(50); assert Power(51) == 10;
  }

  lemma PowersTo71()
    ensures Power(64) == 95 && Power(65) == 190 && Power(66) == 97 && Power(67) == 194
    ensures Power(68) == 153 && Power(70) == 94
  {
    hide Power, Xor;
    PowersTo39();
    PowerAdd(32, 32);
    PowerTimesIsMul(32, 157, 8);
    assert PowerTimes(32, 157, 8) == Add(Power(32), Add(Power(34), Add(Power(35), Add(Power(36), Add(Power(39), 0)))));
    AddLaws(53, 0);
    XorIsBitwise(37, 53);
    XorIsBitwise(156, 16);
    XorIsBitwise(78, 140);
    XorIsBitwise(157, 194);
    PowerNext(64); assert Power(65) == 190;
    PowerNext(65); XorIsBitwise(380, 0x11d); assert Power(66) == 97;
    PowerNext(66); assert Power(67) == 194;
    PowerNext(67); XorIsBitwise(388, 0x11d); assert Power(68) == 153;
    PowerNext(68); XorIsBitwise(306, 0x11d); assert Power(69) == 47;
    PowerNext(69); assert Power(70) == 94;
  }

  lemma Power80()
    ensures Power(80) == 253
  {
    hide Power, Xor;
    PowersTo23();
    PowersTo71();
    PowerAdd(64, 16);
    PowerTimesIsMul(64, 76, 8);
    assert PowerTimes(64, 76, 8) == Add(Power(66), Add(Power(67), Add(Power(70), 0)));
    AddLaws(94, 0);
    XorIsBitwise(194, 94);
    XorIsBitwise(97, 156);
  }

  lemma Power85()
    ensures Power(85) == 214
  {
    hide Power, Xor;
    Power80();
    PowerNext(80); XorIsBitwise(506, 0x11d); assert Power(81) == 231;
    PowerNext(81); XorIsBitwise(462, 0x11d); assert Power(82) == 211;
    PowerNext(82); XorIsBitwise(422, 0x11d); assert Power(83) == 187;
    PowerNext(83); XorIsBitwise(374, 0x11d); assert Power(84) == 107;
    PowerNext(84); assert Power(85) == 214;
  }

  lemma PowersTo135()
    ensures Power(128) == 133 && Power(130) == 46 && Power(135) == 169
  {
    hide Power, Xor;
    PowersTo71();
    PowerAdd(64, 64);
    PowerTimesIsMul(64, 95, 8);
    assert PowerTimes(64, 95, 8) ==
      Add(Power(64), Add(Power(65), Add(Power(66), Add(Power(67), Add(Power(68), Add(Power(70), 0))))));
    AddLaws(94, 0);
    XorIsBitwise(153, 94);
    XorIsBitwise(194, 199);
    XorIsBitwise(97, 5);
    XorIsBitwise(190, 100);
    XorIsBitwise(95, 218);
    PowerNext(128); XorIsBitwise(266, 0x11d); assert Power(129) == 23;
    PowerNext(129); assert Power(130) == 46;
    PowerNext(130); assert Power(131) == 92;
    PowerNext(131); assert Power(132) == 184;
    PowerNext(132); XorIsBitwise(368, 0x11d); assert Power(133) == 109;
    PowerNext(133); assert Power(134) == 218;
    PowerNext(134); XorIsBitwise(436, 0x11d); assert Power(135) == 169;
  }

  lemma Power255()
    ensures Power(255) == 1
  {
    hide Power, Xor;
    PowersTo135();
    PowerAdd(128, 128);
    PowerTimesIsMul(128, 133, 8);
    assert PowerTimes(128, 133, 8) == Add(Power(128), Add(Power(130), Add(Power(135), 0)));
    AddLaws(169, 0);
    XorIsBitwise(46, 169);
    XorIsBitwise(133, 135);
    PowerZero();
    PowerNext(0);
    PowerNext(255);
    DoubleInjective(Power(255), Power(0));
  }

  lemma {:induction false} PowerPeriod(m: nat, n: nat)
    requires m > 0 && Power(m) == 1
    ensures Power(n) == Power(n % m)
  {
    hide Power, Mul;
    if n >= m {
      PowerPeriod(m, n - m);
      PowerAdd(m, n - m);
      MulOneLeft(Power(n - m));
      assert (n - m) % m == n % m by { ModMinus(n, m); }
    } else {
      assert n % m == n;
    }
  }

  lemma ModMinus(n: nat, m: nat)
    requires 0 < m <= n
    ensures (n - m) % m == n % m
  {
    var q, r := (n - m) / m, (n - m) % m;
    assert n == m * (q + 1) + r;
    DivUnique(n, m, q + 1, r);
  }

  lemma DivUnique(a: nat, d: nat, q: nat, r: nat)
    requires r < d && a == d * q + r
    ensures a / d == q && a % d == r
  {
    var q' := a / d;
    if q' < q {
      TimesStep(d, q', q);
    } else if q' > q {
      TimesStep(d, q, q');
    }
  }

  lemma TimesStep(d: nat, p: nat, q: nat)
    requires p < q
    ensures d * q >= d * p + d
  {
    Distribute(d, p + 1, q - p - 1);
    Distribute(d, p, 1);
  }

  lemma Distribute(d: nat, x: nat, y: nat)
    ensures d * (x + y) == d * x + d * y
  {
  }

  /** A proper divisor of 255 = 3 * 5 * 17 divides 85, 51 or 15. */
  lemma DivisorsOf255(m: nat)
    requires 0 < m < 255 && 255 % m == 0
    ensures 85 % m == 0 || 51 % m == 0 || 15 % m == 0
  {
    var q := 255 / m;
    assert m * q == 255 && q > 1;
    if m <= 15 {
      assert m in {1, 3, 5, 15} by {
        assert 255 % 2 == 1 && 255 % 4 == 3 && 255 % 6 == 3 && 255 % 7 == 3 && 255 % 8 == 7 && 255 % 9 == 3;
        assert 255 % 10 == 5 && 255 % 11 == 2 && 255 % 12 == 3 && 255 % 13 == 8 && 255 % 14 == 3;
      }
    } else {
      assert q <= 15;
      assert m in {85, 51, 17};
    }
  }

  lemma {:induction false} LeastPeriod(d: nat) returns (m: nat)
    requires d > 0 && Power(d) == 1
    ensures 0 < m <= d && Power(m) == 1
    ensures forall k :: 0 < k < m ==> Power(k) != 1
  {
    hide Power;
    if k :| 0 < k < d && Power(k) == 1 {
      m := LeastPeriod(k);
    } else {
      m := d;
    }
  }

  /** alpha^d = 1 for no 0 < d < 255. */
  lemma OrderIs255(d: nat)
    requires 0 < d < 255
    ensures Power(d) != 1
  {
    hide Power;
    Power51();
    Power85();
    PowersTo23();
    PowerZero();
    if Power(d) == 1 {
      var m := LeastPeriod(d);
      Power255();
      PowerPeriod(m, 255);
      assert 255 % m == 0;
      DivisorsOf255(m);
      PowerPeriod(m, 85);
      PowerPeriod(m, 51);
      PowerPeriod(m, 15);
    }
  }

  lemma {:induction false} PowerCancel(i: nat, d: nat)
    requires Power(i + d) == Power(i)
    ensures Power(d) == 1
  {
    if i > 0 {
      DoubleInjective(Power(i + d - 1), Power(i - 1));
      PowerCancel(i - 1, d);
    }
  }

  lemma PowersDistinct(i: nat, j: nat)
    requires i < j < 255
    ensures Power(i) != Power(j)
  {
    if Power(i) == Power(j) {
      PowerCancel(i, j - i);
      OrderIs255(j - i);
    }
  }

  // ---- every nonzero byte is a power of alpha --------------------------------

  ghost function Powers(n: nat): set<nat> {
    set i | 0 <= i < n :: Power(i)
  }

  ghost function Upto(n: nat): set<nat> {
    if n == 0 then {} else Upto(n - 1) + {n}
  }

  lemma {:induction false} UptoSize(n: nat)
    ensures |Upto(n)| == n && forall x :: x in Upto(n) <==> 1 <= x <= n
  {
    if n > 0 {
      UptoSize(n - 1);
    }
  }

  lemma {:induction false} PowersSize(n: nat)
    requires n <= 255
    ensures |Powers(n)| == n
  {
    hide Power;
    if n > 0 {
      PowersSize(n - 1);
      forall i | 0 <= i < n - 1
        ensures Power(i) != Power(n - 1)
      {
        PowersDistinct(i, n - 1);
      }
      assert Powers(n) == Powers(n - 1) + {Power(n - 1)};
    }
  }

  lemma SubsetOfSameSize(a: set<nat>, b: set<nat>)
    requires a <= b && |a| == |b|
    ensures a == b
  {
    assert a + (b - a) == b;
    assert |a + (b - a)| == |a| + |b - a|;
  }

  /** alpha is primitive: discrete logarithms exist below 255. */
  lemma LogExists(b: Byte) returns (i: nat)
    requires b != 0
    ensures i < 255 && Power(i) == b
  {
    hide Power;
    PowersSize(255);
    UptoSize(255);
    forall i | 0 <= i < 255
      ensures Power(i) in Upto(255)
    {
      PowerNonzero(i);
    }
    SubsetOfSameSize(Powers(255), Upto(255));
    assert b in Upto(255);
    i :| 0 <= i < 255 && Power(i) == b;
  }

  // ---- the field laws that follow --------------------------------------------

  lemma {:induction false} MulZero(a: Byte, n: nat)
    ensures MulBits(a, 0, n) == 0 && MulBits(0, a, n) == 0
    decreases n
  {
    AddLaws(0, 0);
    assert Double(0) == 0;
    hide Add, Double;
    if n > 0 {
      MulZero(Double(a), n - 1);
      MulZero(a / 2, n - 1);
    }
  }

  lemma MulByZero(a: Byte)
    ensures Mul(a, 0) == 0 && Mul(0, a) == 0
  {
    MulZero(a, 8);
  }

  lemma MulComm(a: Byte, b: Byte)
    ensures Mul(a, b) == Mul(b, a)
  {
    hide Power, Mul;
    MulByZero(a);
    MulByZero(b);
    if a != 0 && b != 0 {
      var i := LogExists(a);
      var j := LogExists(b);
      PowerAdd(i, j);
      PowerAdd(j, i);
    }
  }

  lemma MulAssoc(a: Byte, b: Byte, c: Byte)
    ensures Mul(Mul(a, b), c) == Mul(a, Mul(b, c))
  {
    hide Power, Mul;
    MulByZero(a);
    MulByZero(b);
    MulByZero(c);
    MulByZero(Mul(a, b));
    MulByZero(Mul(b, c));
    if a != 0 && b != 0 && c != 0 {
      var i := LogExists(a);
      var j := LogExists(b);
      var k := LogExists(c);
      PowerAdd(i, j);
      PowerAdd(j, k);
      PowerAdd(i + j, k);
      PowerAdd(i, j + k);
    }
  }

  lemma MulAdd(a: Byte, b: Byte, c: Byte)
    ensures Mul(Add(a, b), c) == Add(Mul(a, c), Mul(b, c))
    ensures Mul(c, Add(a, b)) == Add(Mul(c, a), Mul(c, b))
  {
    hide Add, MulBits;
    MulBitsAddLeft(a, b, c, 8);
    MulComm(a, c);
    MulComm(b, c);
    MulComm(Add(a, b), c);
  }

  lemma MulUnits(a: Byte)
    ensures Mul(a, 0) == 0 && Mul(0, a) == 0 && Mul(1, a) == a && Mul(a, 1) == a
  {
    hide Mul;
    MulByZero(a);
    MulOneLeft(a);
    MulComm(a, 1);
  }
}
