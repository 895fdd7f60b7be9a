/**
  The table-driven CRC-32 of src/api/audit-embed.ts (section 8 of RFC 1952).
*/
module Crc {
  import opened Bitwise

  type Byte = x: nat | x < 256
  type Word = x: nat | x < 0x1_0000_0000

  const POLYNOMIAL: nat := 0xedb88320

  /** One bit of the reflected shift register. */
  function ShiftStep(c: nat): nat {
    if c % 2 == 1 then Xor(POLYNOMIAL, c / 2) else c / 2
  }

  function Steps(c: nat, n: nat): nat {
    if n == 0 then c else ShiftStep(Steps(c, n - 1))
  }

  /** The bit-at-a-time CRC register after the bytes of buf. */
  function Register(c: nat, buf: seq<Byte>): nat
    decreases |buf|
  {
    if buf == [] then c
    else Steps(Xor(Register(c, buf[..|buf| - 1]), buf[|buf| - 1]), 8)
  }

  function Checksum(buf: seq<Byte>): nat {
    Xor(Register(0xffffffff, buf), 0xffffffff)
  }

  lemma WordXor(a: nat, b: nat)
    requires a < 0x1_0000_0000 && b < 0x1_0000_0000
    ensures Xor(a, b) < 0x1_0000_0000
  {
    hide Xor;
    Pow2Of32();
    XorBound(a, b, 32);
  }

  lemma Pow2Of32()
    ensures Pow2(32) == 0x1_0000_0000
  {
    assert Pow2(8) == 256;
    assert Pow2(16) == 65536;
    assert Pow2(24) == 0x100_0000;
  }

  lemma ShiftStepXor(a: nat, b: nat)
    ensures ShiftStep(Xor(a, b)) == Xor(ShiftStep(a), ShiftStep(b))
  {
    hide Xor;
    var p, x, y := POLYNOMIAL, a / 2, b / 2;
    XorBits(a, b);
    if a % 2 == 1 && b % 2 == 1 {
      XorSwap(p, x, p, y);
      XorSelf(p);
      XorZero(Xor(x, y));
    } else if a % 2 == 1 {
      XorAssoc(p, x, y);
    } else if b % 2 == 1 {
      XorAssoc(p, x, y);
      XorComm(p, x);
      XorAssoc(x, p, y);
    }
  }

  /** The register is linear in its contents. */
  lemma {:induction false} StepsXor(a: nat, b: nat, n: nat)
    ensures Steps(Xor(a, b), n) == Xor(Steps(a, n), Steps(b, n))
  {
    hide Xor, ShiftStep;
    if n > 0 {
      StepsXor(a, b, n - 1);
      ShiftStepXor(Steps(a, n - 1), Steps(b, n - 1));
    }
  }

  lemma {:induction false} StepsAdd(c: nat, m: nat, n: nat)
    ensures Steps(Steps(c, m), n) == Steps(c, m + n)
  {
    if n > 0 {
      StepsAdd(c, m, n - 1);
    }
  }

  function TimesPow2(h: nat, n: nat): nat {
    if n == 0 then h else 2 * TimesPow2(h, n - 1)
  }

  /** Trailing zero bits are just shifted out. */
  lemma {:induction false} StepsShiftOut(h: nat, n: nat)
    ensures Steps(TimesPow2(h, n), n) == h
  {
    if n > 0 {
      hide Xor;
      StepsAdd(TimesPow2(h, n), 1, n - 1);
      assert Steps(TimesPow2(h, n), 0) == TimesPow2(h, n);
      assert Steps(TimesPow2(h, n), 1) == ShiftStep(TimesPow2(h, n));
      assert ShiftStep(TimesPow2(h, n)) == TimesPow2(h, n - 1);
      StepsShiftOut(h, n - 1);
    }
  }

  lemma XorAboveEven(l: nat, t: nat)
    requires Xor(l / 2, t) == l / 2 + t
    ensures Xor(l, 2 * t) == l + 2 * t
  {
    hide Xor;
    XorUnfold(l, 2 * t);
    assert 2 * t / 2 == t;
  }

  lemma {:induction false} XorDisjoint(h: nat, l: nat, n: nat)
    requires l < Pow2(n)
    ensures Xor(l, TimesPow2(h, n)) == l + TimesPow2(h, n)
    decreases n
  {
    if n == 0 {
      XorZero(h);
    } else {
      hide Xor;
      XorDisjoint(h, l / 2, n - 1);
      XorAboveEven(l, TimesPow2(h, n - 1));
    }
  }

  lemma TimesPow2Eight(h: nat)
    ensures TimesPow2(h, 8) == 256 * h
  {
    assert TimesPow2(h, 1) == 2 * h;
    assert TimesPow2(h, 2) == 4 * h;
    assert TimesPow2(h, 3) == 8 * h;
    assert TimesPow2(h, 4) == 16 * h;
    assert TimesPow2(h, 5) == 32 * h;
    assert TimesPow2(h, 6) == 64 * h;
    assert TimesPow2(h, 7) == 128 * h;
  }

  /** Eight steps on a word need only its low byte: the rest is shifted and added in. */
  lemma EightSteps(x: nat)
    ensures Steps(x, 8) == Xor(Steps(x % 256, 8), x / 256)
  {
    hide Xor, Steps, TimesPow2;
    var l, h := x % 256, x / 256;
    assert Pow2(8) == 256;
    XorDisjoint(h, l, 8);
    TimesPow2Eight(h);
    StepsXor(l, TimesPow2(h, 8), 8);
    StepsShiftOut(h, 8);
  }

  lemma ShiftByte(x: nat, b: Byte)
    ensures Xor(x, b) / 256 == x / 256
  {
    hide Xor;
    XorShift(x, b, 8);
    ShiftEight(x);
    ShiftEight(b);
    ShiftEight(Xor(x, b));
    XorZero(x / 256);
  }

  lemma ShiftEight(x: nat)
    ensures ShiftRight(x, 8) == x / 256
  {
  }

  /** The fast update is eight bitwise steps. */
  lemma TableStep(c: nat, b: Byte)
    ensures Steps(Xor(c, b), 8) == Xor(Steps(Xor(c, b) % 256, 8), c / 256)
  {
    hide Xor, Steps;
    EightSteps(Xor(c, b));
    ShiftByte(c, b);
  }

  lemma WordStep(c: nat)
    requires c < 0x1_0000_0000
    ensures ShiftStep(c) < 0x1_0000_0000
  {
    hide Xor;
    WordXor(POLYNOMIAL, c / 2);
  }

  lemma {:induction false} WordSteps(c: nat, n: nat)
    requires c < 0x1_0000_0000
    ensures Steps(c, n) < 0x1_0000_0000
  {
    hide ShiftStep;
    if n > 0 {
      WordSteps(c, n - 1);
      WordStep(Steps(c, n - 1));
    }
  }

  lemma {:induction false} WordRegister(c: nat, buf: seq<Byte>)
    requires c < 0x1_0000_0000
    ensures Register(c, buf) < 0x1_0000_0000
    decreases |buf|
  {
    hide Xor, Steps;
    if buf != [] {
      WordRegister(c, buf[..|buf| - 1]);
      WordXor(Register(c, buf[..|buf| - 1]), buf[|buf| - 1]);
      WordSteps(Xor(Register(c, buf[..|buf| - 1]), buf[|buf| - 1]), 8);
    }
  }

  method Crc32Table() returns (t: array<Word>)
    ensures fresh(t) && t.Length == 256
    ensures forall n :: 0 <= n < 256 ==> t[n] == Steps(n, 8)
  {
    hide Xor;
    t := new Word[256](_ => 0);
    for n := 0 to 256
      invariant forall m :: 0 <= m < n ==> t[m] == Steps(m, 8)
    {
      var c: nat := n;
      for k := 0 to 8
        invariant c == Steps(n, k)
      {
        c := if c % 2 == 1 then Xor(0xedb88320, c / 2) else c / 2;
      }
      WordSteps(n, 8);
      t[n] := c;
    }
  }

  /** The table-driven loop computes the bit-at-a-time checksum. */
  method Crc32(buf: seq<Byte>) returns (crc: nat)
    ensures crc == Checksum(buf) && crc < 0x1_0000_0000
  {
    hide Xor, Steps;
    crc := 0xffffffff;
    var table := Crc32Table();
    for i := 0 to |buf|
      invariant crc == Register(0xffffffff, buf[..i])
      invariant forall n :: 0 <= n < 256 ==> table[n] == Steps(n, 8)
    {
      TableStep(crc, buf[i]);
      assert buf[..i + 1][..i] == buf[..i];
      crc := Xor(table[Xor(crc, buf[i]) % 256], crc / 256);
    }
    assert buf[..|buf|] == buf;
    WordRegister(0xffffffff, buf);
    WordXor(crc, 0xffffffff);
    crc := Xor(crc, 0xffffffff);
  }

  // ---- what the checksum detects ---------------------------------------------

  lemma {:induction false} TopBit(x: nat, n: nat)
    requires x < 2 * Pow2(n)
    ensures ShiftRight(x, n) == if x < Pow2(n) then 0 else 1
    decreases n
  {
    if n > 0 {
      TopBit(x / 2, n - 1);
    }
  }

  lemma ShiftStepTopBit(c: nat)
    requires c < 0x1_0000_0000
    ensures ShiftStep(c) >= 0x8000_0000 <==> c % 2 == 1
  {
    hide Xor;
    Pow2Of32();
    assert 2 * Pow2(31) == Pow2(32);
    XorShift(POLYNOMIAL, c / 2, 31);
    TopBit(POLYNOMIAL, 31);
    TopBit(c / 2, 31);
    WordXor(POLYNOMIAL, c / 2);
    TopBit(Xor(POLYNOMIAL, c / 2), 31);
    XorZero(1);
  }

  /** No two words shift to the same word. */
  lemma ShiftStepInjective(c: nat, d: nat)
    requires c < 0x1_0000_0000 && d < 0x1_0000_0000 && ShiftStep(c) == ShiftStep(d)
    ensures c == d
  {
    hide Xor;
    ShiftStepTopBit(c);
    ShiftStepTopBit(d);
    XorCancel(c / 2, POLYNOMIAL);
    XorCancel(d / 2, POLYNOMIAL);
    SameParts(c, d);
  }

  lemma {:induction false} StepsInjective(c: nat, d: nat, n: nat)
    requires c < 0x1_0000_0000 && d < 0x1_0000_0000 && Steps(c, n) == Steps(d, n)
    ensures c == d
  {
    hide ShiftStep;
    if n > 0 {
      WordSteps(c, n - 1);
      WordSteps(d, n - 1);
      ShiftStepInjective(Steps(c, n - 1), Steps(d, n - 1));
      StepsInjective(c, d, n - 1);
    }
  }

  /** Registers that differ stay different over a common suffix. */
  lemma {:induction false} RegisterInjective(c: nat, d: nat, buf: seq<Byte>)
    requires c < 0x1_0000_0000 && d < 0x1_0000_0000 && Register(c, buf) == Register(d, buf)
    ensures c == d
    decreases |buf|
  {
    hide Xor, Steps;
    if buf != [] {
      var n := |buf| - 1;
      var x, y, b := Register(c, buf[..n]), Register(d, buf[..n]), buf[n];
      WordRegister(c, buf[..n]);
      WordRegister(d, buf[..n]);
      WordXor(x, b);
      WordXor(y, b);
      StepsInjective(Xor(x, b), Xor(y, b), 8);
      XorCancel(x, b);
      XorCancel(y, b);
      RegisterInjective(c, d, buf[..n]);
    }
  }

  lemma {:induction false} RegisterConcat(c: nat, p: seq<Byte>, q: seq<Byte>)
    ensures Register(c, p + q) == Register(Register(c, p), q)
    decreases |q|
  {
    hide Xor, Steps;
    if q == [] {
      assert p + q == p;
    } else {
      assert (p + q)[..|p + q| - 1] == p + q[..|q| - 1];
      RegisterConcat(c, p, q[..|q| - 1]);
    }
  }

  /** The bytes as one little-endian number. */
  function LittleEndian(u: seq<Byte>): nat {
    if u == [] then 0 else u[0] + 256 * LittleEndian(u[1..])
  }

  lemma {:induction false} LittleEndianInjective(u: seq<Byte>, v: seq<Byte>)
    requires |u| == |v| && LittleEndian(u) == LittleEndian(v)
    ensures u == v
  {
    if u != [] {
      LittleEndianInjective(u[1..], v[1..]);
      assert u == [u[0]] + u[1..] && v == [v[0]] + v[1..];
    }
  }

  lemma LittleEndianWord(u: seq<Byte>)
    requires |u| <= 4
    ensures LittleEndian(u) < 0x1_0000_0000
  {
    LittleEndianBound(u, 4);
  }

  lemma {:induction false} LittleEndianBound(u: seq<Byte>, n: nat)
    requires |u| <= n <= 4
    ensures LittleEndian(u) < [1, 0x100, 0x1_0000, 0x100_0000, 0x1_0000_0000][n]
  {
    if u != [] {
      LittleEndianBound(u[1..], n - 1);
    }
  }

  /** Feeding bytes one by one is adding them all in front and shifting. */
  lemma {:induction false} RegisterAsShift(c: nat, u: seq<Byte>)
    ensures Register(c, u) == Steps(Xor(c, LittleEndian(u)), 8 * |u|)
    decreases |u|
  {
    hide Xor, TimesPow2;
    if u == [] {
      XorZero(c);
    } else {
      var x, rest := Xor(c, u[0]), LittleEndian(u[1..]);
      assert u == [u[0]] + u[1..];
      RegisterConcat(c, [u[0]], u[1..]);
      RegisterOne(c, u[0]);
      RegisterAsShift(Steps(x, 8), u[1..]);
      hide Steps, Register;
      TimesPow2Eight(rest);
      StepsShiftOut(rest, 8);
      StepsXor(x, TimesPow2(rest, 8), 8);
      StepsAdd(Xor(x, TimesPow2(rest, 8)), 8, 8 * |u[1..]|);
      XorAssoc(c, u[0], TimesPow2(rest, 8));
      assert Pow2(8) == 256;
      XorDisjoint(rest, u[0], 8);
    }
  }

  lemma RegisterOne(c: nat, b: Byte)
    ensures Register(c, [b]) == Steps(Xor(c, b), 8)
  {
    hide Xor, Steps;
    assert [b][..0] == [];
  }

  /** Any change confined to four consecutive bytes changes the checksum. */
  lemma BurstsDetected(p: seq<Byte>, u: seq<Byte>, v: seq<Byte>, s: seq<Byte>)
    requires |u| == |v| <= 4 && u != v
    ensures Checksum(p + u + s) != Checksum(p + v + s)
  {
    hide Xor, Register, Steps;
    var c := Register(0xffffffff, p);
    WordRegister(0xffffffff, p);
    WordRegister(c, u);
    WordRegister(c, v);
    RegisterConcat(0xffffffff, p, u);
    RegisterConcat(0xffffffff, p, v);
    RegisterConcat(0xffffffff, p + u, s);
    RegisterConcat(0xffffffff, p + v, s);
    XorCancel(Register(0xffffffff, p + u + s), 0xffffffff);
    XorCancel(Register(0xffffffff, p + v + s), 0xffffffff);
    if Checksum(p + u + s) == Checksum(p + v + s) {
      RegisterInjective(Register(c, u), Register(c, v), s);
      RegisterAsShift(c, u);
      RegisterAsShift(c, v);
      var x, y := LittleEndian(u), LittleEndian(v);
      LittleEndianWord(u);
      LittleEndianWord(v);
      WordXor(c, x);
      WordXor(c, y);
      StepsInjective(Xor(c, x), Xor(c, y), 8 * |u|);
      XorComm(c, x);
      XorComm(c, y);
      XorCancel(x, c);
      XorCancel(y, c);
      LittleEndianInjective(u, v);
    }
  }
}
