/**
  The arithmetic definition of exclusive or agrees with the machine's, on words
  wide enough for the field arithmetic's intermediate values.
*/
module MachineXor {
  import opened Bitwise

  lemma HalfBits(x: bv9)
    ensures (x >> 1) as nat == (x as nat) / 2 && (x & 1) as nat == (x as nat) % 2
  {
  }

  lemma LowXor(x: bv9, y: bv9)
    ensures ((x ^ y) & 1) as nat == ((x & 1) as nat + (y & 1) as nat) % 2
  {
  }

  lemma ShiftXor(x: bv9, y: bv9)
    ensures (x ^ y) >> 1 == (x >> 1) ^ (y >> 1)
  {
  }

  lemma ParityXor(x: bv9, y: bv9)
    ensures ((x ^ y) as nat) % 2 == (x as nat + y as nat) % 2
  {
    HalfBits(x);
    HalfBits(y);
    HalfBits(x ^ y);
    LowXor(x, y);
    ParityOfParities(x as nat, y as nat);
  }

  lemma ParityOfParities(a: nat, b: nat)
    ensures (a % 2 + b % 2) % 2 == (a + b) % 2
  {
  }

  function Value(x: bv9): nat {
    x as nat
  }

  function Half(x: bv9): bv9 {
    x >> 1
  }

  function Sum(x: bv9, y: bv9): bv9 {
    x ^ y
  }

  lemma HalfSum(x: bv9, y: bv9)
    ensures Value(Sum(x, y)) / 2 == Value(Sum(Half(x), Half(y)))
    ensures Value(x) / 2 == Value(Half(x)) && Value(y) / 2 == Value(Half(y))
  {
    HalfBits(x);
    HalfBits(y);
    HalfBits(x ^ y);
    ShiftXor(x, y);
  }

  lemma ParitySum(x: bv9, y: bv9)
    ensures Value(Sum(x, y)) % 2 == (Value(x) + Value(y)) % 2
  {
    ParityXor(x, y);
  }

  lemma SameParity(z: nat, a: nat, b: nat)
    requires z % 2 == (a + b) % 2 && z / 2 == Xor(a / 2, b / 2)
    ensures z == Xor(a, b)
  {
    hide Xor;
    XorBits(a, b);
    SameParts(z, Xor(a, b));
  }

  lemma XorStep(x: bv9, y: bv9)
    requires Value(Sum(Half(x), Half(y))) == Xor(Value(Half(x)), Value(Half(y)))
    ensures Value(Sum(x, y)) == Xor(Value(x), Value(y))
  {
    hide Xor, Value, Half, Sum;
    HalfSum(x, y);
    ParitySum(x, y);
    SameParity(Value(Sum(x, y)), Value(x), Value(y));
  }

  lemma ZeroSum(x: bv9, y: bv9)
    requires Value(x) == 0 && Value(y) == 0
    ensures Value(Sum(x, y)) == 0
  {
    OnlyZero(x);
    OnlyZero(y);
  }

  lemma OnlyZero(x: bv9)
    ensures x as nat == 0 <==> x == 0
  {
  }

  lemma {:induction false} XorBitsBelow(x: bv9, y: bv9, n: nat)
    requires Value(x) < Pow2(n) && Value(y) < Pow2(n)
    ensures Value(Sum(x, y)) == Xor(Value(x), Value(y))
    decreases n
  {
    hide Xor, Value, Half, Sum;
    if n == 0 {
      ZeroSum(x, y);
      XorZero(0);
    } else {
      HalfSum(x, y);
      XorBitsBelow(Half(x), Half(y), n - 1);
      XorStep(x, y);
    }
  }

  lemma XorIsBitwise(x: bv9, y: bv9)
    ensures (x ^ y) as nat == Xor(x as nat, y as nat)
  {
    assert Pow2(9) == 512;
    XorBitsBelow(x, y, 9);
  }
}
