/**
  The log/antilog tables and `rsEncode` of src/api/audit-verify.ts.
*/
module ReedSolomon {
  import opened Bitwise
  import opened GF256
  import opened GFLogs
  import opened Polynomials

  /** The `GF256` object: tables filled by one loop over the powers of alpha. */
  class GaloisTables {
    const EXP: array<Byte>
    const LOG: array<Byte>

    ghost predicate Valid()
      reads EXP, LOG
    {
      && EXP.Length == 512 && LOG.Length == 256
      && (forall i :: 0 <= i < 512 ==> EXP[i] == Power(i))
      && (forall i :: 0 <= i < 255 ==> LOG[Power(i)] == i)
    }

    constructor ()
      ensures Valid() && fresh(EXP) && fresh(LOG)
    {
      EXP := new Byte[512](_ => 0);
      LOG := new Byte[256](_ => 0);
      new;
      FillPowers(EXP, LOG);
      RepeatPowers(EXP);
    }

    static method FillPowers(EXP: array<Byte>, LOG: array<Byte>)
      requires EXP.Length == 512 && LOG.Length == 256 && EXP != LOG
      modifies EXP, LOG
      ensures forall k :: 0 <= k < 255 ==> EXP[k] == Power(k)
      ensures forall k :: 0 <= k < 255 ==> LOG[Power(k)] == k
    {
      hide Xor, Power;
      PowerZero();
      var x: nat := 1;
      for i := 0 to 255
        invariant x == Power(i)
        invariant forall k :: 0 <= k < i ==> EXP[k] == Power(k)
        invariant forall k :: 0 <= k < i ==> LOG[Power(k)] == k
      {
        forall k | 0 <= k < i
          ensures Power(k) != Power(i)
        {
          PowersDistinct(k, i);
        }
        PowerNext(i);
        EXP[i] := x;
        LOG[x] := i;
        x := x * 2;
        if x > 255 {
          x := Xor(x, 0x11d);
        }
      }
    }

    static method RepeatPowers(EXP: array<Byte>)
      requires EXP.Length == 512
      requires forall k :: 0 <= k < 255 ==> EXP[k] == Power(k)
      modifies EXP
      ensures forall k :: 0 <= k < 512 ==> EXP[k] == Power(k)
    {
      hide Power;
      for i := 255 to 512
        invariant forall k :: 0 <= k < i ==> EXP[k] == Power(k)
      {
        PowerRepeats(i);
        EXP[i] := EXP[i - 255];
      }
    }

    /** Multiplying by adding logarithms is field multiplication. */
    function MulByLogs(a: Byte, b: Byte): (r: Byte)
      requires Valid()
      reads EXP, LOG
      ensures r == Mul(a, b)
    {
      LogsMultiply(this, a, b);
      if a == 0 || b == 0 then 0 else EXP[(LOG[a] as nat + LOG[b] as nat) % 255]
    }

    /** The coefficient read by `GF256.EXP[i]`; beyond the table the source reads
        `undefined`, which its arithmetic treats as 0. */
    function Exp(i: nat): Byte
      requires EXP.Length == 512
      reads EXP
    {
      if i < 512 then EXP[i] else 0
    }
  }

  lemma PowerRepeats(i: nat)
    requires i >= 255
    ensures Power(i) == Power(i - 255)
  {
    hide Power, Mul;
    Power255();
    PowerAdd(255, i - 255);
    MulOneLeft(Power(i - 255));
  }

  lemma LogsMultiply(t: GaloisTables, a: Byte, b: Byte)
    requires t.Valid()
    ensures a == 0 || b == 0 ==> Mul(a, b) == 0
    ensures a != 0 && b != 0 ==> t.EXP[(t.LOG[a] as nat + t.LOG[b] as nat) % 255] == Mul(a, b)
  {
    hide Power, Mul;
    MulUnits(a);
    MulUnits(b);
    if a != 0 && b != 0 {
      var i := LogExists(a);
      var j := LogExists(b);
      PowerAdd(i, j);
      Power255();
      PowerPeriod(255, i + j);
    }
  }

  // ---- the generator polynomial ---------------------------------------------

  function Root(i: nat): Byte {
    if i < 512 then Power(i) else 0
  }

  /** (x + alpha^0)(x + alpha^1)...(x + alpha^(n-1)) */
  function Generator(n: nat): (g: seq<Byte>)
    ensures |g| == n + 1
  {
    if n == 0 then [1] else PolyMul(Generator(n - 1), [1, Root(n - 1)])
  }

  lemma {:induction false} GeneratorMonic(n: nat)
    ensures Generator(n)[0] == 1
  {
    hide PolyMul;
    if n > 0 {
      GeneratorMonic(n - 1);
      PolyMulMonic(Generator(n - 1), [1, Root(n - 1)]);
    }
  }

  /** Every alpha^i with i < n is a root of the generator, table limit included. */
  lemma {:induction false} GeneratorRoot(n: nat, i: nat)
    requires i < n
    ensures Eval(Generator(n), Power(i)) == 0
  {
    hide PolyMul, Eval, Power, Mul;
    var f := [1, Root(n - 1)];
    EvalPolyMul(Generator(n - 1), f, Power(i));
    MulUnits(Eval(Generator(n - 1), Power(i)));
    MulUnits(Eval(f, Power(i)));
    if i < n - 1 {
      GeneratorRoot(n - 1, i);
    } else if i < 512 {
      LinearFactorRoot(Power(i));
    } else {
      Power255();
      PowerPeriod(255, i);
      GeneratorRoot(n - 1, i % 255);
    }
  }

  lemma ScalePrefixStep(c: Byte, q: seq<Byte>, k: nat, a: seq<Byte>, pos: nat)
    requires k < |q| && pos + |q| <= |a|
    ensures AddAt(a, pos, Scale(c, q)[..k + 1])
            == AddAt(a, pos, Scale(c, q)[..k])[pos + k := Add(a[pos + k], Mul(c, q[k]))]
    ensures AddAt(a, pos, Scale(c, q)[..k])[pos + k] == a[pos + k]
  {
    hide Add, Mul;
  }

  /** The innermost loop of the generator: result[j + k] ^= mul(generator[j], factor[k]). */
  method AddScaled(t: GaloisTables, result: array<Byte>, pos: nat, c: Byte, factor: seq<Byte>)
    requires t.Valid() && pos + |factor| <= result.Length
    requires result != t.EXP && result != t.LOG
    modifies result
    ensures result[..] == AddAt(old(result[..]), pos, Scale(c, factor))
  {
    hide Add, Mul;
    ghost var before := result[..];
    assert AddAt(before, pos, []) == before;
    for k := 0 to |factor|
      invariant result[..] == AddAt(before, pos, Scale(c, factor)[..k])
    {
      ScalePrefixStep(c, factor, k, before, pos);
      assert result[..][pos + k] == before[pos + k];
      result[pos + k] := Add(result[pos + k], t.MulByLogs(c, factor[k]));
    }
    assert Scale(c, factor)[..|factor|] == Scale(c, factor);
  }

  method BuildGenerator(t: GaloisTables, ecCount: nat) returns (generator: seq<Byte>)
    requires t.Valid()
    ensures generator == Generator(ecCount)
  {
    hide PolyMul, AddAt, Scale;
    generator := [1];
    for i := 0 to ecCount
      invariant generator == Generator(i)
    {
      var factor := [1, t.Exp(i)];
      var result := new Byte[|generator| + |factor| - 1](_ => 0);
      PolyMulEmpty(factor);
      assert result[..] == Zeros(|factor| - 1) + Zeros(|generator|);
      assert generator[..0] == [];
      for j := 0 to |generator|
        invariant result[..] == PolyMul(generator[..j], factor) + Zeros(|generator| - j)
        invariant fresh(result)
      {
        PolyMulStep(generator, factor, j);
        AddScaled(t, result, j, generator[j], factor);
      }
      assert generator[..|generator|] == generator;
      generator := result[..];
    }
  }

  lemma PolyMulEmpty(q: seq<Byte>)
    requires |q| > 0
    ensures PolyMul([], q) == Zeros(|q| - 1)
  {
  }

  // ---- long division in place ------------------------------------------------

  function CoefficientAt(p: seq<Byte>, k: nat): Byte {
    if k < |p| then p[k] else 0
  }

  /** After i steps the first i entries of msg are the quotient so far, and the
      rest is what remains of the dividend. */
  ghost predicate Dividing(dividend: seq<Byte>, msg: seq<Byte>, g: seq<Byte>, i: nat) {
    && |g| > 0 && i <= |msg| == |dividend|
    && forall k :: 0 <= k < |msg| ==>
      dividend[k] == Add(CoefficientAt(PolyMul(msg[..i], g), k), if k < i then 0 else msg[k])
  }

  /** The message after subtracting coeff * generator at position i, except at i itself. */
  function Subtracted(msg: seq<Byte>, g: seq<Byte>, i: nat): seq<Byte>
    requires |g| > 0 && i + |g| <= |msg|
  {
    AddAt(msg, i + 1, Scale(msg[i], g)[1..])
  }

  lemma DivideStepAt(dividend: seq<Byte>, msg: seq<Byte>, g: seq<Byte>, i: nat, k: nat)
    requires Dividing(dividend, msg, g, i) && g[0] == 1 && i + |g| <= |msg| && k < |msg|
    ensures var p := AddAt(PolyMul(msg[..i], g) + [0], i, Scale(msg[i], g));
            dividend[k] == Add(CoefficientAt(p, k), if k < i + 1 then 0 else Subtracted(msg, g, i)[k])
  {
    hide Add, Mul, PolyMul;
    var p, s := PolyMul(msg[..i], g), Scale(msg[i], g);
    var a := CoefficientAt(p, k);
    MulUnits(msg[i]);
    AddLaws(a, 0);
    if k == i {
      AddLaws(Add(a, msg[i]), 0);
    } else if i < k < i + |g| {
      AddSwap(a, s[k - i], msg[k], s[k - i]);
      AddLaws(s[k - i], s[k - i]);
      AddLaws(Add(a, msg[k]), 0);
    }
  }

  lemma DivideStep(dividend: seq<Byte>, msg: seq<Byte>, g: seq<Byte>, i: nat)
    requires Dividing(dividend, msg, g, i) && g[0] == 1 && i + |g| <= |msg|
    ensures Dividing(dividend, Subtracted(msg, g, i), g, i + 1)
  {
    hide Add, Mul, PolyMul, CoefficientAt;
    var next := Subtracted(msg, g, i);
    assert next[..i + 1] == msg[..i] + [msg[i]];
    PolyMulSnoc(msg[..i], msg[i], g);
    forall k | 0 <= k < |msg|
      ensures dividend[k] == Add(CoefficientAt(PolyMul(next[..i + 1], g), k), if k < i + 1 then 0 else next[k])
    {
      DivideStepAt(dividend, msg, g, i, k);
    }
  }

  lemma DividingStarts(dividend: seq<Byte>, g: seq<Byte>)
    requires |g| > 0
    ensures Dividing(dividend, dividend, g, 0)
  {
    hide Add;
    assert dividend[..0] == [];
    PolyMulEmpty(g);
    forall k | 0 <= k < |dividend|
      ensures dividend[k] == Add(CoefficientAt(PolyMul([], g), k), dividend[k])
    {
      AddLaws(dividend[k], 0);
    }
  }

  /** A zero coefficient subtracts nothing, so skipping it is the same step. */
  lemma SubtractNothing(msg: seq<Byte>, g: seq<Byte>, i: nat)
    requires |g| > 0 && i + |g| <= |msg| && msg[i] == 0
    ensures Subtracted(msg, g, i) == msg
  {
    hide Add, Mul;
    forall k | 0 <= k < |msg|
      ensures Subtracted(msg, g, i)[k] == msg[k]
    {
      AddLaws(msg[k], 0);
      if i < k < i + |g| {
        MulUnits(g[k - i]);
      }
    }
  }

  lemma DividingEnds(data: seq<Byte>, ecCount: nat, msg: seq<Byte>, g: seq<Byte>)
    requires |g| == ecCount + 1
    requires Dividing(data + Zeros(ecCount), msg, g, |data|)
    ensures data + msg[|data|..] == PolyMul(msg[..|data|], g)
  {
    hide Add, PolyMul;
    var n, p := |data|, PolyMul(msg[..|data|], g);
    forall k | 0 <= k < n + ecCount
      ensures (data + msg[n..])[k] == p[k]
    {
      var dividend := data + Zeros(ecCount);
      assert dividend[k] == Add(CoefficientAt(p, k), if k < n then 0 else msg[k]);
      if k < n {
        AddLaws(p[k], 0);
      } else {
        AddZeroOnlySelf(p[k], msg[k]);
      }
    }
  }

  /** A codeword of the code the generator spans, with the data in front. */
  ghost predicate IsCodeword(data: seq<Byte>, ec: seq<Byte>, g: seq<Byte>)
    requires |g| > 0
  {
    exists q :: |q| == |data| && data + ec == PolyMul(q, g)
  }

  method RsEncode(t: GaloisTables, data: seq<Byte>, ecCount: nat) returns (ec: seq<Byte>)
    requires t.Valid()
    ensures |ec| == ecCount
    ensures IsCodeword(data, ec, Generator(ecCount))
    ensures forall i :: 0 <= i < ecCount ==> Eval(data + ec, Power(i)) == 0
  {
    hide Add, Mul, PolyMul, Generator, Dividing, Subtracted;
    var generator := BuildGenerator(t, ecCount);
    GeneratorMonic(ecCount);
    ghost var dividend := data + Zeros(ecCount);
    var padded := data + Zeros(ecCount);
    var msg := new Byte[|padded|](k requires 0 <= k < |padded| => padded[k]);
    assert msg[..] == dividend;
    DividingStarts(dividend, generator);
    for i := 0 to |data|
      invariant Dividing(dividend, msg[..], generator, i)
    {
      var coeff := msg[i];
      DivideStep(dividend, msg[..], generator, i);
      if coeff != 0 {
        SubtractScaled(t, msg, i, coeff, generator);
      } else {
        SubtractNothing(msg[..], generator, i);
      }
    }
    ec := msg[|data|..];
    DividingEnds(data, ecCount, msg[..], generator);
    assert ec == msg[..][|data|..];
    CodewordVanishes(data, ec, ecCount);
  }

  /** The inner loop of the division: msg[i + j] ^= mul(generator[j], coeff), j >= 1. */
  method SubtractScaled(t: GaloisTables, msg: array<Byte>, i: nat, coeff: Byte, generator: seq<Byte>)
    requires t.Valid() && |generator| > 0 && i + |generator| <= msg.Length && msg[i] == coeff
    requires msg != t.EXP && msg != t.LOG
    modifies msg
    ensures msg[..] == Subtracted(old(msg[..]), generator, i)
  {
    hide Add, Mul;
    ghost var before := msg[..];
    for j := 1 to |generator|
      invariant forall k | 0 <= k < msg.Length ::
        msg[k] == if i < k < i + j then Add(before[k], Mul(coeff, generator[k - i])) else before[k]
    {
      MulComm(generator[j], coeff);
      msg[i + j] := Add(msg[i + j], t.MulByLogs(generator[j], coeff));
    }
  }

  /** Codewords evaluate to zero at alpha^0, ..., alpha^(ecCount-1). */
  lemma CodewordVanishes(data: seq<Byte>, ec: seq<Byte>, ecCount: nat)
    requires IsCodeword(data, ec, Generator(ecCount))
    ensures forall i :: 0 <= i < ecCount ==> Eval(data + ec, Power(i)) == 0
  {
    hide Mul, PolyMul, Eval, Power, Generator;
    var q :| |q| == |data| && data + ec == PolyMul(q, Generator(ecCount));
    forall i | 0 <= i < ecCount
      ensures Eval(data + ec, Power(i)) == 0
    {
      EvalPolyMul(q, Generator(ecCount), Power(i));
      GeneratorRoot(ecCount, i);
      MulUnits(Eval(q, Power(i)));
    }
  }

  // ---- the check symbols are determined by the data --------------------------

  /** A product by a monic polynomial whose leading |q| coefficients vanish is zero. */
  lemma {:induction false} LeadingZeros(q: seq<Byte>, g: seq<Byte>)
    requires |g| > 0 && g[0] == 1
    requires forall k :: 0 <= k < |q| ==> PolyMul(q, g)[k] == 0
    ensures PolyMul(q, g) == Zeros(|q| + |g| - 1)
    decreases |q|
  {
    hide Add, Mul;
    if q != [] {
      var n := |q| - 1;
      var p := PolyMul(q[..n], g) + [0];
      assert PolyMul(q, g) == AddAt(p, n, Scale(q[n], g));
      assert forall k :: 0 <= k < n ==> PolyMul(q, g)[k] == PolyMul(q[..n], g)[k];
      LeadingZeros(q[..n], g);
      MulUnits(q[n]);
      assert p == Zeros(n + |g|);
      assert PolyMul(q, g)[n] == Add(0, Mul(q[n], g[0]));
      AddLaws(q[n], 0);
      SubtractNothingFromZeros(p, n, q[n], g);
    }
  }

  lemma SubtractNothingFromZeros(p: seq<Byte>, pos: nat, c: Byte, g: seq<Byte>)
    requires c == 0 && pos + |g| <= |p|
    ensures AddAt(p, pos, Scale(c, g)) == p
  {
    hide Add, Mul;
    forall k | 0 <= k < |p|
      ensures AddAt(p, pos, Scale(c, g))[k] == p[k]
    {
      AddLaws(p[k], 0);
      if pos <= k < pos + |g| {
        MulUnits(g[k - pos]);
      }
    }
  }

  function PolyAdd(p: seq<Byte>, q: seq<Byte>): (s: seq<Byte>)
    requires |p| == |q|
    ensures |s| == |p|
  {
    seq(|p|, k requires 0 <= k < |p| => Add(p[k], q[k]))
  }

  lemma PolyAddAtStep(a: seq<Byte>, b: seq<Byte>, pos: nat, c: Byte, d: Byte, g: seq<Byte>)
    requires |a| == |b| && pos + |g| == |a| + 1
    ensures AddAt(PolyAdd(a, b) + [0], pos, Scale(Add(c, d), g))
            == PolyAdd(AddAt(a + [0], pos, Scale(c, g)), AddAt(b + [0], pos, Scale(d, g)))
  {
    hide Add, Mul;
    var a0, b0 := a + [0], b + [0];
    forall k | 0 <= k < |a| + 1
      ensures AddAt(PolyAdd(a, b) + [0], pos, Scale(Add(c, d), g))[k]
              == Add(AddAt(a0, pos, Scale(c, g))[k], AddAt(b0, pos, Scale(d, g))[k])
    {
      AddLaws(0, 0);
      if pos <= k {
        MulAdd(c, d, g[k - pos]);
        AddSwap(a0[k], b0[k], Mul(c, g[k - pos]), Mul(d, g[k - pos]));
      }
    }
  }

  lemma {:induction false} PolyMulAdd(p: seq<Byte>, q: seq<Byte>, g: seq<Byte>)
    requires |p| == |q| && |g| > 0
    ensures PolyMul(PolyAdd(p, q), g) == PolyAdd(PolyMul(p, g), PolyMul(q, g))
    decreases |p|
  {
    hide Add, Mul, AddAt, Scale;
    if p == [] {
      ZerosAdd(|g| - 1);
    } else {
      var n := |p| - 1;
      assert PolyAdd(p, q)[..n] == PolyAdd(p[..n], q[..n]);
      PolyMulAdd(p[..n], q[..n], g);
      PolyAddAtStep(PolyMul(p[..n], g), PolyMul(q[..n], g), n, p[n], q[n], g);
    }
  }

  lemma ZerosAdd(n: nat)
    ensures PolyAdd(Zeros(n), Zeros(n)) == Zeros(n)
  {
    hide Add;
    AddLaws(0, 0);
  }

  /** Two codewords with the same data have the same check symbols. */
  lemma CheckSymbolsUnique(data: seq<Byte>, ec: seq<Byte>, ec': seq<Byte>, g: seq<Byte>)
    requires |g| > 0 && g[0] == 1 && |ec| == |ec'| == |g| - 1
    requires IsCodeword(data, ec, g) && IsCodeword(data, ec', g)
    ensures ec == ec'
  {
    hide Add, Mul, PolyMul;
    var n := |data|;
    var q :| |q| == n && data + ec == PolyMul(q, g);
    var q' :| |q'| == n && data + ec' == PolyMul(q', g);
    var d := PolyMul(PolyAdd(q, q'), g);
    PolyMulAdd(q, q', g);
    forall k | 0 <= k < n
      ensures d[k] == 0
    {
      assert (data + ec)[k] == data[k] && (data + ec')[k] == data[k];
      AddLaws(data[k], data[k]);
    }
    LeadingZeros(PolyAdd(q, q'), g);
    forall k | 0 <= k < |ec|
      ensures ec[k] == ec'[k]
    {
      assert d[n + k] == Add((data + ec)[n + k], (data + ec')[n + k]);
      AddZeroOnlySelf(ec[k], ec'[k]);
    }
  }
}
