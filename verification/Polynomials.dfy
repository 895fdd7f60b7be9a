/**
  Polynomials over GF(256), highest coefficient first, as the Reed-Solomon
  encoder of src/api/audit-verify.ts stores them.
*/
module Polynomials {
  import opened GF256
  import opened GFLogs

  /** Horner evaluation. */
  function Eval(p: seq<Byte>, x: Byte): Byte {
    if p == [] then 0 else Add(Mul(Eval(p[..|p| - 1], x), x), p[|p| - 1])
  }

  function Zeros(n: nat): (z: seq<Byte>)
    ensures |z| == n
  {
    seq(n, _ => 0)
  }

  function Scale(c: Byte, q: seq<Byte>): (s: seq<Byte>)
    ensures |s| == |q|
  {
    seq(|q|, k requires 0 <= k < |q| => Mul(c, q[k]))
  }

  /** Adds the coefficients of b into a, starting at position pos. */
  function AddAt(a: seq<Byte>, pos: nat, b: seq<Byte>): (s: seq<Byte>)
    requires pos + |b| <= |a|
    ensures |s| == |a|
  {
    seq(|a|, k requires 0 <= k < |a| => if pos <= k < pos + |b| then Add(a[k], b[k - pos]) else a[k])
  }

  /** The product of two polynomials. */
  function PolyMul(p: seq<Byte>, q: seq<Byte>): (r: seq<Byte>)
    requires |q| > 0
    ensures |r| == |p| + |q| - 1
  {
    if p == [] then Zeros(|q| - 1)
    else AddAt(PolyMul(p[..|p| - 1], q) + [0], |p| - 1, Scale(p[|p| - 1], q))
  }

  lemma {:induction false} EvalZeros(n: nat, x: Byte)
    ensures Eval(Zeros(n), x) == 0
  {
    hide Add, Mul;
    if n > 0 {
      assert Zeros(n)[..n - 1] == Zeros(n - 1);
      EvalZeros(n - 1, x);
      MulUnits(x);
      AddLaws(0, 0);
    }
  }

  lemma {:induction false} EvalScale(c: Byte, q: seq<Byte>, x: Byte)
    ensures Eval(Scale(c, q), x) == Mul(c, Eval(q, x))
  {
    hide Add, Mul;
    MulUnits(c);
    if q != [] {
      var n := |q| - 1;
      assert Scale(c, q)[..n] == Scale(c, q[..n]);
      EvalScale(c, q[..n], x);
      MulAssoc(c, Eval(q[..n], x), x);
      MulAdd(Mul(Eval(q[..n], x), x), q[n], c);
    }
  }

  /** Adding b into the low end of a adds the values. */
  lemma {:induction false} EvalAddLow(a: seq<Byte>, b: seq<Byte>, x: Byte)
    requires |b| <= |a|
    ensures Eval(AddAt(a, |a| - |b|, b), x) == Add(Eval(a, x), Eval(b, x))
    decreases |b|
  {
    hide Add, Mul;
    if b == [] {
      assert AddAt(a, |a|, b) == a;
      AddLaws(Eval(a, x), 0);
    } else {
      var m, n := |a| - 1, |b| - 1;
      var s := AddAt(a, |a| - |b|, b);
      assert s[..m] == AddAt(a[..m], m - n, b[..n]);
      EvalAddLow(a[..m], b[..n], x);
      MulAdd(Eval(a[..m], x), Eval(b[..n], x), x);
      AddSwap(Mul(Eval(a[..m], x), x), Mul(Eval(b[..n], x), x), a[m], b[n]);
    }
  }

  /** Evaluation is a homomorphism. */
  lemma {:induction false} EvalPolyMul(p: seq<Byte>, q: seq<Byte>, x: Byte)
    requires |q| > 0
    ensures Eval(PolyMul(p, q), x) == Mul(Eval(p, x), Eval(q, x))
    decreases |p|
  {
    hide Add, Mul;
    if p == [] {
      EvalZeros(|q| - 1, x);
      MulUnits(Eval(q, x));
    } else {
      var n := |p| - 1;
      var r := PolyMul(p[..n], q);
      assert (r + [0])[..|r|] == r;
      assert Eval(r + [0], x) == Add(Mul(Eval(r, x), x), 0);
      AddLaws(Mul(Eval(r, x), x), 0);
      EvalAddLow(r + [0], Scale(p[n], q), x);
      EvalScale(p[n], q, x);
      EvalPolyMul(p[..n], q, x);
      ShuffleProduct(Eval(p[..n], x), Eval(q, x), x);
      MulAdd(Mul(Eval(p[..n], x), x), p[n], Eval(q, x));
    }
  }

  lemma ShuffleProduct(a: Byte, b: Byte, x: Byte)
    ensures Mul(Mul(a, b), x) == Mul(Mul(a, x), b)
  {
    hide Mul;
    MulAssoc(a, b, x);
    MulComm(b, x);
    MulAssoc(a, x, b);
  }

  lemma {:induction false} EvalConcat(p: seq<Byte>, x: Byte, c: Byte)
    ensures Eval(p + [c], x) == Add(Mul(Eval(p, x), x), c)
  {
    assert (p + [c])[..|p|] == p;
  }

  /** x + r vanishes at r. */
  lemma LinearFactorRoot(r: Byte)
    ensures Eval([1, r], r) == 0
  {
    hide Add, Mul;
    EvalConcat([], r, 1);
    EvalConcat([1], r, r);
    assert [] + [1] == [1] && [1] + [r] == [1, r];
    MulUnits(r);
    AddLaws(1, 0);
    AddLaws(r, r);
  }

  lemma AddAtPadded(r: seq<Byte>, pos: nat, b: seq<Byte>, n: nat)
    requires pos + |b| == |r| + 1
    ensures AddAt(r + Zeros(n + 1), pos, b) == AddAt(r + [0], pos, b) + Zeros(n)
  {
    hide Add;
    var left, right := AddAt(r + Zeros(n + 1), pos, b), AddAt(r + [0], pos, b) + Zeros(n);
    forall k | 0 <= k < |r| + 1 + n
      ensures left[k] == right[k]
    {
    }
  }

  lemma PolyMulSnoc(p: seq<Byte>, c: Byte, q: seq<Byte>)
    requires |q| > 0
    ensures PolyMul(p + [c], q) == AddAt(PolyMul(p, q) + [0], |p|, Scale(c, q))
  {
    hide AddAt, Scale;
    assert (p + [c])[..|p|] == p;
  }

  lemma TakeSnoc<T>(p: seq<T>, j: nat)
    requires j < |p|
    ensures p[..j + 1] == p[..j] + [p[j]]
  {
  }

  /** One more coefficient of p extends the partial product in place. */
  lemma PolyMulStep(p: seq<Byte>, q: seq<Byte>, j: nat)
    requires |q| > 0 && j < |p|
    ensures AddAt(PolyMul(p[..j], q) + Zeros(|p| - j), j, Scale(p[j], q))
            == PolyMul(p[..j + 1], q) + Zeros(|p| - j - 1)
  {
    hide AddAt, Scale, PolyMul, Zeros;
    var n := |p| - j - 1;
    TakeSnoc(p, j);
    PolyMulSnoc(p[..j], p[j], q);
    AddAtPadded(PolyMul(p[..j], q), j, Scale(p[j], q), n);
    assert |p| - j == n + 1 && |p[..j]| == j;
  }

  /** Products of monic polynomials are monic. */
  lemma {:induction false} PolyMulMonic(p: seq<Byte>, q: seq<Byte>)
    requires |p| > 0 && |q| > 0 && p[0] == 1 && q[0] == 1
    ensures PolyMul(p, q)[0] == 1
    decreases |p|
  {
    hide Add, Mul;
    MulUnits(1);
    if |p| == 1 {
      assert p[..0] == [];
      AddLaws(1, 0);
    } else {
      PolyMulMonic(p[..|p| - 1], q);
    }
  }
}
