/**
 Polynomials over GF(256) as coefficient sequences, leading coefficient first,
 with evaluation, product and scaling. This is the reference against which the
 encoder's polynomial class is proved.
 */
module Polynomials {
  import opened Gf256

  type Poly = seq<bv8>

  function Zeros(n: nat): (p: Poly)
    ensures |p| == n && forall k :: 0 <= k < n ==> p[k] == 0
  {
    seq(n, _ => 0)
  }

  /** The entry at position `j`, reading positions outside the sequence as zero. */
  function At(p: Poly, j: int): bv8 {
    if 0 <= j < |p| then p[j] else 0
  }

  /** The value at `x`, by Horner's rule. */
  function Eval(p: Poly, x: bv8): bv8 {
    if p == [] then 0 else Add(Mul(Eval(p[..|p| - 1], x), x), p[|p| - 1])
  }

  function Sum(p: Poly, q: Poly): (r: Poly)
    requires |p| == |q|
    ensures |r| == |p|
  {
    seq(|p|, k requires 0 <= k < |p| => Add(p[k], q[k]))
  }

  function Scale(c: bv8, p: Poly): (r: Poly)
    ensures |r| == |p|
  {
    seq(|p|, k requires 0 <= k < |p| => Mul(c, p[k]))
  }

  /** The sum of p[i'] * q[k - i'] over i' < i. */
  function ProdAt(p: Poly, q: Poly, i: nat, k: int): bv8
    requires i <= |p|
  {
    if i == 0 then 0 else Add(ProdAt(p, q, i - 1, k), Mul(p[i - 1], At(q, k - (i - 1))))
  }

  /** The product. */
  function Times(p: Poly, q: Poly): (r: Poly)
    requires q != []
    ensures |r| == |p| + |q| - 1
  {
    seq(|p| + |q| - 1, k => ProdAt(p, q, |p|, k))
  }

  ghost predicate NoZero(p: Poly) {
    forall k :: 0 <= k < |p| ==> p[k] != 0
  }

  // ----- evaluation is a ring homomorphism -----

  lemma {:induction false} EvalSum(p: Poly, q: Poly, x: bv8)
    requires |p| == |q|
    ensures Eval(Sum(p, q), x) == Add(Eval(p, x), Eval(q, x))
  {
    hide Add, Mul;
    if p == [] {
      AddZero(0);
    } else {
      var n := |p| - 1;
      var a, b := Eval(p[..n], x), Eval(q[..n], x);
      EvalSum(p[..n], q[..n], x);
      assert Sum(p, q)[..n] == Sum(p[..n], q[..n]);
      DistributesLeft(a, b, x);
      AddSwap(Mul(a, x), Mul(b, x), p[n], q[n]);
    }
  }

  lemma {:induction false} EvalScale(c: bv8, p: Poly, x: bv8)
    ensures Eval(Scale(c, p), x) == Mul(c, Eval(p, x))
  {
    hide Add, Mul;
    if p == [] {
      MulZero(c);
    } else {
      var n := |p| - 1;
      EvalScale(c, p[..n], x);
      assert Scale(c, p)[..n] == Scale(c, p[..n]);
      MulAssoc(c, Eval(p[..n], x), x);
      DistributesRight(c, Mul(Eval(p[..n], x), x), p[n]);
    }
  }

  lemma {:induction false} EvalZeros(n: nat, x: bv8)
    ensures Eval(Zeros(n), x) == 0
  {
    hide Add, Mul;
    if n > 0 {
      EvalZeros(n - 1, x);
      assert Zeros(n)[..n - 1] == Zeros(n - 1);
      MulZero(x);
      AddZero(0);
    }
  }

  /** Leading zeros do not change the value. */
  lemma {:induction false} EvalPadded(n: nat, p: Poly, x: bv8)
    ensures Eval(Zeros(n) + p, x) == Eval(p, x)
  {
    hide Add, Mul;
    if p == [] {
      EvalZeros(n, x);
      assert Zeros(n) + p == Zeros(n);
    } else {
      var m := |p| - 1;
      EvalPadded(n, p[..m], x);
      assert (Zeros(n) + p)[..n + m] == Zeros(n) + p[..m];
    }
  }

  lemma EvalSnoc(p: Poly, c: bv8, x: bv8)
    ensures Eval(p + [c], x) == Add(Mul(Eval(p, x), x), c)
  {
    hide Add, Mul;
    assert (p + [c])[..|p|] == p;
  }

  lemma {:induction false} ProdAtPrefix(p: Poly, q: Poly, i: nat, c: bv8, k: int)
    requires i <= |p|
    ensures ProdAt(p + [c], q, i, k) == ProdAt(p, q, i, k)
  {
    hide Add, Mul;
    if i > 0 {
      ProdAtPrefix(p, q, i - 1, c, k);
    }
  }

  lemma {:induction false} ProdAtBeyond(p: Poly, q: Poly, i: nat, k: int)
    requires i <= |p| && (k < 0 || k >= i + |q| - 1)
    ensures ProdAt(p, q, i, k) == 0
  {
    hide Add, Mul;
    if i > 0 {
      ProdAtBeyond(p, q, i - 1, k);
      MulZero(p[i - 1]);
      AddZero(0);
    }
  }

  /** Adding a last coefficient to the left factor. */
  lemma TimesSnoc(p: Poly, c: bv8, q: Poly)
    requires q != []
    ensures Times(p + [c], q) == Sum(Times(p, q) + [0], Zeros(|p|) + Scale(c, q))
  {
    hide Add, Mul;
    var l, r := Times(p + [c], q), Sum(Times(p, q) + [0], Zeros(|p|) + Scale(c, q));
    forall k | 0 <= k < |l|
      ensures l[k] == r[k]
    {
      ProdAtPrefix(p, q, |p|, c, k);
      ProdAtBeyond(p, q, |p|, |p| + |q| - 1);
      MulZero(c);
    }
  }

  /** The product is the ring product: evaluation at any point turns it into multiplication. */
  lemma {:induction false} EvalTimes(p: Poly, q: Poly, x: bv8)
    requires q != []
    ensures Eval(Times(p, q), x) == Mul(Eval(p, x), Eval(q, x))
  {
    hide Add, Mul, Times;
    if p == [] {
      TimesNil(q);
      EvalZeros(|q| - 1, x);
      MulZero(Eval(q, x));
    } else {
      var n := |p| - 1;
      var p', c := p[..n], p[n];
      var a, b := Eval(p', x), Eval(q, x);
      EvalTimes(p', q, x);
      TimesSnoc(p', c, q);
      assert p == p' + [c];
      EvalSum(Times(p', q) + [0], Zeros(n) + Scale(c, q), x);
      EvalSnoc(Times(p', q), 0, x);
      AddZero(Mul(Mul(a, b), x));
      EvalPadded(n, Scale(c, q), x);
      EvalScale(c, q, x);
      assert Mul(Mul(a, b), x) == Mul(Mul(a, x), b) by {
        MulAssoc(a, b, x);
        MulComm(b, x);
        MulAssoc(a, x, b);
      }
      DistributesLeft(Mul(a, x), c, b);
    }
  }

  lemma TimesNil(q: Poly)
    requires q != []
    ensures Times([], q) == Zeros(|q| - 1)
  {
  }

  // ----- products from the leading coefficient down, for long division -----

  lemma {:induction false} ProdAtCons(c: bv8, p: Poly, q: Poly, i: nat, k: int)
    requires i <= |p|
    ensures ProdAt([c] + p, q, i + 1, k) == Add(Mul(c, At(q, k)), ProdAt(p, q, i, k - 1))
  {
    hide Add, Mul;
    if i == 0 {
      AddZero(Mul(c, At(q, k)));
    } else {
      ProdAtCons(c, p, q, i - 1, k);
      AddAssoc(Mul(c, At(q, k)), ProdAt(p, q, i - 1, k - 1), Mul(p[i - 1], At(q, k - i)));
    }
  }

  lemma TimesCons(c: bv8, p: Poly, q: Poly)
    requires q != [] && p != []
    ensures Times([c] + p, q) == Sum(Scale(c, q) + Zeros(|p|), [0] + Times(p, q))
  {
    hide Add, Mul;
    var l, r := Times([c] + p, q), Sum(Scale(c, q) + Zeros(|p|), [0] + Times(p, q));
    forall k | 0 <= k < |l|
      ensures l[k] == r[k]
    {
      ProdAtCons(c, p, q, |p|, k);
      ProdAtBeyond(p, q, |p|, -1);
      MulZero(c);
    }
  }

  lemma TimesOne(c: bv8, q: Poly)
    requires q != []
    ensures Times([c], q) == Scale(c, q)
  {
    hide Add, Mul;
    forall k | 0 <= k < |q|
      ensures Times([c], q)[k] == Scale(c, q)[k]
    {
      assert ProdAt([c], q, 1, k) == Add(ProdAt([c], q, 0, k), Mul(c, At(q, k)));
      AddZero(Mul(c, q[k]));
    }
  }

  lemma ScaleZero(q: Poly)
    ensures Scale(0, q) == Zeros(|q|)
  {
    hide Mul;
    forall k | 0 <= k < |q|
      ensures Scale(0, q)[k] == 0
    {
      MulZero(q[k]);
    }
  }

  lemma SumZeros(p: Poly)
    ensures Sum(Zeros(|p|), p) == p && Sum(p, Zeros(|p|)) == p && Sum(p, p) == Zeros(|p|)
  {
    hide Add;
    forall k | 0 <= k < |p|
      ensures Add(0, p[k]) == p[k] && Add(p[k], 0) == p[k] && Add(p[k], p[k]) == 0
    {
      AddZero(p[k]);
    }
  }

  lemma SumAssoc(p: Poly, q: Poly, r: Poly)
    requires |p| == |q| == |r|
    ensures Sum(Sum(p, q), r) == Sum(p, Sum(q, r))
  {
    hide Add;
    forall k | 0 <= k < |p|
      ensures Sum(Sum(p, q), r)[k] == Sum(p, Sum(q, r))[k]
    {
      AddAssoc(p[k], q[k], r[k]);
    }
  }

  /** Leading zeros of the left factor become leading zeros of the product. */
  lemma {:induction false} TimesPadded(n: nat, p: Poly, q: Poly)
    requires q != []
    ensures Times(Zeros(n) + p, q) == Zeros(n) + Times(p, q)
  {
    hide Add, Mul, Times;
    if n == 0 {
      assert Zeros(0) + p == p;
      assert Zeros(0) + Times(p, q) == Times(p, q);
    } else {
      var p' := Zeros(n - 1) + p;
      assert Zeros(n) + p == [0] + p';
      TimesPadded(n - 1, p, q);
      ScaleZero(q);
      if p' == [] {
        TimesOne(0, q);
        TimesNil(q);
        assert Zeros(n) + p == [0];
        assert Zeros(|q|) == Zeros(n) + Times(p, q);
      } else {
        TimesCons(0, p', q);
        SumZeros([0] + Times(p', q));
        assert Scale(0, q) + Zeros(|p'|) == Zeros(|[0] + Times(p', q)|);
        assert [0] + (Zeros(n - 1) + Times(p, q)) == Zeros(n) + Times(p, q);
      }
    }
  }
}
