/**
 The Reed-Solomon generator polynomials: what they are, that the encoder builds
 them, and for which lengths it can.
 */
module ReedSolomon {
  import opened Gf256
  import opened JsValues
  import opened Polynomials
  import opened QRMath
  import opened QRPolynomial

  /** The polynomial (x + 1)(x + alpha) ... (x + alpha^(n-1)). */
  function Generator(n: nat): (g: Poly)
    ensures |g| == n + 1
  {
    if n == 0 then [1] else Times(Generator(n - 1), [1, Exp(n - 1)])
  }

  /** The product of the differences (here sums) x + alpha^i. */
  function RootProduct(n: nat, x: bv8): bv8 {
    if n == 0 then 1 else Mul(RootProduct(n - 1, x), Add(x, Exp(n - 1)))
  }

  lemma {:induction false} GeneratorMonic(n: nat)
    ensures Generator(n)[0] == 1
  {
    hide Add, Mul;
    if n > 0 {
      GeneratorMonic(n - 1);
      var p, q := Generator(n - 1), [1, Exp(n - 1)];
      ProdAtFirst(p, q, |p|);
      OneMul(1);
    }
  }

  lemma {:induction false} ProdAtFirst(p: Poly, q: Poly, i: nat)
    requires 0 < i <= |p| && q != []
    ensures ProdAt(p, q, i, 0) == Mul(p[0], q[0])
  {
    hide Add, Mul;
    if i == 1 {
      AddZero(Mul(p[0], q[0]));
    } else {
      ProdAtFirst(p, q, i - 1);
      MulZero(p[i - 1]);
      AddZero(Mul(p[0], q[0]));
    }
  }

  lemma EvalLinear(a: bv8, x: bv8)
    ensures Eval([1, a], x) == Add(x, a)
  {
    hide Add, Mul;
    assert [1, a][..1] == [1];
    assert [1][..0] == [];
    assert Eval([1], x) == Add(Mul(0, x), 1);
    MulZero(x);
    AddZero(1);
    OneMul(x);
  }

  /** The value of a generator at any point is the product of the sums with its roots. */
  lemma {:induction false} GeneratorValue(n: nat, x: bv8)
    ensures Eval(Generator(n), x) == RootProduct(n, x)
  {
    hide Add, Mul;
    if n == 0 {
      assert [1][..0] == [];
      MulZero(x);
      AddZero(1);
    } else {
      GeneratorValue(n - 1, x);
      EvalTimes(Generator(n - 1), [1, Exp(n - 1)], x);
      EvalLinear(Exp(n - 1), x);
    }
  }

  lemma {:induction false} RootProductVanishes(n: nat, i: nat)
    requires i < n
    ensures RootProduct(n, Exp(i)) == 0
  {
    hide Add, Mul;
    if i == n - 1 {
      AddZero(Exp(i));
      MulZero(RootProduct(n - 1, Exp(i)));
    } else {
      RootProductVanishes(n - 1, i);
      MulZero(Add(Exp(i), Exp(n - 1)));
    }
  }

  lemma GeneratorRoot(n: nat, i: nat)
    requires i < n
    ensures Eval(Generator(n), Exp(i)) == 0
  {
    GeneratorValue(n, Exp(i));
    RootProductVanishes(n, i);
  }

  // ----- power sums: few terms cannot vanish at many consecutive powers -----

  /** The sum of cs[k] * (alpha^es[k])^j. */
  function PowerSum(cs: Poly, es: seq<nat>, j: nat): bv8
    requires |cs| == |es|
  {
    if cs == [] then 0
    else
      var n := |cs| - 1;
      Add(PowerSum(cs[..n], es[..n], j), Mul(cs[n], PowerOf(es[n], j)))
  }

  /** (alpha^e)^j. */
  function PowerOf(e: nat, j: nat): bv8 {
    Exp(e * j)
  }

  /** Each coefficient times the difference of its power with the power `e`. */
  function Lift(cs: Poly, es: seq<nat>, e: nat): (r: Poly)
    requires |cs| == |es|
    ensures |r| == |cs|
  {
    seq(|cs|, k requires 0 <= k < |cs| => Mul(cs[k], Add(Exp(es[k]), Exp(e))))
  }

  lemma LiftProduct(c: bv8, a: bv8, b: bv8, p: bv8)
    ensures Mul(Mul(c, Add(a, b)), p) == Add(Mul(c, Mul(a, p)), Mul(b, Mul(c, p)))
  {
    hide *;
    DistributesRight(c, a, b);
    DistributesLeft(Mul(c, a), Mul(c, b), p);
    MulAssoc(c, a, p);
    MulComm(c, b);
    MulAssoc(b, c, p);
  }

  lemma PowerSucc(k: nat, j: nat)
    ensures PowerOf(k, j + 1) == Mul(Exp(k), PowerOf(k, j))
  {
    hide Exp, Mul;
    assert k * (j + 1) == k + k * j;
    ExpAdd(k, k * j);
  }

  lemma PowerZero(k: nat)
    ensures PowerOf(k, 0) == 1
  {
    ExpZero();
  }

  lemma {:induction false} LiftPowerSum(cs: Poly, es: seq<nat>, e: nat, j: nat)
    requires |cs| == |es|
    ensures PowerSum(Lift(cs, es, e), es, j) == Add(PowerSum(cs, es, j + 1), Mul(Exp(e), PowerSum(cs, es, j)))
  {
    hide Add, Mul, Exp, PowerOf;
    if cs == [] {
      MulZero(Exp(e));
      AddZero(0);
    } else {
      var n := |cs| - 1;
      LiftPowerSum(cs[..n], es[..n], e, j);
      assert Lift(cs, es, e)[..n] == Lift(cs[..n], es[..n], e);
      LiftStep(PowerSum(cs[..n], es[..n], j + 1), PowerSum(cs[..n], es[..n], j), cs[n], es[n], Exp(e), j);
    }
  }

  lemma LiftStep(a: bv8, b: bv8, c: bv8, k: nat, e: bv8, j: nat)
    ensures Add(Add(a, Mul(e, b)), Mul(Mul(c, Add(Exp(k), e)), PowerOf(k, j)))
         == Add(Add(a, Mul(c, PowerOf(k, j + 1))), Mul(e, Add(b, Mul(c, PowerOf(k, j)))))
  {
    hide *;
    PowerSucc(k, j);
    var p, next := PowerOf(k, j), PowerOf(k, j + 1);
    LiftProduct(c, Exp(k), e, p);
    DistributesRight(e, b, Mul(c, p));
    AddSwap(a, Mul(e, b), Mul(c, next), Mul(e, Mul(c, p)));
  }

  lemma LiftAt(cs: Poly, es: seq<nat>, e: nat, k: nat)
    requires k < |cs| == |es|
    ensures Lift(cs, es, e)[k] == Mul(cs[k], Add(Exp(es[k]), Exp(e)))
  {
  }

  ghost predicate Distinct(es: seq<nat>) {
    && (forall i :: 0 <= i < |es| ==> es[i] < 255)
    && (forall i, j :: 0 <= i < j < |es| ==> es[i] != es[j])
  }

  lemma LiftedSum(cs: Poly, es: seq<nat>, n: nat, j: nat)
    requires |cs| == |es| == n + 1
    requires PowerSum(cs, es, j) == 0 && PowerSum(cs, es, j + 1) == 0
    ensures PowerSum(Lift(cs, es, es[n])[..n], es[..n], j) == 0
  {
    hide Add, Mul, Exp, Lift, PowerOf;
    var lifted := Lift(cs, es, es[n]);
    LiftPowerSum(cs, es, es[n], j);
    LiftAt(cs, es, es[n], n);
    AddZero(Exp(es[n]));
    MulZero(cs[n]);
    MulZero(Exp(es[n]));
    MulZero(PowerOf(es[n], j));
    AddZero(0);
    AddZero(PowerSum(lifted[..n], es[..n], j));
  }

  lemma LiftedZero(c: bv8, k: nat, e: nat)
    requires k < 255 && e < 255 && k != e && Mul(c, Add(Exp(k), Exp(e))) == 0
    ensures c == 0
  {
    hide *;
    NoZeroDivisors(c, Add(Exp(k), Exp(e)));
    AddCancel(Exp(k), Exp(e));
    if k < e {
      ExpInjective(k, e);
    } else {
      ExpInjective(e, k);
    }
  }

  lemma LastVanishes(cs: Poly, es: seq<nat>)
    requires |cs| == |es| > 0 && PowerSum(cs, es, 0) == 0
    requires forall k :: 0 <= k < |cs| - 1 ==> cs[k] == 0
    ensures cs[|cs| - 1] == 0
  {
    hide Add, Mul, Exp, PowerOf;
    var n := |cs| - 1;
    ZeroPowerSum(cs[..n], es[..n], 0);
    PowerZero(es[n]);
    MulOne(cs[n]);
    AddZero(cs[n]);
  }

  /** The Vandermonde argument: n terms with n vanishing consecutive power sums are all zero. */
  lemma {:induction false} AllVanish(cs: Poly, es: seq<nat>)
    requires |cs| == |es| && Distinct(es)
    requires forall j: nat :: j < |cs| ==> PowerSum(cs, es, j) == 0
    ensures forall k :: 0 <= k < |cs| ==> cs[k] == 0
    decreases |cs|
  {
    hide Add, Mul, Exp, Lift, PowerSum;
    if cs != [] {
      var n := |cs| - 1;
      var lifted := Lift(cs, es, es[n]);
      forall j: nat | j < n
        ensures PowerSum(lifted[..n], es[..n], j) == 0
      {
        LiftedSum(cs, es, n, j);
      }
      AllVanish(lifted[..n], es[..n]);
      forall k | 0 <= k < n
        ensures cs[k] == 0
      {
        LiftAt(cs, es, es[n], k);
        assert lifted[..n][k] == lifted[k];
        LiftedZero(cs[k], es[k], es[n]);
      }
      LastVanishes(cs, es);
    }
  }

  lemma ExpZero()
    ensures Exp(0) == 1
  {
  }

  lemma {:induction false} ZeroPowerSum(cs: Poly, es: seq<nat>, j: nat)
    requires |cs| == |es| && forall k :: 0 <= k < |cs| ==> cs[k] == 0
    ensures PowerSum(cs, es, j) == 0
  {
    hide Add, Mul, Exp, PowerOf;
    if cs != [] {
      var n := |cs| - 1;
      ZeroPowerSum(cs[..n], es[..n], j);
      MulZero(PowerOf(es[n], j));
      AddZero(0);
    }
  }

  // ----- polynomials as power sums -----

  /** The exponents of the coefficients of a polynomial of length `n`, times x^s. */
  function Exponents(n: nat, s: nat): (es: seq<nat>)
    ensures |es| == n
  {
    seq(n, k requires 0 <= k < n => s + n - 1 - k)
  }

  lemma {:induction false} EvalPowerSum(p: Poly, s: nat, j: nat)
    ensures PowerSum(p, Exponents(|p|, s), j) == Mul(Eval(p, Exp(j)), PowerOf(s, j))
  {
    hide Add, Mul, Exp, PowerOf;
    if p == [] {
      MulZero(PowerOf(s, j));
    } else {
      var n := |p| - 1;
      EvalPowerSum(p[..n], s + 1, j);
      assert Exponents(|p|, s)[..n] == Exponents(n, s + 1);
      HornerStep(Eval(p[..n], Exp(j)), p[n], s, j);
    }
  }

  lemma HornerStep(v: bv8, c: bv8, s: nat, j: nat)
    ensures Mul(Add(Mul(v, Exp(j)), c), PowerOf(s, j)) == Add(Mul(v, PowerOf(s + 1, j)), Mul(c, PowerOf(s, j)))
  {
    hide *;
    DistributesLeft(Mul(v, Exp(j)), c, PowerOf(s, j));
    MulAssoc(v, Exp(j), PowerOf(s, j));
    NextExponent(s, j);
  }

  lemma NextExponent(s: nat, j: nat)
    ensures PowerOf(s + 1, j) == Mul(Exp(j), PowerOf(s, j))
  {
    hide Exp, Mul;
    assert (s + 1) * j == j + s * j;
    ExpAdd(j, s * j);
  }

  lemma NoExponent(j: nat)
    ensures PowerOf(0, j) == 1
  {
    assert 0 * j == 0;
    ExpZero();
  }

  lemma EvalIsPowerSum(p: Poly, j: nat)
    ensures PowerSum(p, Exponents(|p|, 0), j) == Eval(p, Exp(j))
  {
    hide *;
    EvalPowerSum(p, 0, j);
    NoExponent(j);
    MulOne(Eval(p, Exp(j)));
  }

  lemma {:induction false} DropZeroTerm(cs: Poly, es: seq<nat>, m: nat, j: nat)
    requires |cs| == |es| && m < |cs| && cs[m] == 0
    ensures PowerSum(cs[..m] + cs[m + 1..], es[..m] + es[m + 1..], j) == PowerSum(cs, es, j)
  {
    hide Add, Mul, Exp, PowerOf;
    var n := |cs| - 1;
    var cs', es' := cs[..m] + cs[m + 1..], es[..m] + es[m + 1..];
    if m == n {
      assert cs' == cs[..n] && es' == es[..n];
      MulZero(PowerOf(es[n], j));
      AddZero(PowerSum(cs[..n], es[..n], j));
    } else {
      DropZeroTerm(cs[..n], es[..n], m, j);
      assert cs'[..n - 1] == cs[..n][..m] + cs[..n][m + 1..];
      assert es'[..n - 1] == es[..n][..m] + es[..n][m + 1..];
      assert cs'[n - 1] == cs[n] && es'[n - 1] == es[n];
    }
  }

  /**
   * Up to length 254 a generator has no zero coefficient, so nothing in the encoder ever takes the logarithm of zero.
   */
  lemma GeneratorNoZero(n: nat)
    requires n <= 254
    ensures NoZero(Generator(n))
  {
    hide Add, Mul, Exp, Generator, PowerSum;
    var g, es := Generator(n), Exponents(n + 1, 0);
    GeneratorMonic(n);
    forall m | 0 <= m < |g|
      ensures g[m] != 0
    {
      if g[m] == 0 {
        var cs', es' := g[..m] + g[m + 1..], es[..m] + es[m + 1..];
        forall j: nat | j < n
          ensures PowerSum(cs', es', j) == 0
        {
          DropZeroTerm(g, es, m, j);
          EvalIsPowerSum(g, j);
          GeneratorRoot(n, j);
        }
        assert m != 0 && cs'[0] == 1;
        AllVanish(cs', es');
        assert false;
      }
    }
  }

  lemma {:induction false} EvalMonomial(n: nat, j: nat)
    ensures Eval([1] + Zeros(n), Exp(j)) == Exp(n * j)
  {
    hide Add, Mul, Exp;
    if n == 0 {
      assert [1] + Zeros(0) == [1];
      assert [1][..0] == [];
      assert Eval([1], Exp(j)) == Add(Mul(0, Exp(j)), 1);
      MulZero(Exp(j));
      AddZero(1);
      ExpZero();
    } else {
      EvalMonomial(n - 1, j);
      assert [1] + Zeros(n) == ([1] + Zeros(n - 1)) + [0];
      EvalSnoc([1] + Zeros(n - 1), 0, Exp(j));
      ExpAdd((n - 1) * j, j);
      assert (n - 1) * j + j == n * j;
      AddZero(Exp(n * j));
    }
  }

  lemma RootOfUnity(j: nat)
    ensures Eval([1] + Zeros(254) + [1], Exp(j)) == 0
  {
    hide Add, Mul, Exp, Eval;
    EvalSnoc([1] + Zeros(254), 1, Exp(j));
    EvalMonomial(254, j);
    ExpAdd(254 * j, j);
    Exp255();
    ExpMultiple(255, j);
    assert 254 * j + j == 255 * j;
    AddZero(1);
  }

  /** The generator of length 255 is x^255 + 1. */
  lemma Generator255()
    ensures Generator(255) == [1] + Zeros(254) + [1]
  {
    hide Add, Mul, Exp, Generator, PowerSum, Eval;
    var g, h := Generator(255), [1] + Zeros(254) + [1];
    var d := Sum(g, h);
    GeneratorMonic(255);
    AddZero(1);
    var d' := d[1..];
    assert d == Zeros(1) + d';
    var es := Exponents(255, 0);
    forall j: nat | j < 255
      ensures PowerSum(d', es, j) == 0
    {
      EvalIsPowerSum(d', j);
      EvalPadded(1, d', Exp(j));
      EvalSum(g, h, Exp(j));
      GeneratorRoot(255, j);
      RootOfUnity(j);
      AddZero(0);
    }
    AllVanish(d', es);
    forall k | 0 <= k < 256
      ensures g[k] == h[k]
    {
      assert d[k] == Add(g[k], h[k]);
      assert k > 0 ==> d[k] == d'[k - 1];
      AddCancel(g[k], h[k]);
    }
  }

  /** `num` holds the generator of length `i`. */
  ghost predicate IsGenerator(num: seq<Cell>, i: nat) {
    NoHole(num) && Vals(num) == Generator(i)
  }

  function Unit(): seq<Cell> {
    [Num(1)]
  }

  /** x + c. */
  function Factor(c: Cell): seq<Cell> {
    [Num(1), c]
  }

  /**
   * Building a generator succeeds exactly up to length 255; the one of length 255 has zero coefficients, so no further
   * factor can be multiplied in.
   */
  method GetErrorCorrectPolynomial(math: QRMath, errorCorrectLength: int) returns (r: Result<QRPolynomial>)
    requires math.Valid()
    ensures r.Ok? <==> errorCorrectLength <= 255
    ensures r.Ok? ==> IsGenerator(r.value.num, if errorCorrectLength < 0 then 0 else errorCorrectLength)
  {
    hide *;
    var a := Construct(Unit(), 0);
    GeneratorZero(a.num);
    var i := 0;
    while i < errorCorrectLength
      invariant 0 <= i <= 255 && i <= (if errorCorrectLength < 0 then 0 else errorCorrectLength)
      invariant IsGenerator(a.num, i)
    {
      var c := math.Gexp(Some(i));
      var factor := Construct(Factor(c), 0);
      GeneratorStep(a.num, factor.num, i);
      var product := Multiply(math, a, factor);
      if product.Throw? {
        return Throw(product.error);
      }
      GeneratorNext(a.num, factor.num, product.value.num, i);
      a := product.value;
      i := i + 1;
    }
    return Ok(a);
  }

  lemma GeneratorZero(num: seq<Cell>)
    requires num == Strip(Unit()) + seq(0, _ => Hole)
    ensures IsGenerator(num, 0)
  {
  }

  lemma GeneratorStep(a: seq<Cell>, factor: seq<Cell>, i: nat)
    requires i <= 255 && IsGenerator(a, i)
    requires factor == Strip(Factor(Num(ExpZ(i)))) + seq(0, _ => Hole)
    ensures HasZero(a) || HasZero(factor) <==> i == 255
    ensures i < 255 ==> Vals(factor) == [1, Exp(i)]
    ensures a != [] && factor != []
  {
    hide Exp, ExpZ, Generator;
    assert factor == [Num(1), Num(ExpZ(i))];
    if i < 255 {
      GeneratorNoZero(i);
      ExpZSmall(i);
      ExpNonZero(i);
      forall k | 0 <= k < |a|
        ensures a[k] != Num(0)
      {
        assert Vals(a)[k] == Generator(i)[k] != 0;
      }
    } else {
      Generator255();
      assert Vals(a)[1] == 0;
      assert a[1] == Num(0);
    }
  }

  lemma PaddedFirst(z: nat, p: Poly)
    ensures z > 0 ==> (Zeros(z) + p)[0] == 0
  {
  }

  lemma GeneratorNext(a: seq<Cell>, factor: seq<Cell>, num: seq<Cell>, i: nat)
    requires IsGenerator(a, i) && factor != [] && Vals(factor) == [1, Exp(i)]
    requires |num| <= |a| + |factor| - 1 && NoHole(num)
    requires Zeros(|a| + |factor| - 1 - |num|) + Vals(num) == Times(Vals(a), Vals(factor))
    ensures IsGenerator(num, i + 1)
  {
    hide Exp, Times, Add, Mul;
    GeneratorMonic(i + 1);
    var z := |a| + |factor| - 1 - |num|;
    assert |a| == i + 1;
    PaddedFirst(z, Vals(num));
    assert Zeros(0) + Vals(num) == Vals(num);
  }

  // ----- codewords -----

  /** `word` is a multiple of the polynomial `g` of length n + 1. */
  ghost predicate MultipleOf(word: Poly, g: Poly, n: nat)
    requires g != []
  {
    exists q :: |q| + n == |word| && word == Times(q, g)
  }

  /** `word` is a multiple of the generator with `n` roots. */
  ghost predicate Codeword(word: Poly, n: nat) {
    MultipleOf(word, Generator(n), n)
  }

  /** A codeword vanishes at the first `n` powers of alpha. */
  lemma CodewordVanishes(word: Poly, n: nat, i: nat)
    requires Codeword(word, n) && i < n
    ensures Eval(word, Exp(i)) == 0
  {
    hide Times, Generator, Eval, Exp, Mul;
    var q :| |q| + n == |word| && word == Times(q, Generator(n));
    EvalTimes(q, Generator(n), Exp(i));
    GeneratorRoot(n, i);
    MulZero(Eval(q, Exp(i)));
  }

  /** The check bytes of a codeword are determined by its data bytes. */
  lemma CheckBytesUnique(data: Poly, ec: Poly, ec': Poly, n: nat)
    requires n <= 255 && |ec| == |ec'| == n
    requires Codeword(data + ec, n) && Codeword(data + ec', n)
    ensures ec == ec'
  {
    hide Codeword, PowerSum, Eval, Exp, Add;
    var d, es := Sum(ec, ec'), Exponents(n, 0);
    forall j: nat | j < n
      ensures PowerSum(d, es, j) == 0
    {
      CodewordVanishes(data + ec, n, j);
      CodewordVanishes(data + ec', n, j);
      EvalSum(data + ec, data + ec', Exp(j));
      AddZero(0);
      SumZeros(data);
      assert Sum(data + ec, data + ec') == Zeros(|data|) + d by {
        SumConcat(data, data, ec, ec');
      }
      EvalPadded(|data|, d, Exp(j));
      EvalIsPowerSum(d, j);
    }
    AllVanish(d, es);
    forall k | 0 <= k < n
      ensures ec[k] == ec'[k]
    {
      assert d[k] == Add(ec[k], ec'[k]);
      AddCancel(ec[k], ec'[k]);
    }
  }

  // ----- minimum distance -----

  /** How many coefficients are not zero. */
  function NonZeros(cs: Poly): nat {
    if cs == [] then 0
    else NonZeros(cs[..|cs| - 1]) + if cs[|cs| - 1] != 0 then 1 else 0
  }

  lemma {:induction false} NonZerosConcat(a: Poly, b: Poly)
    ensures NonZeros(a + b) == NonZeros(a) + NonZeros(b)
  {
    if b == [] {
      assert a + b == a;
    } else {
      var n := |b| - 1;
      NonZerosConcat(a, b[..n]);
      assert (a + b)[..|a| + n] == a + b[..n];
    }
  }

  lemma {:induction false} AllNonZero(cs: Poly)
    requires forall k :: 0 <= k < |cs| ==> cs[k] != 0
    ensures NonZeros(cs) == |cs|
  {
    if cs != [] {
      AllNonZero(cs[..|cs| - 1]);
    }
  }

  lemma DropZero(cs: Poly, m: nat)
    requires m < |cs| && cs[m] == 0
    ensures NonZeros(cs[..m] + cs[m + 1..]) == NonZeros(cs)
  {
    hide NonZeros;
    assert cs == cs[..m] + [0] + cs[m + 1..];
    NonZerosConcat(cs[..m] + [0], cs[m + 1..]);
    NonZerosConcat(cs[..m], [0]);
    NonZerosConcat(cs[..m], cs[m + 1..]);
    OneZero();
  }

  lemma OneZero()
    ensures NonZeros([0]) == 0
  {
  }

  lemma DropDistinct(es: seq<nat>, m: nat)
    requires m < |es| && Distinct(es)
    ensures Distinct(es[..m] + es[m + 1..])
  {
  }

  /**
   * However many terms there are: if at most n of them are not zero and n consecutive power sums vanish, all are zero.
   */
  lemma {:induction false} FewTermsVanish(cs: Poly, es: seq<nat>, n: nat)
    requires |cs| == |es| && Distinct(es) && NonZeros(cs) <= n
    requires forall j: nat :: j < n ==> PowerSum(cs, es, j) == 0
    ensures forall k :: 0 <= k < |cs| ==> cs[k] == 0
    decreases |cs|
  {
    hide PowerSum, NonZeros, Distinct;
    if m :| 0 <= m < |cs| && cs[m] == 0 {
      var cs', es' := cs[..m] + cs[m + 1..], es[..m] + es[m + 1..];
      DropZero(cs, m);
      DropDistinct(es, m);
      forall j: nat | j < n
        ensures PowerSum(cs', es', j) == 0
      {
        DropZeroTerm(cs, es, m, j);
      }
      FewTermsVanish(cs', es', n);
      forall k | 0 <= k < |cs|
        ensures cs[k] == 0
      {
        assert k < m ==> cs[k] == cs'[k];
        assert k > m ==> cs[k] == cs'[k - 1];
      }
    } else {
      AllNonZero(cs);
      AllVanish(cs, es);
    }
  }

  /** The places in which two words differ. */
  function Differing(a: Poly, b: Poly): set<int>
    requires |a| == |b|
  {
    set k | 0 <= k < |a| && a[k] != b[k]
  }

  lemma {:induction false} CountDiffering(a: Poly, b: Poly)
    requires |a| == |b|
    ensures NonZeros(Sum(a, b)) == |Differing(a, b)|
  {
    hide Add;
    if a == [] {
      assert Differing(a, b) == {};
    } else {
      var n := |a| - 1;
      CountDiffering(a[..n], b[..n]);
      assert Sum(a, b)[..n] == Sum(a[..n], b[..n]);
      AddCancel(a[n], b[n]);
      AddZero(a[n]);
      assert Differing(a, b) == Differing(a[..n], b[..n]) + if a[n] != b[n] then {n} else {};
    }
  }

  lemma SumVanishes(a: Poly, b: Poly, n: nat, j: nat)
    requires |a| == |b| && Codeword(a, n) && Codeword(b, n) && j < n
    ensures PowerSum(Sum(a, b), Exponents(|a|, 0), j) == 0
  {
    hide *;
    CodewordVanishes(a, n, j);
    CodewordVanishes(b, n, j);
    EvalSum(a, b, Exp(j));
    EvalIsPowerSum(Sum(a, b), j);
    AddZero(0);
    SumLength(a, b);
  }

  lemma SumLength(a: Poly, b: Poly)
    requires |a| == |b|
    ensures |Sum(a, b)| == |a|
  {
  }

  /** Two codewords of the same length, at most 255, that differ in at most n places are equal. */
  lemma MinimumDistance(a: Poly, b: Poly, n: nat)
    requires |a| == |b| <= 255 && Codeword(a, n) && Codeword(b, n)
    requires |Differing(a, b)| <= n
    ensures a == b
  {
    hide Codeword, PowerSum, NonZeros, Differing, Add;
    var d, es := Sum(a, b), Exponents(|a|, 0);
    forall j: nat | j < n
      ensures PowerSum(d, es, j) == 0
    {
      SumVanishes(a, b, n, j);
    }
    CountDiffering(a, b);
    FewTermsVanish(d, es, n);
    forall k | 0 <= k < |a|
      ensures a[k] == b[k]
    {
      assert d[k] == Add(a[k], b[k]);
      AddCancel(a[k], b[k]);
    }
  }

  /** Up to n/2 damaged bytes of a block are correctable: only one codeword is that close to what was received. */
  lemma Correctable(word: Poly, a: Poly, b: Poly, n: nat)
    requires |word| == |a| == |b| <= 255 && Codeword(a, n) && Codeword(b, n)
    requires 2 * |Differing(word, a)| <= n && 2 * |Differing(word, b)| <= n
    ensures a == b
  {
    hide Codeword;
    var union := Differing(word, a) + Differing(word, b);
    assert Differing(a, b) <= union;
    SubsetSize(Differing(a, b), union);
    assert |union| <= |Differing(word, a)| + |Differing(word, b)|;
    MinimumDistance(a, b, n);
  }

  lemma SubsetSize(a: set<int>, b: set<int>)
    requires a <= b
    ensures |a| <= |b|
  {
    assert b == a + (b - a);
  }

  lemma SumConcat(a: Poly, a': Poly, b: Poly, b': Poly)
    requires |a| == |a'| && |b| == |b'|
    ensures Sum(a + b, a' + b') == Sum(a, a') + Sum(b, b')
  {
  }

  /** From the remainder of data * x^n to a multiple. */
  lemma RemainderGivesMultiple(data: Poly, s: Poly, n: nat, r: Poly, g: Poly)
    requires |s| <= |data| && data == Zeros(|data| - |s|) + s && |g| == n + 1
    requires Remainder(s + Zeros(n), g, r)
    ensures MultipleOf(data + (Zeros(n - |r|) + r), g, n)
  {
    hide Times, Sum;
    var z, a := |data| - |s|, s + Zeros(n);
    var ec := Zeros(n - |r|) + r;
    if s == [] {
      assert a == Zeros(n) && ec == Zeros(n);
      TimesPadded(z, [], g);
      TimesNil(g);
      var q := Zeros(z) + [];
      assert data + ec == Times(q, g);
      assert |q| + n == |data + ec|;
    } else {
      var q' :| Quotient(a, g, q', r);
      var pad := Zeros(|a| - |r|) + r;
      SumAssoc(Times(q', g), pad, pad);
      SumZeros(pad);
      SumZeros(Times(q', g));
      assert Sum(a, pad) == Times(q', g);
      assert pad == Zeros(|s|) + ec;
      SumConcat(s, Zeros(|s|), Zeros(n), ec);
      SumZeros(s);
      SumZeros(ec);
      assert Times(q', g) == s + ec;
      TimesPadded(z, q', g);
      var q := Zeros(z) + q';
      assert data + ec == Times(q, g);
      assert |q| + n == |data + ec|;
    }
  }

  /**
   * A block makes the encoder throw exactly when it needs more than 255 check bytes, or exactly 255 for data that is
   * not all zero.
   */
  ghost predicate BlockThrows(data: Poly, n: int) {
    n > 255 || (n == 255 && data != Zeros(|data|))
  }

  lemma StripNums(dcdata: seq<Cell>)
    requires NoHole(dcdata)
    ensures |Strip(dcdata)| <= |dcdata| && NoHole(Strip(dcdata)) && Leads(Strip(dcdata))
    ensures Vals(dcdata) == Zeros(|dcdata| - |Strip(dcdata)|) + Vals(Strip(dcdata))
    ensures Strip(dcdata) == [] <==> Vals(dcdata) == Zeros(|dcdata|)
  {
    hide Strip, Vals, Zeros, IsZero;
    StripVals(dcdata);
    StripLeads(dcdata);
    var s := Strip(dcdata);
    if s != [] {
      LeadNotZero(s);
      LeadInside(|dcdata|, |dcdata| - |s|, Vals(s));
      assert |Vals(s)| == |s| by { ValsLength(s); }
    } else {
      NothingAfter(|dcdata|);
    }
  }

  lemma ValsLength(s: seq<Cell>)
    ensures |Vals(s)| == |s|
  {
  }

  lemma LeadNotZero(s: seq<Cell>)
    requires s != [] && Leads(s) && NoHole(s)
    ensures |Vals(s)| == |s| && Vals(s)[0] != 0
  {
  }

  lemma LeadInside(n: nat, z: nat, p: Poly)
    requires p != [] && p[0] != 0 && z < n
    ensures Zeros(z) + p != Zeros(n)
  {
    assert (Zeros(z) + p)[z] == p[0];
  }

  lemma NothingAfter(n: nat)
    ensures Zeros(n) + Vals([]) == Zeros(n)
  {
  }

  /**
   * The check bytes of one block, as `createBytes` computes them: entries past the remainder stay holes or become zero.
   */
  method CheckBytes(math: QRMath, dcdata: seq<Cell>, ecCount: int) returns (r: Result<seq<Cell>>)
    requires math.Valid() && NoHole(dcdata)
    ensures r.Throw? <==> BlockThrows(Vals(dcdata), ecCount)
    ensures r.Ok? ==> |r.value| == if ecCount < 0 then 0 else ecCount
    ensures r.Ok? ==> Codeword(Vals(dcdata) + Vals(r.value), |r.value|)
  {
    hide *;
    var rsPoly := GetErrorCorrectPolynomial(math, ecCount);
    if rsPoly.Throw? {
      TooLong(Vals(dcdata), ecCount);
      return Throw(rsPoly.error);
    }
    var n := |rsPoly.value.num| - 1;
    RsPolyFacts(rsPoly.value.num, if ecCount < 0 then 0 else ecCount);
    var rawPoly := Construct(dcdata, n);
    RawPolyFacts(dcdata, n, rawPoly.num);
    ShortEnough(Vals(dcdata), ecCount);
    var modPoly := Mod(math, rawPoly, rsPoly.value);
    if modPoly.Throw? {
      return Throw(modPoly.error);
    }
    var num := modPoly.value.num;
    ModPolyFacts(Vals(rawPoly.num), Vals(rsPoly.value.num), num);
    var ecdata := new Cell[n](_ => Hole);
    for i := 0 to n
      invariant forall k :: 0 <= k < i ==> ecdata[k] == if k + |num| - n >= 0 then num[k + |num| - n] else Num(0)
    {
      var modIndex := i + |num| - n;
      ecdata[i] := if modIndex >= 0 then num[modIndex] else Num(0);
    }
    GeneratorLead(n);
    ValsOfGenerator(rsPoly.value.num, n);
    CheckBytesDone(dcdata, n, num, ecdata[..], Generator(n));
    MultipleIsCodeword(Vals(dcdata) + Vals(ecdata[..]), n);
    return Ok(ecdata[..]);
  }

  lemma TooLong(data: Poly, n: int)
    ensures n > 255 ==> BlockThrows(data, n)
  {
  }

  lemma ShortEnough(data: Poly, n: int)
    ensures n <= 255 ==> (BlockThrows(data, n) <==> n == 255 && data != Zeros(|data|))
  {
  }

  lemma GeneratorLead(n: nat)
    ensures |Generator(n)| == n + 1 && Generator(n)[0] != 0
  {
    GeneratorMonic(n);
  }

  lemma NoZeroCells(num: seq<Cell>, g: Poly)
    requires NoHole(num) && Vals(num) == g && g != [] && NoZero(g)
    ensures |num| == |g| && !HasZero(num) && Leads(num) && num[0].Num?
  {
    forall k | 0 <= k < |num|
      ensures !IsZero(num[k])
    {
      assert Vals(num)[k] == g[k] != 0;
    }
  }

  lemma ZeroCell(num: seq<Cell>, g: Poly, k: nat)
    requires NoHole(num) && Vals(num) == g && k < |g| && g[k] == 0 && g[0] != 0
    ensures |num| == |g| && HasZero(num) && Leads(num) && num[0].Num?
  {
    assert Vals(num)[k] == 0 && Vals(num)[0] != 0;
    assert IsZero(num[k]);
  }

  lemma ZeroInside()
    ensures |Generator(255)| == 256 && Generator(255)[1] == 0
  {
    hide Generator;
    Generator255();
  }

  /** The generator has a zero coefficient only at length 255. */
  lemma RsPolyFacts(num: seq<Cell>, n: nat)
    requires n <= 255 && IsGenerator(num, n)
    ensures |num| == n + 1 && (HasZero(num) <==> n == 255) && Leads(num) && num[0].Num?
  {
    hide Generator, HasZero, Leads, Vals, NoHole, NoZero;
    GeneratorLead(n);
    if n < 255 {
      GeneratorNoZero(n);
      NoZeroCells(num, Generator(n));
    } else {
      ZeroInside();
      ZeroCell(num, Generator(255), 1);
    }
  }

  lemma RawPolyFacts(dcdata: seq<Cell>, n: nat, raw: seq<Cell>)
    requires NoHole(dcdata) && raw == Strip(dcdata) + seq(n, _ => Hole)
    ensures Leads(raw)
    ensures |raw| >= n + 1 <==> Vals(dcdata) != Zeros(|dcdata|)
    ensures Vals(raw) == Vals(Strip(dcdata)) + Zeros(n)
    ensures |Strip(dcdata)| <= |dcdata|
    ensures Vals(dcdata) == Zeros(|dcdata| - |Strip(dcdata)|) + Vals(Strip(dcdata))
  {
    hide Strip, Vals, Zeros;
    StripNums(dcdata);
    ValsOfShifted(Strip(dcdata), n);
    ShiftedLeads(Strip(dcdata), n);
  }

  lemma ValsOfShifted(s: seq<Cell>, n: nat)
    ensures Vals(s + seq(n, _ => Hole)) == Vals(s) + Zeros(n)
  {
    hide Strip;
  }

  lemma ShiftedLeads(s: seq<Cell>, n: nat)
    requires Leads(s)
    ensures Leads(s + seq(n, _ => Hole))
  {
  }

  lemma ModPolyFacts(a: Poly, e: Poly, num: seq<Cell>)
    requires Remainder(a, e, Vals(num))
    ensures |num| < |e|
  {
  }

  lemma CheckBytesDone(dcdata: seq<Cell>, n: nat, num: seq<Cell>, ecdata: seq<Cell>, g: Poly)
    requires NoHole(dcdata) && |num| <= n == |ecdata| && |g| == n + 1
    requires forall k :: 0 <= k < n ==> ecdata[k] == if k + |num| - n >= 0 then num[k + |num| - n] else Num(0)
    requires Remainder(Vals(Strip(dcdata)) + Zeros(n), g, Vals(num))
    ensures MultipleOf(Vals(dcdata) + Vals(ecdata), g, n)
  {
    hide Remainder, MultipleOf, Strip, Vals, Zeros;
    StripNums(dcdata);
    RemainderLength(Vals(Strip(dcdata)) + Zeros(n), g, Vals(num));
    CheckVals(n, num, ecdata);
    LengthsOfVals(dcdata);
    RemainderGivesMultiple(Vals(dcdata), Vals(Strip(dcdata)), n, Vals(num), g);
  }

  lemma MultipleIsCodeword(word: Poly, n: nat)
    requires |Generator(n)| == n + 1 && MultipleOf(word, Generator(n), n)
    ensures Codeword(word, n)
  {
  }

  lemma ValsOfGenerator(num: seq<Cell>, n: nat)
    requires IsGenerator(num, n)
    ensures Vals(num) == Generator(n)
  {
  }

  lemma LengthsOfVals(num: seq<Cell>)
    ensures |Vals(num)| == |num| && |Vals(Strip(num))| == |Strip(num)|
  {
    hide Strip;
  }

  lemma RemainderLength(a: Poly, e: Poly, r: Poly)
    requires Remainder(a, e, r)
    ensures |r| < |e|
  {
  }

  lemma CheckVals(n: nat, num: seq<Cell>, ecdata: seq<Cell>)
    requires |num| <= n == |ecdata|
    requires forall k :: 0 <= k < n ==> ecdata[k] == if k + |num| - n >= 0 then num[k + |num| - n] else Num(0)
    ensures |Vals(ecdata)| == n && |Vals(num)| == |num| && Vals(ecdata) == Zeros(n - |num|) + Vals(num)
  {
    forall k | 0 <= k < n
      ensures Vals(ecdata)[k] == (Zeros(n - |num|) + Vals(num))[k]
    {
    }
  }
}
