/**
 The encoder's polynomials. The object never changes once it is built, so it is
 a value; the loops that build, multiply and divide polynomials are methods.
 */
module QRPolynomial {
  import opened Gf256
  import opened JsValues
  import opened Polynomials
  import opened QRMath

  datatype QRPolynomial = QRPolynomial(num: seq<Cell>)

  predicate IsZero(c: Cell) {
    c == Num(0)
  }

  ghost predicate HasZero(num: seq<Cell>) {
    exists k :: 0 <= k < |num| && IsZero(num[k])
  }

  ghost predicate NoHole(num: seq<Cell>) {
    forall k :: 0 <= k < |num| ==> num[k].Num?
  }

  /** What the constructor keeps: everything from the first entry that is not the number zero. */
  ghost function Strip(num: seq<Cell>): (r: seq<Cell>)
    ensures |r| <= |num| && r == num[|num| - |r|..]
    ensures forall k :: 0 <= k < |num| - |r| ==> IsZero(num[k])
    ensures r != [] ==> !IsZero(r[0])
  {
    if num != [] && num[0] == Num(0) then Strip(num[1..]) else num
  }

  lemma StripVals(num: seq<Cell>)
    ensures |Strip(num)| <= |num| && Vals(num) == Zeros(|num| - |Strip(num)|) + Vals(Strip(num))
  {
    hide Strip, IsZero, Zeros, Vals;
    StripIs(num);
    var n := |num| - |Strip(num)|;
    ZeroVals(num[..n]);
    ValsConcat(num[..n], Strip(num));
    assert num == num[..n] + Strip(num);
  }

  lemma ValsConcat(a: seq<Cell>, b: seq<Cell>)
    ensures Vals(a + b) == Vals(a) + Vals(b)
  {
    hide Val;
  }

  lemma ZeroVals(num: seq<Cell>)
    requires forall k :: 0 <= k < |num| ==> IsZero(num[k])
    ensures Vals(num) == Zeros(|num|)
  {
  }

  lemma StripNext(num: seq<Cell>, offset: nat)
    requires offset <= |num|
    ensures Strip(num[offset..])
            == if offset < |num| && IsZero(num[offset]) then Strip(num[offset + 1..]) else num[offset..]
  {
    if offset < |num| {
      assert num[offset..][1..] == num[offset + 1..];
    }
  }

  /** The constructor's first loop. */
  method Lead(num: seq<Cell>) returns (offset: nat)
    ensures offset <= |num| && num[offset..] == Strip(num)
  {
    hide Strip, IsZero;
    offset := 0;
    assert num[0..] == num;
    while offset < |num| && IsZero(num[offset])
      invariant offset <= |num|
      invariant Strip(num) == Strip(num[offset..])
    {
      StripNext(num, offset);
      offset := offset + 1;
    }
    StripNext(num, offset);
  }

  /** The constructor's second loop. */
  method Copy(num: seq<Cell>, offset: nat, shift: nat) returns (result: array<Cell>)
    requires offset <= |num|
    ensures result.Length == |num| - offset + shift
    ensures forall k {:trigger result[k]} :: 0 <= k < |num| - offset ==> result[k] == num[k + offset]
    ensures forall k {:trigger result[k]} :: |num| - offset <= k < result.Length ==> result[k] == Hole
  {
    result := new Cell[|num| - offset + shift](_ => Hole);
    for i := 0 to |num| - offset
      invariant forall k {:trigger result[k]} :: 0 <= k < i ==> result[k] == num[k + offset]
      invariant forall k {:trigger result[k]} :: i <= k < result.Length ==> result[k] == Hole
    {
      result[i] := num[i + offset];
    }
  }

  /** Drops leading zeros, then appends `shift` unassigned entries. */
  method Construct(num: seq<Cell>, shift: nat) returns (p: QRPolynomial)
    ensures p.num == Strip(num) + seq(shift, _ => Hole)
  {
    hide Strip;
    var offset := Lead(num);
    var result := Copy(num, offset, shift);
    Shifted(num, offset, shift, result[..]);
    return QRPolynomial(result[..]);
  }

  lemma Shifted(num: seq<Cell>, offset: nat, shift: nat, result: seq<Cell>)
    requires offset <= |num| && |result| == |num| - offset + shift
    requires forall k {:trigger result[k]} :: 0 <= k < |num| - offset ==> result[k] == num[k + offset]
    requires forall k {:trigger result[k]} :: |num| - offset <= k < |result| ==> result[k] == Hole
    ensures result == num[offset..] + seq(shift, _ => Hole)
  {
  }

  /** `l` is what glog returns for an entry of value `b`. */
  ghost predicate IsLog(l: Option<int>, b: bv8) {
    if l.None? then b == 0 else ExpZ(l.value) == b
  }

  /** gexp(glog(a) + l): the product of `a` with the number whose logarithm is `l`. */
  method Product(math: QRMath, a: Cell, l: Option<int>, ghost b: bv8) returns (r: Result<Cell>)
    requires math.Valid() && IsLog(l, b)
    ensures r.Throw? <==> a == Num(0)
    ensures r.Ok? ==> Val(r.value) == Mul(Val(a), b)
  {
    hide Mul, Exp;
    var k := math.Glog(a);
    if k.Throw? {
      return Throw(k.error);
    }
    if k.value.None? || l.None? {
      MulZero(b);
      MulZero(Val(a));
      return Ok(Hole);
    }
    var c := math.Gexp(Some(k.value.value + l.value));
    ExpZAdd(k.value.value, l.value);
    return Ok(c);
  }

  /** `a ^= b` on array entries: a hole counts as zero and the result is always a number. */
  function Xor(a: Cell, b: Cell): (c: Cell)
    ensures c.Num?
  {
    Num(Add(Val(a), Val(b)))
  }

  lemma ProdAtOutside(p: Poly, q: Poly, i: nat, k: int)
    requires i < |p| && (k < i || k >= i + |q|)
    ensures ProdAt(p, q, i + 1, k) == ProdAt(p, q, i, k)
  {
    hide Add, Mul;
    MulZero(p[i]);
    AddZero(ProdAt(p, q, i, k));
  }

  /** `after` is `before` with `a` times the polynomial `e` added at position `i`. */
  ghost predicate RowAdded(before: seq<Cell>, after: seq<Cell>, i: nat, a: Cell, e: seq<Cell>) {
    && |before| == |after| && i + |e| <= |after|
    && forall k :: 0 <= k < |after| ==>
      after[k] == if i <= k < i + |e| then Num(Add(Val(before[k]), Mul(Val(a), Val(e[k - i])))) else before[k]
  }

  /** `num` holds the sum of the first `i` rows of the product. */
  ghost predicate Rows(p: Poly, q: Poly, i: nat, num: seq<Cell>) {
    && i <= |p|
    && (forall k :: 0 <= k < |num| ==> Val(num[k]) == ProdAt(p, q, i, k))
    && (i > 0 ==> forall k :: 0 <= k < |num| && k < i + |q| - 1 ==> num[k].Num?)
  }

  lemma RowsNext(p: seq<Cell>, q: seq<Cell>, i: nat, before: seq<Cell>, after: seq<Cell>)
    requires q != [] && i < |p| && Rows(Vals(p), Vals(q), i, before) && RowAdded(before, after, i, p[i], q)
    ensures Rows(Vals(p), Vals(q), i + 1, after)
  {
    hide Add, Mul;
    forall k | 0 <= k < |after|
      ensures Val(after[k]) == ProdAt(Vals(p), Vals(q), i + 1, k)
    {
      if !(i <= k < i + |q|) {
        ProdAtOutside(Vals(p), Vals(q), i, k);
      }
    }
  }

  lemma RowsStart(p: Poly, q: Poly, num: seq<Cell>)
    requires forall k :: 0 <= k < |num| ==> num[k] == Hole
    ensures Rows(p, q, 0, num)
  {
  }

  lemma ZeroNext(num: seq<Cell>, i: nat)
    requires i < |num|
    ensures HasZero(num[..i + 1]) <==> HasZero(num[..i]) || num[i] == Num(0)
  {
    if HasZero(num[..i]) {
      var k :| 0 <= k < i && num[..i][k] == Num(0);
      assert num[..i + 1][k] == Num(0);
    }
    assert num[..i + 1][i] == num[i];
  }

  /** The inner loop of `multiply`: adds `a` times the polynomial `e` into the result at position `i`. */
  method AddRow(math: QRMath, num: array<Cell>, i: nat, a: Cell, e: seq<Cell>) returns (r: Result<()>)
    requires math.Valid() && num as object != math.EXP_TABLE as object && num as object != math.LOG_TABLE as object
    requires i + |e| <= num.Length
    modifies num
    ensures r.Throw? <==> e != [] && (a == Num(0) || HasZero(e))
    ensures r.Ok? ==> RowAdded(old(num[..]), num[..], i, a, e)
  {
    hide Add, Mul, Exp;
    for j := 0 to |e|
      invariant forall k :: 0 <= k < num.Length ==>
        num[k] == if i <= k < i + j then Num(Add(Val(old(num[k])), Mul(Val(a), Val(e[k - i])))) else old(num[k])
      invariant math.Valid()
      invariant j > 0 ==> a != Num(0)
      invariant forall k :: 0 <= k < j ==> e[k] != Num(0)
    {
      var l := math.Glog(a);
      if l.Throw? {
        return Throw(l.error);
      }
      var t := Product(math, e[j], l.value, Val(a));
      if t.Throw? {
        return Throw(t.error);
      }
      MulComm(Val(e[j]), Val(a));
      num[i + j] := Xor(num[i + j], t.value);
    }
    return Ok(());
  }

  /**
   * Multiplication throws exactly when a coefficient is zero; otherwise it is the ring product, with leading zeros
   * dropped.
   */
  method Multiply(math: QRMath, self: QRPolynomial, e: QRPolynomial) returns (r: Result<QRPolynomial>)
    requires math.Valid()
    ensures r.Throw? <==>
            if e.num == [] then self.num == [] else self.num != [] && (HasZero(self.num) || HasZero(e.num))
    ensures r.Ok? && e.num == [] ==> r.value.num == seq(|self.num| - 1, _ => Hole)
    ensures r.Ok? && e.num != [] ==> ProductOf(self.num, e.num, r.value.num)
  {
    if |self.num| + |e.num| - 1 < 0 {
      return Throw(NegativeArrayLength);
    }
    var num := new Cell[|self.num| + |e.num| - 1](_ => Hole);
    if |e.num| == 0 {
      HolesStay(num[..]);
      var holes := Construct(num[..], 0);
      return Ok(holes);
    }
    var rows := AddRows(math, num, self.num, e.num);
    if rows.Throw? {
      return Throw(rows.error);
    }
    var result := Construct(num[..], 0);
    MultiplyDone(self.num, e.num, num[..], result.num);
    return Ok(result);
  }

  /** The two loops of `multiply`. */
  method AddRows(math: QRMath, num: array<Cell>, self: seq<Cell>, e: seq<Cell>) returns (r: Result<()>)
    requires math.Valid() && num as object != math.EXP_TABLE as object && num as object != math.LOG_TABLE as object
    requires e != [] && num.Length == |self| + |e| - 1 && forall k :: 0 <= k < num.Length ==> num[k] == Hole
    modifies num
    ensures r.Throw? <==> self != [] && (HasZero(self) || HasZero(e))
    ensures r.Ok? ==> Rows(Vals(self), Vals(e), |self|, num[..])
  {
    hide Add, Mul, Exp, HasZero, Rows, RowAdded, ProdAt, Strip;
    ghost var p, q := Vals(self), Vals(e);
    RowsStart(p, q, num[..]);
    NoZeroYet(self);
    for i := 0 to |self|
      invariant math.Valid() && Rows(p, q, i, num[..])
      invariant !HasZero(self[..i])
      invariant i > 0 ==> !HasZero(e)
    {
      ghost var before := num[..];
      ZeroNext(self, i);
      ZeroAt(self, i);
      var row := AddRow(math, num, i, self[i], e);
      if row.Throw? {
        return Throw(row.error);
      }
      RowsNext(self, e, i, before, num[..]);
    }
    assert self[..|self|] == self;
    return Ok(());
  }

  /** `num` is the product of `p` and `q` without its leading zeros; it has no holes unless `p` is empty. */
  ghost predicate ProductOf(p: seq<Cell>, q: seq<Cell>, num: seq<Cell>)
    requires q != []
  {
    && |num| <= |p| + |q| - 1
    && Zeros(|p| + |q| - 1 - |num|) + Vals(num) == Times(Vals(p), Vals(q))
    && Leads(num) && (p != [] ==> NoHole(num))
  }

  lemma HolesStay(num: seq<Cell>)
    requires forall k :: 0 <= k < |num| ==> num[k] == Hole
    ensures Strip(num) + seq(0, _ => Hole) == seq(|num|, _ => Hole)
  {
  }

  lemma NoZeroYet(num: seq<Cell>)
    ensures !HasZero(num[..0])
  {
  }

  lemma ZeroAt(num: seq<Cell>, i: nat)
    requires i < |num|
    ensures num[i] == Num(0) ==> HasZero(num)
  {
  }

  lemma MultiplyDone(p: seq<Cell>, q: seq<Cell>, num: seq<Cell>, result: seq<Cell>)
    requires q != [] && |num| == |p| + |q| - 1 && Rows(Vals(p), Vals(q), |p|, num)
    requires result == Strip(num) + seq(0, _ => Hole)
    ensures ProductOf(p, q, result)
  {
    hide ProdAt, Strip, Mul, Add, Times, Zeros, NoHole, Leads, Val;
    StripVals(num);
    StripLeads(num);
    assert Strip(num) + seq(0, _ => Hole) == Strip(num);
    RowsDone(Vals(p), Vals(q), num);
  }

  lemma RowsDone(p: Poly, q: Poly, num: seq<Cell>)
    requires q != [] && |num| == |p| + |q| - 1 && Rows(p, q, |p|, num)
    ensures Vals(num) == Times(p, q) && (p != [] ==> NoHole(num))
  {
    hide ProdAt;
  }

  /** What every polynomial that was constructed satisfies: its first entry is not the number zero. */
  ghost predicate Leads(num: seq<Cell>) {
    num != [] ==> !IsZero(num[0])
  }

  lemma StripLeads(num: seq<Cell>)
    ensures |Strip(num)| <= |num| && Leads(Strip(num))
    ensures NoHole(num) ==> NoHole(Strip(num))
  {
    hide Strip, IsZero;
    StripIs(num);
  }

  lemma StripIs(num: seq<Cell>)
    ensures var r := Strip(num);
            && |r| <= |num| && r == num[|num| - |r|..]
            && (forall k :: 0 <= k < |num| - |r| ==> IsZero(num[k]))
            && (r != [] ==> !IsZero(r[0]))
  {
  }

  /** `r` is the remainder of `a` by `e`: shorter than `e`, and `a` is a multiple of `e` plus `r`. */
  ghost predicate Remainder(a: Poly, e: Poly, r: Poly) {
    && |r| < |e|
    && if |a| < |e| then r == a else exists q :: Quotient(a, e, q, r)
  }

  ghost predicate Quotient(a: Poly, e: Poly, q: Poly, r: Poly)
    requires |r| < |e|
  {
    && |a| >= |e|
    && |q| == |a| - |e| + 1
    && a == Sum(Times(q, e), Zeros(|a| - |r|) + r)
  }

  /** `num` is `self` with `c` times `e` added at the top. */
  ghost predicate Reduced(self: seq<Cell>, e: seq<Cell>, c: bv8, num: seq<Cell>) {
    && |num| == |self| >= |e|
    && forall k :: 0 <= k < |self| ==>
      num[k] == if k < |e| then Num(Add(Val(self[k]), Mul(Val(e[k]), c))) else self[k]
  }

  /** The body of `mod`: a copy of `self` with the multiple of `e` of logarithm `ratio` taken off the top. */
  method Reduce(math: QRMath, self: seq<Cell>, e: seq<Cell>, ratio: Option<int>, ghost c: bv8)
    returns (r: Result<seq<Cell>>)
    requires math.Valid() && |self| >= |e| && IsLog(ratio, c)
    ensures r.Throw? <==> HasZero(e)
    ensures r.Ok? ==> Reduced(self, e, c, r.value)
  {
    hide Add, Mul, Exp, ExpZ, IsLog;
    var num := new Cell[|self|](_ => Hole);
    for i := 0 to |self|
      invariant forall k :: 0 <= k < i ==> num[k] == self[k]
    {
      num[i] := self[i];
    }
    for i := 0 to |e|
      invariant forall k :: 0 <= k < num.Length ==>
        num[k] == if k < i then Num(Add(Val(self[k]), Mul(Val(e[k]), c))) else self[k]
      invariant forall k :: 0 <= k < i ==> e[k] != Num(0)
    {
      var t := Product(math, e[i], ratio, c);
      if t.Throw? {
        return Throw(t.error);
      }
      num[i] := Xor(num[i], t.value);
    }
    return Ok(num[..]);
  }

  /** The logarithm of the quotient of two leading entries; a hole has none, and counts as zero. */
  method Ratio(math: QRMath, a: Cell, b: Cell) returns (ratio: Option<int>, ghost c: bv8)
    requires math.Valid() && !IsZero(a) && !IsZero(b) && b.Num?
    ensures IsLog(ratio, c) && Add(Val(a), Mul(Val(b), c)) == 0
  {
    hide Add, Mul, Exp, ExpZ;
    var lead := math.Glog(a);
    var last := math.Glog(b);
    if lead.value.None? {
      ZeroCancels(Val(b));
      return None, 0;
    }
    ratio := Some(lead.value.value - last.value.value);
    c := ExpZ(ratio.value);
    LeadCancels(lead.value.value, last.value.value);
  }

  lemma ZeroCancels(b: bv8)
    ensures Add(0, Mul(b, 0)) == 0
  {
    hide Add, Mul;
    MulZero(b);
    AddZero(0);
  }

  /** Polynomial long division throws exactly when it has to divide by a polynomial with a zero coefficient. */
  method Mod(math: QRMath, self: QRPolynomial, e: QRPolynomial) returns (r: Result<QRPolynomial>)
    requires math.Valid()
    requires Leads(self.num) && Leads(e.num) && e.num != [] && e.num[0].Num?
    ensures r.Throw? <==> |self.num| >= |e.num| && HasZero(e.num)
    ensures r.Ok? ==> Remainder(Vals(self.num), Vals(e.num), Vals(r.value.num))
    decreases |self.num|
  {
    hide Add, Mul, Exp, ExpZ, Remainder, Reduced, Strip, IsZero, HasZero, IsLog, Val;
    if |self.num| - |e.num| < 0 {
      ShortRemainder(Vals(self.num), Vals(e.num));
      return Ok(self);
    }
    var ratio, c := Ratio(math, self.num[0], e.num[0]);
    var num := Reduce(math, self.num, e.num, ratio, c);
    if num.Throw? {
      return Throw(num.error);
    }
    StripReduced(self.num, e.num, c, num.value);
    var next := Construct(num.value, 0);
    assert next.num == Strip(num.value);
    r := Mod(math, next, e);
    if r.Ok? {
      ReducedStep(self.num, e.num, c, num.value, Vals(r.value.num));
    }
  }

  lemma ShortRemainder(a: Poly, e: Poly)
    requires |a| < |e|
    ensures Remainder(a, e, a)
  {
  }

  lemma StripReduced(self: seq<Cell>, e: seq<Cell>, c: bv8, num: seq<Cell>)
    requires e != [] && Reduced(self, e, c, num) && Add(Val(self[0]), Mul(Val(e[0]), c)) == 0
    ensures |Strip(num)| < |self| && Leads(Strip(num))
  {
    hide Add, Mul, Strip, IsZero, Val;
    LeadIsZero(self, e, c, num);
    StripIs(num);
  }

  lemma LeadIsZero(self: seq<Cell>, e: seq<Cell>, c: bv8, num: seq<Cell>)
    requires e != [] && Reduced(self, e, c, num) && Add(Val(self[0]), Mul(Val(e[0]), c)) == 0
    ensures IsZero(num[0])
  {
    hide Add, Mul;
  }

  lemma ReducedStep(self: seq<Cell>, e: seq<Cell>, c: bv8, num: seq<Cell>, r: Poly)
    requires e != [] && Reduced(self, e, c, num) && |Strip(num)| < |self|
    requires Remainder(Vals(Strip(num)), Vals(e), r)
    ensures Remainder(Vals(self), Vals(e), r)
  {
    hide Add, Mul, Remainder, Reduced, Lowered, Zeros, Val, Strip;
    StripVals(num);
    ReducedVals(self, e, c, num);
    DivisionStep(Vals(self), Vals(e), c, Vals(num), Vals(Strip(num)), r);
  }

  lemma LeadCancels(l: nat, k: nat)
    requires l < 255 && k < 255
    ensures Add(Exp(l), Mul(Exp(k), ExpZ(l - k))) == 0
  {
    hide *;
    LeadProduct(l, k);
    AddZero(Exp(l));
  }

  lemma LeadProduct(l: nat, k: nat)
    requires l < 255 && k < 255
    ensures Mul(Exp(k), ExpZ(l - k)) == Exp(l)
  {
    hide *;
    ExpZSmall(k);
    ExpZSmall(l);
    ExpZAdd(k, l - k);
    assert k + (l - k) == l;
  }

  lemma ExpZSmall(k: nat)
    requires k < 255
    ensures ExpZ(k) == Exp(k)
  {
    hide Exp;
  }

  /** `a'` is `a` with `c` times `e` added at the top. */
  ghost predicate Lowered(a: Poly, e: Poly, c: bv8, a': Poly) {
    && |a| >= |e| && |a'| == |a|
    && forall k :: 0 <= k < |a| ==> a'[k] == if k < |e| then Add(a[k], Mul(e[k], c)) else a[k]
  }

  lemma ReducedVals(self: seq<Cell>, e: seq<Cell>, c: bv8, num: seq<Cell>)
    requires Reduced(self, e, c, num)
    ensures |num| == |self| && Lowered(Vals(self), Vals(e), c, Vals(num))
  {
    hide Add, Mul;
  }

  /** One step of long division: subtracting `c` times the divisor at the top. */
  lemma DivisionStep(a: Poly, e: Poly, c: bv8, a': Poly, b: Poly, r: Poly)
    requires e != [] && Lowered(a, e, c, a') && |a| > |b|
    requires a' == Zeros(|a| - |b|) + b
    requires Remainder(b, e, r)
    ensures Remainder(a, e, r)
  {
    hide Add, Mul, Times, Sum, Scale;
    var t, n := |a| - |b|, |a| - |e|;
    var top := Scale(c, e) + Zeros(n);
    TopPart(a, e, c, a');
    if |b| < |e| {
      var q := [c] + Zeros(n);
      TopTimes(c, [], n, e);
      assert q == [c] + Zeros(n) + [];
      assert a' == Zeros(|a| - |r|) + r;
      assert Quotient(a, e, q, r);
    } else {
      var q' :| Quotient(b, e, q', r);
      var q := [c] + Zeros(t - 1) + q';
      TopTimes(c, q', t - 1, e);
      var low := Zeros(t) + Times(q', e);
      var rest := Zeros(|a| - |r|) + r;
      SumPadded(t, Times(q', e), Zeros(|b| - |r|) + r);
      assert Zeros(t) + (Zeros(|b| - |r|) + r) == rest;
      SumAssoc(top, low, rest);
      assert Quotient(a, e, q, r);
    }
  }

  lemma TopPart(a: Poly, e: Poly, c: bv8, a': Poly)
    requires e != [] && Lowered(a, e, c, a')
    ensures a == Sum(Scale(c, e) + Zeros(|a| - |e|), a')
  {
    hide Add, Mul;
    var top := Scale(c, e) + Zeros(|a| - |e|);
    forall k | 0 <= k < |a|
      ensures a[k] == Add(top[k], a'[k])
    {
      if k < |e| {
        MulComm(e[k], c);
        AddComm(Mul(c, e[k]), Add(a[k], Mul(c, e[k])));
        AddCancel(a[k], Mul(c, e[k]));
      } else {
        AddZero(a[k]);
      }
    }
    assert a == Sum(top, a');
  }

  lemma SumPadded(t: nat, p: Poly, q: Poly)
    requires |p| == |q|
    ensures Zeros(t) + Sum(p, q) == Sum(Zeros(t) + p, Zeros(t) + q)
  {
    AddZero(0);
  }

  lemma TopTimes(c: bv8, q: Poly, z: nat, e: Poly)
    requires e != []
    ensures |Times([c] + Zeros(z) + q, e)| == |e| + z + |q|
    ensures q == [] ==> Times([c] + Zeros(z) + q, e) == Scale(c, e) + Zeros(z)
    ensures q != [] ==> Times([c] + Zeros(z) + q, e) == Sum(Scale(c, e) + Zeros(z + |q|), Zeros(z + 1) + Times(q, e))
  {
    hide Add, Mul, Times;
    var tail := Zeros(z) + q;
    assert [c] + Zeros(z) + q == [c] + tail;
    if tail == [] {
      TimesOne(c, e);
      assert [c] + tail == [c];
      assert Scale(c, e) + Zeros(z) == Scale(c, e);
    } else {
      TimesCons(c, tail, e);
      TimesPadded(z, q, e);
      assert [0] + (Zeros(z) + Times(q, e)) == Zeros(z + 1) + Times(q, e);
      if q == [] {
        TimesNil(e);
        assert Zeros(z + 1) + Times(q, e) == Zeros(|Scale(c, e) + Zeros(z)|);
        SumZeros(Scale(c, e) + Zeros(z));
      }
    }
  }
}
