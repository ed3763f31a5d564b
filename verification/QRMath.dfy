/** The logarithm and exponential tables of GF(256), as the encoder builds and reads them. */
module QRMath {
  import opened Gf256
  import opened JsValues

  /** The power of x with any integer exponent. */
  function ExpZ(n: int): bv8 {
    Exp(n % 255)
  }

  lemma ModAdd(i: int, j: int)
    ensures (i % 255 + j % 255) % 255 == (i + j) % 255
  {
    var q := i / 255 + j / 255;
    assert i + j == 255 * q + (i % 255 + j % 255);
  }

  lemma ExpZAdd(i: int, j: int)
    ensures ExpZ(i + j) == Mul(ExpZ(i), ExpZ(j))
  {
    hide Exp, Mul;
    ExpAdd(i % 255, j % 255);
    ExpPeriod(i % 255 + j % 255);
    ModAdd(i, j);
  }

  /** The recurrence that fills the exponential table is the field polynomial, times a power of x. */
  lemma ExpRecurrence(i: nat)
    requires i >= 8
    ensures Exp(i) == Exp(i - 4) ^ Exp(i - 5) ^ Exp(i - 6) ^ Exp(i - 8)
  {
    assert Exp(i) == Add(Add(Add(Exp(i - 4), Exp(i - 5)), Exp(i - 6)), Exp(i - 8)) by {
      hide Exp, Add, Mul;
      var a := i - 8;
      ExpAdd(a, 8);
      ExpAdd(a, 4);
      ExpAdd(a, 3);
      ExpAdd(a, 2);
      OneMul(Exp(a));
      MulOne(Exp(a));
      SmallPowers();
      DistributesRight(Exp(a), Add(Add(Exp(4), Exp(3)), Exp(2)), 1);
      DistributesRight(Exp(a), Add(Exp(4), Exp(3)), Exp(2));
      DistributesRight(Exp(a), Exp(4), Exp(3));
    }
  }

  lemma SmallPowers()
    ensures Exp(8) == Add(Add(Add(Exp(4), Exp(3)), Exp(2)), 1) == 0x1D
  {
    Exp4(0);
    Exp4(4);
    assert Exp(4) == 16 && Exp(3) == 8 && Exp(2) == 4 && Exp(8) == 0x1D;
  }

  lemma ShiftedOne(i: nat)
    requires i < 8
    ensures (1 as bv8) << i == Exp(i)
  {
    SmallPowers();
    assert Exp(7) == Xtime(Xtime(Xtime(Exp(4)))) by { hide Xtime; assert Exp(6) == Xtime(Xtime(Exp(4))); }
    assert i == 0 || i == 1 || i == 2 || i == 3 || i == 4 || i == 5 || i == 6 || i == 7;
  }

  /** The two loops that fill the table of powers. */
  method ExpTable() returns (exp: array<bv8>)
    ensures fresh(exp) && exp.Length == 256 && forall k :: 0 <= k < 256 ==> exp[k] == Exp(k)
  {
    hide Exp;
    exp := new bv8[256];
    for i := 0 to 8
      invariant forall k :: 0 <= k < i ==> exp[k] == Exp(k)
    {
      ShiftedOne(i);
      exp[i] := (1 as bv8) << i;
    }
    for i := 8 to 256
      invariant forall k :: 0 <= k < i ==> exp[k] == Exp(k)
    {
      ExpRecurrence(i);
      exp[i] := exp[i - 4] ^ exp[i - 5] ^ exp[i - 6] ^ exp[i - 8];
    }
  }

  /** The loop that inverts it. */
  method LogTable(exp: array<bv8>) returns (log: array<int>)
    requires exp.Length == 256 && forall k :: 0 <= k < 256 ==> exp[k] == Exp(k)
    ensures fresh(log) && log.Length == 256 && forall k :: 0 <= k < 255 ==> log[Value(Exp(k))] == k
  {
    hide Exp, Value;
    log := new int[256];
    forall b: bv8
      ensures 0 <= Value(b) < 256
    {
      ValueBound(b);
    }
    for i := 0 to 255
      invariant forall k :: 0 <= k < i ==> log[Value(Exp(k))] == k
    {
      forall k | 0 <= k < i
        ensures Value(Exp(k)) != Value(Exp(i))
      {
        OtherValue(k, i);
      }
      log[Value(exp[i])] := i;
    }
  }

  lemma OtherValue(k: nat, i: nat)
    requires k < i < 255
    ensures Value(Exp(k)) != Value(Exp(i))
  {
    hide Exp, Value;
    ExpInjective(k, i);
    if Value(Exp(k)) == Value(Exp(i)) {
      ValueInjective(Exp(k), Exp(i));
    }
  }

  class QRMath {
    const EXP_TABLE: array<bv8>
    const LOG_TABLE: array<int>

    ghost predicate Valid()
      reads EXP_TABLE, LOG_TABLE
    {
      && EXP_TABLE.Length == 256
      && LOG_TABLE.Length == 256
      && (forall i :: 0 <= i < 256 ==> EXP_TABLE[i] == Exp(i))
      && (forall i :: 0 <= i < 255 ==> LOG_TABLE[Value(Exp(i))] == i)
    }

    constructor ()
      ensures Valid() && fresh(EXP_TABLE) && fresh(LOG_TABLE)
    {
      var exp := ExpTable();
      var log := LogTable(exp);
      EXP_TABLE, LOG_TABLE := exp, log;
    }

    /** The logarithm: zero throws, every other byte has the one exponent below 255 that gives it back. */
    method Glog(n: Cell) returns (r: Result<Option<int>>)
      requires Valid()
      ensures n == Num(0) ==> r == Throw(GlogOfZero)
      ensures n == Hole ==> r == Ok(None)
      ensures n.Num? && n.byte != 0 ==>
              r.Ok? && r.value.Some? && 0 <= r.value.value < 255 && Exp(r.value.value) == n.byte
    {
      hide Exp, Value;
      if n.Hole? {
        return Ok(None);
      }
      if n.byte < 1 {
        return Throw(GlogOfZero);
      }
      ValueBound(n.byte);
      LogExists(n.byte);
      return Ok(Some(LOG_TABLE[Value(n.byte)]));
    }

    /** The power of x, for every integer exponent. */
    method Gexp(n: Option<int>) returns (c: Cell)
      requires Valid()
      ensures c == if n.None? then Hole else Num(ExpZ(n.value))
    {
      hide Exp;
      if n.None? {
        return Hole;
      }
      var m := n.value;
      while m < 0
        invariant m % 255 == n.value % 255
        decreases -m
      {
        m := m + 255;
      }
      while m >= 256
        invariant m >= 0 && m % 255 == n.value % 255
      {
        m := m - 255;
      }
      ExpPeriod(m);
      return Num(EXP_TABLE[m]);
    }
  }
}
