/**
 The field GF(256) of ISO/IEC 18004, given by its own definition: bytes are
 polynomials over GF(2), sums are exclusive ors and products are taken modulo
 x^8 + x^4 + x^3 + x^2 + 1. The log and exponential tables of the encoder are
 proved against this module, which never mentions them.
 */
module Gf256 {

  function Add(a: bv8, b: bv8): bv8 {
    a ^ b
  }

  /** Multiplication by the polynomial x: the bit that falls off the top comes back as x^4 + x^3 + x^2 + 1. */
  function Xtime(a: bv8): bv8 {
    (a << 1) ^ (a >> 7) ^ ((a >> 7) << 2) ^ ((a >> 7) << 3) ^ ((a >> 7) << 4)
  }

  /** `a` when the low bit of `b` is set. */
  function Select(a: bv8, b: bv8): bv8 {
    if b & 1 == 1 then a else 0
  }

  /** Schoolbook product modulo the field polynomial: Horner's rule on the low `n` bits of `b`. */
  function MulBits(a: bv8, b: bv8, n: nat): bv8 {
    if n == 0 then 0 else Add(Select(a, b), Xtime(MulBits(a, b >> 1, n - 1)))
  }

  function Mul(a: bv8, b: bv8): bv8 {
    MulBits(a, b, 8)
  }

  /** The powers of the element x, which the standard calls alpha. */
  function Exp(k: nat): bv8 {
    if k == 0 then 1 else Xtime(Exp(k - 1))
  }

  // ----- sums -----

  lemma AddComm(a: bv8, b: bv8)
    ensures Add(a, b) == Add(b, a)
  {
  }

  lemma AddAssoc(a: bv8, b: bv8, c: bv8)
    ensures Add(Add(a, b), c) == Add(a, Add(b, c))
  {
  }

  lemma AddZero(a: bv8)
    ensures Add(a, 0) == a && Add(0, a) == a && Add(a, a) == 0
  {
  }

  lemma AddSwap(a: bv8, b: bv8, c: bv8, d: bv8)
    ensures Add(Add(a, b), Add(c, d)) == Add(Add(a, c), Add(b, d))
  {
    hide Add;
    AddAssoc(a, b, Add(c, d));
    AddAssoc(b, c, d);
    AddComm(b, c);
    AddAssoc(c, b, d);
    AddAssoc(a, c, Add(b, d));
  }

  lemma AddCancel(a: bv8, b: bv8)
    ensures Add(Add(a, b), b) == a
    ensures Add(a, b) == 0 ==> a == b
  {
  }

  // ----- selection and doubling are linear -----

  lemma XtimeLinear(a: bv8, b: bv8)
    ensures Xtime(Add(a, b)) == Add(Xtime(a), Xtime(b))
  {
  }

  lemma XtimeInjective(a: bv8, b: bv8)
    requires Xtime(a) == Xtime(b)
    ensures a == b
  {
  }

  lemma XtimeZero()
    ensures Xtime(0) == 0
  {
  }

  lemma SelectLeft(a: bv8, a': bv8, b: bv8)
    ensures Select(Add(a, a'), b) == Add(Select(a, b), Select(a', b))
  {
  }

  lemma SelectRight(a: bv8, b: bv8, b': bv8)
    ensures Select(a, Add(b, b')) == Add(Select(a, b), Select(a, b'))
  {
  }

  lemma SelectXtime(a: bv8, b: bv8)
    ensures Select(Xtime(a), b) == Xtime(Select(a, b))
  {
  }

  lemma SelectZero(a: bv8)
    ensures Select(a, 0) == 0 && Select(0, a) == 0 && Select(a, 1) == a
  {
  }

  lemma ShiftLinear(b: bv8, b': bv8)
    ensures Add(b, b') >> 1 == Add(b >> 1, b' >> 1)
  {
  }

  // ----- the product is bilinear -----

  lemma {:induction false} MulBitsLeft(a: bv8, a': bv8, b: bv8, n: nat)
    ensures MulBits(Add(a, a'), b, n) == Add(MulBits(a, b, n), MulBits(a', b, n))
  {
    hide Xtime, Select, Add;
    if n == 0 {
      AddZero(0);
    } else {
      var p, p' := MulBits(a, b >> 1, n - 1), MulBits(a', b >> 1, n - 1);
      MulBitsLeft(a, a', b >> 1, n - 1);
      XtimeLinear(p, p');
      SelectLeft(a, a', b);
      AddSwap(Select(a, b), Select(a', b), Xtime(p), Xtime(p'));
    }
  }

  lemma {:induction false} MulBitsRight(a: bv8, b: bv8, b': bv8, n: nat)
    ensures MulBits(a, Add(b, b'), n) == Add(MulBits(a, b, n), MulBits(a, b', n))
  {
    hide Xtime, Select, Add;
    if n == 0 {
      AddZero(0);
    } else {
      var p, p' := MulBits(a, b >> 1, n - 1), MulBits(a, b' >> 1, n - 1);
      ShiftLinear(b, b');
      MulBitsRight(a, b >> 1, b' >> 1, n - 1);
      XtimeLinear(p, p');
      SelectRight(a, b, b');
      AddSwap(Select(a, b), Select(a, b'), Xtime(p), Xtime(p'));
    }
  }

  lemma {:induction false} MulBitsXtime(a: bv8, b: bv8, n: nat)
    ensures MulBits(Xtime(a), b, n) == Xtime(MulBits(a, b, n))
  {
    hide Xtime, Select, Add;
    if n == 0 {
      XtimeZero();
    } else {
      MulBitsXtime(a, b >> 1, n - 1);
      SelectXtime(a, b);
      XtimeLinear(Select(a, b), Xtime(MulBits(a, b >> 1, n - 1)));
    }
  }

  lemma {:induction false} MulBitsZero(a: bv8, n: nat)
    ensures MulBits(a, 0, n) == 0 && MulBits(0, a, n) == 0
  {
    hide Xtime, Select, Add;
    if n > 0 {
      MulBitsZero(a, n - 1);
      MulBitsZero(a >> 1, n - 1);
      SelectZero(a);
      XtimeZero();
      AddZero(0);
    }
  }

  lemma DistributesLeft(a: bv8, b: bv8, c: bv8)
    ensures Mul(Add(a, b), c) == Add(Mul(a, c), Mul(b, c))
  {
    hide Add;
    MulBitsLeft(a, b, c, 8);
  }

  lemma DistributesRight(a: bv8, b: bv8, c: bv8)
    ensures Mul(a, Add(b, c)) == Add(Mul(a, b), Mul(a, c))
  {
    hide Add;
    MulBitsRight(a, b, c, 8);
  }

  lemma MulXtime(a: bv8, b: bv8)
    ensures Mul(Xtime(a), b) == Xtime(Mul(a, b))
  {
    hide Xtime;
    MulBitsXtime(a, b, 8);
  }

  lemma MulZero(a: bv8)
    ensures Mul(a, 0) == 0 && Mul(0, a) == 0
  {
    MulBitsZero(a, 8);
  }

  lemma OneStep(b: bv8, n: nat)
    requires MulBits(1, b >> 1, n) == b >> 1
    ensures MulBits(1, b, n + 1) == b
  {
    assert Add(Select(1, b), Xtime(b >> 1)) == b;
  }

  lemma ShiftShift(b: bv8)
    ensures b >> 1 >> 1 == b >> 2 && b >> 2 >> 1 == b >> 3 && b >> 3 >> 1 == b >> 4 && b >> 4 >> 1 == b >> 5
    ensures b >> 5 >> 1 == b >> 6 && b >> 6 >> 1 == b >> 7 && b >> 7 >> 1 == 0
  {
  }

  lemma OneMul(b: bv8)
    ensures Mul(1, b) == b
  {
    hide *;
    ShiftShift(b);
    MulBitsZero(1, 0);
    OneStep(b >> 7, 0);
    OneStep(b >> 6, 1);
    OneStep(b >> 5, 2);
    OneStep(b >> 4, 3);
    OneStep(b >> 3, 4);
    OneStep(b >> 2, 5);
    OneStep(b >> 1, 6);
    OneStep(b, 7);
    MulIsMulBits(1, b);
  }

  lemma MulIsMulBits(a: bv8, b: bv8)
    ensures Mul(a, b) == MulBits(a, b, 8)
  {
  }

  lemma MulOne(b: bv8)
    ensures Mul(b, 1) == b
  {
    assert MulBits(b, 1, 8) == Add(Select(b, 1), Xtime(MulBits(b, 0, 7)));
    MulBitsZero(b, 7);
  }

  // ----- powers of x -----

  /** Doubling `k` times. */
  function Double(k: nat, b: bv8): bv8 {
    if k == 0 then b else Xtime(Double(k - 1, b))
  }

  lemma {:induction false} MulExp(k: nat, b: bv8)
    ensures Mul(Exp(k), b) == Double(k, b)
  {
    hide Xtime, Mul;
    if k == 0 {
      OneMul(b);
    } else {
      MulExp(k - 1, b);
      MulXtime(Exp(k - 1), b);
    }
  }

  lemma {:induction false} DoubleExp(k: nat, j: nat)
    ensures Double(k, Exp(j)) == Exp(k + j)
  {
    hide Xtime;
    if k > 0 {
      DoubleExp(k - 1, j);
    }
  }

  lemma ExpAdd(k: nat, j: nat)
    ensures Mul(Exp(k), Exp(j)) == Exp(k + j)
  {
    hide Xtime, Mul;
    MulExp(k, Exp(j));
    DoubleExp(k, j);
  }

  function Xtime4(a: bv8): bv8 {
    Xtime(Xtime(Xtime(Xtime(a))))
  }

  function Xtime16(a: bv8): bv8 {
    Xtime4(Xtime4(Xtime4(Xtime4(a))))
  }

  lemma Exp4(k: nat)
    ensures Exp(k + 4) == Xtime4(Exp(k))
  {
    hide Xtime;
    assert Exp(k + 2) == Xtime(Xtime(Exp(k)));
  }

  lemma Exp16(k: nat)
    ensures Exp(k + 16) == Xtime16(Exp(k))
  {
    hide Xtime, Xtime4;
    Exp4(k);
    Exp4(k + 4);
    Exp4(k + 8);
    Exp4(k + 12);
  }

  lemma ExpTo64()
    ensures Exp(15) == 0x26 && Exp(51) == 0x0A && Exp(64) == 0x5F
  {
    Exp4(0);
    Exp4(4);
    Exp4(8);
    assert Exp(12) == 0xCD;
    assert Exp(15) == Xtime(Xtime(Xtime(Exp(12)))) by { hide Xtime; assert Exp(14) == Xtime(Xtime(Exp(12))); }
    Exp16(0);
    Exp16(16);
    Exp16(32);
    Exp16(48);
    assert Exp(16) == 0x4C && Exp(32) == 0x9D && Exp(48) == 0x46;
    assert Exp(51) == Xtime(Xtime(Xtime(Exp(48)))) by { hide Xtime; assert Exp(50) == Xtime(Xtime(Exp(48))); }
  }

  lemma ExpTo128()
    ensures Exp(85) == 0xD6 && Exp(128) == 0x85
  {
    ExpTo64();
    Exp16(64);
    Exp4(80);
    Exp16(80);
    Exp16(96);
    Exp16(112);
    assert Exp(80) == 0xFD && Exp(84) == 0x6B && Exp(96) == 0xD9 && Exp(112) == 0x81;
  }

  /** The element x has order dividing 255. */
  lemma Exp255()
    ensures Exp(255) == 1
  {
    ExpTo128();
    Exp16(128);
    Exp16(144);
    Exp16(160);
    Exp16(176);
    assert Exp(144) == 0xA8 && Exp(160) == 0xE6 && Exp(176) == 0xE3 && Exp(192) == 0x82;
    Exp192To255();
  }

  lemma Exp192To255()
    requires Exp(192) == 0x82
    ensures Exp(255) == 1
  {
    Exp16(192);
    Exp16(208);
    Exp16(224);
    Exp4(240);
    Exp4(244);
    Exp4(248);
    assert Exp(208) == 0x51 && Exp(224) == 0x12 && Exp(240) == 0x2C;
    assert Exp(244) == 0xFA && Exp(248) == 0x1B && Exp(252) == 0xAD;
    assert Exp(255) == Xtime(Xtime(Xtime(Exp(252)))) by { hide Xtime; assert Exp(254) == Xtime(Xtime(Exp(252))); }
  }

  lemma {:induction false} ExpMultiple(k: nat, q: nat)
    requires Exp(k) == 1
    ensures Exp(k * q) == 1
  {
    hide Xtime, Mul;
    if q > 0 {
      ExpMultiple(k, q - 1);
      ExpAdd(k * (q - 1), k);
      assert k * (q - 1) + k == k * q;
      OneMul(1);
    }
  }

  lemma ProductBound(k: nat, q: nat)
    ensures k >= 16 && q >= 16 ==> k * q >= 16 * q >= 256
  {
  }

  /** A proper divisor of 255 = 3 * 5 * 17 divides 85, 51 or 15. */
  lemma ProperDivisor(k: nat, q: nat)
    requires 0 < k && q > 1 && k * q == 255
    ensures 85 % k == 0 || 51 % k == 0 || 15 % k == 0
  {
    if k > 15 {
      ProductBound(k, q);
      assert q == 2 || q == 3 || q == 4 || q == 5 || q == 6 || q == 7 || q == 8
          || q == 9 || q == 10 || q == 11 || q == 12 || q == 13 || q == 14 || q == 15;
    }
  }

  lemma ExpAtMultiple(k: nat, n: nat)
    requires 0 < k && n % k == 0 && Exp(k) == 1
    ensures Exp(n) == 1
  {
    ExpMultiple(k, n / k);
    assert k * (n / k) == n;
  }

  /** The element x has order exactly 255. */
  lemma {:induction false} ExpNotOne(k: nat)
    requires 0 < k < 255
    ensures Exp(k) != 1
  {
    hide Xtime, Mul;
    if Exp(k) == 1 {
      var q, r := 255 / k, 255 % k;
      assert k * q + r == 255;
      ExpMultiple(k, q);
      ExpAdd(k * q, r);
      OneMul(Exp(r));
      Exp255();
      if r > 0 {
        ExpNotOne(r);
      } else {
        assert q > 1;
        ProperDivisor(k, q);
        ExpTo64();
        ExpTo128();
        if 85 % k == 0 {
          ExpAtMultiple(k, 85);
        } else if 51 % k == 0 {
          ExpAtMultiple(k, 51);
        } else {
          ExpAtMultiple(k, 15);
        }
      }
    }
  }

  lemma {:induction false} ExpPeriod(k: nat)
    ensures Exp(k) == Exp(k % 255)
  {
    hide Xtime, Mul;
    if k >= 255 {
      ExpAdd(255, k - 255);
      Exp255();
      OneMul(Exp(k - 255));
      ExpPeriod(k - 255);
      assert k % 255 == (k - 255) % 255;
    }
  }

  lemma {:induction false} ExpInjective(i: nat, j: nat)
    requires i < j < 255
    ensures Exp(i) != Exp(j)
  {
    hide Xtime;
    if Exp(i) == Exp(j) {
      if i == 0 {
        ExpNotOne(j);
      } else {
        XtimeInjective(Exp(i - 1), Exp(j - 1));
        ExpInjective(i - 1, j - 1);
      }
    }
  }

  lemma {:induction false} ExpNonZero(k: nat)
    ensures Exp(k) != 0
  {
    hide Xtime;
    if k > 0 {
      ExpNonZero(k - 1);
      XtimeZero();
      if Exp(k) == 0 {
        XtimeInjective(Exp(k - 1), 0);
      }
    }
  }

  // ----- every non-zero byte is a power of x, by counting -----

  function Value(b: bv8): nat {
    b as nat
  }

  lemma ValueBound(b: bv8)
    ensures 0 <= Value(b) < 256
  {
  }

  lemma ValueInjective(b: bv8, c: bv8)
    requires Value(b) == Value(c)
    ensures b == c
  {
  }

  lemma {:induction false} SizeBound(s: set<bv8>, m: nat)
    requires forall c :: c in s ==> Value(c) < m
    ensures |s| <= m
  {
    hide Value;
    if m == 0 {
      forall c | c in s
        ensures false
      {
        ValueBound(c);
      }
    } else if c :| c in s && Value(c) == m - 1 {
      forall d | d in s - {c}
        ensures Value(d) < m - 1
      {
        if Value(d) == m - 1 {
          ValueInjective(c, d);
        }
      }
      SizeBound(s - {c}, m - 1);
    } else {
      SizeBound(s, m - 1);
    }
  }

  ghost function Powers(n: nat): set<bv8> {
    if n == 0 then {} else Powers(n - 1) + {Exp(n - 1)}
  }

  lemma {:induction false} PowersMember(n: nat, b: bv8)
    requires b in Powers(n)
    ensures exists k: nat :: k < n && Exp(k) == b
  {
    hide Exp;
    if b == Exp(n - 1) {
      assert n - 1 < n && Exp(n - 1) == b;
    } else {
      PowersMember(n - 1, b);
      var k: nat :| k < n - 1 && Exp(k) == b;
      assert k < n && Exp(k) == b;
    }
  }

  lemma {:induction false} PowersSize(n: nat)
    requires n <= 255
    ensures |Powers(n)| == n
  {
    hide Exp;
    if n > 0 {
      PowersSize(n - 1);
      if Exp(n - 1) in Powers(n - 1) {
        PowersMember(n - 1, Exp(n - 1));
        var k: nat :| k < n - 1 && Exp(k) == Exp(n - 1);
        ExpInjective(k, n - 1);
      }
    }
  }

  lemma LogExists(b: bv8)
    requires b != 0
    ensures exists k: nat :: k < 255 && Exp(k) == b
  {
    hide Exp, Value;
    PowersSize(255);
    if b in Powers(255) {
      PowersMember(255, b);
    } else {
      if 0 in Powers(255) {
        PowersMember(255, 0);
        var k: nat :| k < 255 && Exp(k) == 0;
        ExpNonZero(k);
      }
      var s := Powers(255) + {b} + {0};
      assert |s| == 257;
      forall c | c in s
        ensures Value(c) < 256
      {
        ValueBound(c);
      }
      SizeBound(s, 256);
    }
  }

  // ----- GF(256) is a field -----

  lemma MulComm(a: bv8, b: bv8)
    ensures Mul(a, b) == Mul(b, a)
  {
    hide *;
    if a == 0 || b == 0 {
      MulZero(a);
      MulZero(b);
    } else {
      LogExists(a);
      LogExists(b);
      var i: nat, j: nat :| Exp(i) == a && Exp(j) == b;
      ExpAdd(i, j);
      ExpAdd(j, i);
    }
  }

  lemma MulAssoc(a: bv8, b: bv8, c: bv8)
    ensures Mul(Mul(a, b), c) == Mul(a, Mul(b, c))
  {
    hide *;
    if a == 0 || b == 0 || c == 0 {
      MulZero(a);
      MulZero(b);
      MulZero(c);
      MulZero(Mul(a, b));
      MulZero(Mul(b, c));
    } else {
      LogExists(a);
      LogExists(b);
      LogExists(c);
      var i: nat, j: nat, k: nat :| Exp(i) == a && Exp(j) == b && Exp(k) == c;
      ExpAdd(i, j);
      ExpAdd(j, k);
      ExpAdd(i + j, k);
      ExpAdd(i, j + k);
    }
  }

  lemma NoZeroDivisors(a: bv8, b: bv8)
    requires Mul(a, b) == 0
    ensures a == 0 || b == 0
  {
    hide *;
    if a != 0 && b != 0 {
      LogExists(a);
      LogExists(b);
      var i: nat, j: nat :| Exp(i) == a && Exp(j) == b;
      ExpAdd(i, j);
      ExpNonZero(i + j);
    }
  }
}
