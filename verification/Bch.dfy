/**
 Polynomials over GF(2) written as the bits of a number, and the shift-and-xor
 division behind format and version information (ISO/IEC 18004, section 7.9.1).
 */
module BinaryPolynomials {

  /** Exclusive or of unsigned numbers. */
  function Xor(a: nat, b: nat): nat {
    if a == 0 && b == 0 then 0 else 2 * Xor(a / 2, b / 2) + (a % 2 + b % 2) % 2
  }

  /** Inclusive or of unsigned numbers. */
  function Or(a: nat, b: nat): nat {
    if a == 0 && b == 0 then 0 else 2 * Or(a / 2, b / 2) + if a % 2 == 1 || b % 2 == 1 then 1 else 0
  }

  /** Shift to the left, without wrap-around. */
  function Shl(a: nat, k: nat): (r: nat)
    ensures a > 0 ==> r > 0
  {
    if k == 0 then a else 2 * Shl(a, k - 1)
  }

  /** Number of binary digits. */
  function Digit(a: nat): nat {
    if a == 0 then 0 else 1 + Digit(a / 2)
  }

  /** The product of two polynomials over GF(2). */
  function Clmul(q: nat, g: nat): nat {
    if q == 0 then 0 else Xor(if q % 2 == 1 then g else 0, 2 * Clmul(q / 2, g))
  }

  lemma {:induction false} XorZero(a: nat)
    ensures Xor(a, 0) == a && Xor(0, a) == a && Xor(a, a) == 0
  {
    if a > 0 {
      XorZero(a / 2);
    }
  }

  lemma {:induction false} XorComm(a: nat, b: nat)
    ensures Xor(a, b) == Xor(b, a)
  {
    if a > 0 || b > 0 {
      XorComm(a / 2, b / 2);
    }
  }

  lemma {:induction false} XorAssoc(a: nat, b: nat, c: nat)
    ensures Xor(Xor(a, b), c) == Xor(a, Xor(b, c))
  {
    hide Xor;
    if a == 0 && b == 0 && c == 0 {
      XorZero(0);
    } else {
      XorAssoc(a / 2, b / 2, c / 2);
      XorParts(a, b);
      XorParts(b, c);
      XorParts(Xor(a, b), c);
      XorParts(a, Xor(b, c));
      ParityAssoc(a % 2, b % 2, c % 2);
      SameHalves(Xor(Xor(a, b), c), Xor(a, Xor(b, c)));
    }
  }

  lemma ParityAssoc(a: nat, b: nat, c: nat)
    requires a < 2 && b < 2 && c < 2
    ensures ((a + b) % 2 + c) % 2 == (a + (b + c) % 2) % 2
  {
  }

  lemma XorParts(a: nat, b: nat)
    ensures Xor(a, b) / 2 == Xor(a / 2, b / 2) && Xor(a, b) % 2 == (a % 2 + b % 2) % 2
  {
  }

  lemma XorDouble(a: nat, b: nat)
    ensures Xor(2 * a, 2 * b) == 2 * Xor(a, b)
  {
    hide Xor;
    XorParts(2 * a, 2 * b);
    Doubled(a);
    Doubled(b);
    Doubled(Xor(a, b));
    SameHalves(Xor(2 * a, 2 * b), 2 * Xor(a, b));
  }

  lemma Doubled(a: nat)
    ensures 2 * a / 2 == a && 2 * a % 2 == 0
  {
  }

  lemma SameHalves(x: nat, y: nat)
    requires x / 2 == y / 2 && x % 2 == y % 2
    ensures x == y
  {
  }

  lemma XorSwap(a: nat, b: nat, c: nat, d: nat)
    ensures Xor(Xor(a, b), Xor(c, d)) == Xor(Xor(a, c), Xor(b, d))
  {
    hide Xor;
    XorAssoc(a, b, Xor(c, d));
    XorAssoc(b, c, d);
    XorComm(b, c);
    XorAssoc(c, b, d);
    XorAssoc(a, c, Xor(b, d));
  }

  lemma {:induction false} ClmulXor(q: nat, q': nat, g: nat)
    ensures Clmul(Xor(q, q'), g) == Xor(Clmul(q, g), Clmul(q', g))
  {
    hide Xor, Clmul;
    ClmulParts(q, g);
    ClmulParts(q', g);
    ClmulParts(Xor(q, q'), g);
    XorParts(q, q');
    if q == 0 && q' == 0 {
      ClmulZero(g);
      XorZero(0);
    } else {
      ClmulXor(q / 2, q' / 2, g);
      var a, b := Clmul(q / 2, g), Clmul(q' / 2, g);
      var s, s' := if q % 2 == 1 then g else 0, if q' % 2 == 1 then g else 0;
      XorDouble(a, b);
      XorZero(g);
      XorZero(0);
      assert Xor(s, s') == if Xor(q, q') % 2 == 1 then g else 0;
      XorSwap(s, 2 * a, s', 2 * b);
    }
  }

  lemma ClmulZero(g: nat)
    ensures Clmul(0, g) == 0
  {
  }

  lemma ClmulParts(q: nat, g: nat)
    ensures Clmul(q, g) == Xor(if q % 2 == 1 then g else 0, 2 * Clmul(q / 2, g))
  {
    XorZero(0);
  }

  lemma {:induction false} ClmulPower(k: nat, g: nat)
    ensures Clmul(Shl(1, k), g) == Shl(g, k)
  {
    if k == 0 {
      XorZero(g);
    } else {
      ClmulPower(k - 1, g);
      XorZero(2 * Shl(g, k - 1));
    }
  }

  // ----- digits -----

  lemma {:induction false} DigitZero(a: nat)
    ensures Digit(a) == 0 <==> a == 0
  {
  }

  lemma {:induction false} DigitShl(a: nat, k: nat)
    requires a > 0
    ensures Digit(Shl(a, k)) == Digit(a) + k && Shl(a, k) > 0
  {
    if k > 0 {
      DigitShl(a, k - 1);
    }
  }

  /** Numbers of equal length lose their top bit. */
  lemma {:induction false} DigitCancel(a: nat, b: nat)
    requires Digit(a) == Digit(b) > 0
    ensures Digit(Xor(a, b)) < Digit(a)
  {
    XorParts(a, b);
    if Digit(a) > 1 {
      DigitCancel(a / 2, b / 2);
    } else {
      DigitZero(a / 2);
      DigitZero(b / 2);
      XorZero(0);
    }
  }

  lemma {:induction false} DigitLonger(a: nat, b: nat)
    requires Digit(a) > Digit(b)
    ensures Digit(Xor(a, b)) == Digit(a)
  {
    XorParts(a, b);
    if b == 0 {
      XorZero(a);
    } else {
      DigitLonger(a / 2, b / 2);
    }
  }

  lemma {:induction false} DigitClmul(q: nat, g: nat)
    requires q > 0 && g > 0
    ensures Digit(Clmul(q, g)) == Digit(q) + Digit(g) - 1
  {
    if q == 1 {
      XorZero(g);
    } else {
      DigitClmul(q / 2, g);
      var p := 2 * Clmul(q / 2, g);
      DigitZero(Clmul(q / 2, g));
      DigitZero(g);
      DigitZero(q / 2);
      assert Digit(p) == Digit(q) + Digit(g) - 1;
      XorZero(p);
      if q % 2 == 1 {
        DigitLonger(p, g);
        XorComm(p, g);
      }
    }
  }

  lemma {:induction false} DigitShort(a: nat, k: nat)
    ensures Digit(a) <= k <==> a < Shl(1, k)
  {
    if k == 0 {
      DigitZero(a);
    } else {
      DigitShort(a / 2, k - 1);
      if a == 0 {
        DigitShl(1, k);
      }
    }
  }

  /** Filling the low bits of a shifted number: adding, or-ing and xor-ing agree. */
  lemma {:induction false} LowBits(a: nat, d: nat, k: nat)
    requires d < Shl(1, k)
    ensures Or(Shl(a, k), d) == Shl(a, k) + d && Xor(Shl(a, k), d) == Shl(a, k) + d
  {
    if k == 0 {
      XorZero(a);
      OrZero(a);
    } else {
      LowBits(a, d / 2, k - 1);
      XorParts(Shl(a, k), d);
    }
  }

  lemma {:induction false} OrZero(a: nat)
    ensures Or(a, 0) == a
  {
    if a > 0 {
      OrZero(a / 2);
    }
  }

  lemma {:induction false} ShlSum(i: nat, j: nat)
    ensures Shl(1, i + j) == Shl(1, i) * Shl(1, j)
  {
    if j > 0 {
      ShlSum(i, j - 1);
    }
  }

  lemma {:induction false} ShlIsTimes(a: nat, k: nat)
    ensures Shl(a, k) == a * Shl(1, k)
  {
    if k > 0 {
      ShlIsTimes(a, k - 1);
    }
  }
}

module Bch {
  import opened BinaryPolynomials

  const G15: nat := 0x537    // x^10 + x^8 + x^5 + x^4 + x^2 + x + 1
  const G18: nat := 0x1F25   // x^12 + x^11 + x^10 + x^9 + x^8 + x^5 + x^2 + 1
  const G15_MASK: nat := 0x5412

  /** The shift operator of JavaScript on unsigned 32-bit patterns. */
  function Shl32(a: nat, k: nat): nat {
    Shl(a, k) % 0x1_0000_0000
  }

  ghost predicate Multiple(word: nat, g: nat) {
    exists q :: word == Clmul(q, g)
  }

  /** The number of binary digits of an unsigned number, by halving it away. */
  method GetBCHDigit(data: nat) returns (digit: nat)
    ensures digit == Digit(data)
  {
    digit := 0;
    var rest := data;
    while rest != 0
      invariant digit + Digit(rest) == Digit(data)
    {
      digit := digit + 1;
      rest := rest / 2;
    }
  }

  lemma MultipleXor(a: nat, b: nat, g: nat)
    requires Multiple(a, g) && Multiple(b, g)
    ensures Multiple(Xor(a, b), g)
  {
    var q :| a == Clmul(q, g);
    var q' :| b == Clmul(q', g);
    ClmulXor(q, q', g);
  }

  lemma MultipleShl(g: nat, k: nat)
    ensures Multiple(Shl(g, k), g)
  {
    ClmulPower(k, g);
  }

  lemma MultipleZero(g: nat)
    ensures Multiple(0, g)
  {
    ClmulZero(g);
  }

  lemma Powers()
    ensures Shl(1, 10) == 0x400 && Shl(1, 12) == 0x1000 && Shl(1, 20) == 0x10_0000 && Shl(1, 22) == 0x40_0000
    ensures Shl(1, 32) == 0x1_0000_0000
  {
    assert Shl(1, 2) == 4;
    ShlSum(2, 2);
    ShlSum(4, 4);
    ShlSum(8, 2);
    ShlSum(10, 2);
    ShlSum(10, 10);
    ShlSum(10, 12);
    ShlSum(20, 12);
  }

  lemma Digit32(a: nat)
    ensures Digit(a) <= 32 <==> a < 0x1_0000_0000
  {
    hide Digit, Shl;
    DigitShort(a, 32);
    Powers();
  }

  /** One step of the division keeps the number a 32-bit pattern and shortens it. */
  lemma DivisionStep(d: nat, g: nat)
    requires 0 < g && Digit(g) <= Digit(d) <= 32
    ensures var k := Digit(d) - Digit(g);
            Shl32(g, k) == Shl(g, k) && Digit(Xor(d, Shl(g, k))) < Digit(d)
  {
    hide Shl, Digit, Xor;
    var k := Digit(d) - Digit(g);
    DigitShl(g, k);
    Digit32(Shl(g, k));
    DigitZero(g);
    DigitCancel(d, Shl(g, k));
  }

  /**
   * Division by shifting and xor-ing terminates with a remainder shorter than the divisor, which differs from the
   * dividend by a multiple of the divisor.
   */
  method Remainder(data: nat, g: nat) returns (d: nat)
    requires 0 < g && data < 0x1_0000_0000
    ensures Digit(d) < Digit(g) && Multiple(Xor(data, d), g)
  {
    hide Xor, Clmul, Digit, Shl, Shl32, Multiple;
    d := data;
    XorZero(data);
    MultipleZero(g);
    Digit32(data);
    var gDigit: int := GetBCHDigit(g);
    var digit: int := GetBCHDigit(d);
    while digit - gDigit >= 0
      invariant digit == Digit(d) <= 32 && Multiple(Xor(data, d), g)
      decreases digit
    {
      var k := digit - gDigit;
      DivisionStep(d, g);
      MultipleShl(g, k);
      MultipleXor(Xor(data, d), Shl(g, k), g);
      XorAssoc(data, d, Shl(g, k));
      d := Xor(d, Shl32(g, k));
      digit := GetBCHDigit(d);
    }
  }

  /** A code word: a multiple of the divisor that starts with the data. */
  ghost predicate CodeWord(word: nat, data: nat, g: nat, k: nat) {
    Multiple(word, g) && Shl(data, k) <= word < Shl(data, k) + Shl(1, k)
  }

  /** There is only one: the check bits are determined by the data. */
  lemma CodeWordUnique(word: nat, word': nat, data: nat, g: nat, k: nat)
    requires Digit(g) == k + 1
    requires CodeWord(word, data, g, k) && CodeWord(word', data, g, k)
    ensures word == word'
  {
    hide Xor, Clmul, Digit, Shl, Multiple;
    var d, d' := word - Shl(data, k), word' - Shl(data, k);
    MultipleXor(word, word', g);
    XorOfWords(Shl(data, k), d, d', data, k);
    XorShort(d, d', k);
    ShortMultiple(Xor(d, d'), g, k);
    XorInjective(d, d');
  }

  lemma XorOfWords(s: nat, d: nat, d': nat, data: nat, k: nat)
    requires s == Shl(data, k) && d < Shl(1, k) && d' < Shl(1, k)
    ensures Xor(s + d, s + d') == Xor(d, d')
  {
    hide Xor, Shl;
    LowBits(data, d, k);
    LowBits(data, d', k);
    XorSwap(s, d, s, d');
    XorZero(s);
    XorZero(Xor(d, d'));
  }

  lemma XorShort(d: nat, d': nat, k: nat)
    requires d < Shl(1, k) && d' < Shl(1, k)
    ensures Digit(Xor(d, d')) <= k
  {
    DigitShort(d, k);
    DigitShort(d', k);
    XorDigit(d, d');
  }

  lemma {:induction false} XorDigit(a: nat, b: nat)
    ensures Digit(Xor(a, b)) <= if Digit(a) < Digit(b) then Digit(b) else Digit(a)
  {
    if Digit(a) > Digit(b) {
      DigitLonger(a, b);
    } else if Digit(a) < Digit(b) {
      XorComm(a, b);
      DigitLonger(b, a);
    } else if Digit(a) > 0 {
      DigitCancel(a, b);
    } else {
      DigitZero(a);
      DigitZero(b);
      XorZero(0);
    }
  }

  lemma ShortMultiple(a: nat, g: nat, k: nat)
    requires Multiple(a, g) && Digit(a) <= k < Digit(g)
    ensures a == 0
  {
    hide Clmul, Digit;
    var q :| a == Clmul(q, g);
    DigitZero(g);
    if q > 0 {
      DigitClmul(q, g);
      DigitZero(q);
    } else {
      ClmulZero(g);
    }
  }

  lemma XorInjective(a: nat, b: nat)
    requires Xor(a, b) == 0
    ensures a == b
  {
    hide Xor;
    XorAssoc(a, b, b);
    XorZero(b);
    XorZero(a);
  }

  /** What both callers do: append the remainder of the shifted data to it. Data bits beyond the word size are lost. */
  method Encode(data: nat, g: nat, k: nat) returns (word: nat)
    requires (k == 10 || k == 12) && Digit(g) == k + 1
    ensures CodeWord(word, data % Shl(1, 32 - k), g, k)
  {
    hide Xor, Or, Clmul, Digit, Shl, Shl32, Multiple;
    ghost var kept := data % Shl(1, 32 - k);
    ShlWraps(data, k);
    DigitZero(g);
    var d := Remainder(Shl32(data, k), g);
    DigitShort(d, k);
    LowBits(kept, d, k);
    word := Or(Shl32(data, k), d);
  }

  lemma ShlWraps(data: nat, k: nat)
    requires k == 10 || k == 12
    ensures Shl32(data, k) == Shl(data % Shl(1, 32 - k), k) < 0x1_0000_0000
  {
    hide Shl;
    Powers();
    ShlIsTimes(data, k);
    ShlIsTimes(data % Shl(1, 32 - k), k);
    if k == 10 {
      TopLost(data, 0x40_0000, 0x400);
    } else {
      TopLost(data, 0x10_0000, 0x1000);
    }
  }

  lemma TopLost(data: nat, m: nat, s: nat)
    requires m * s == 0x1_0000_0000 && m > 0 && s > 0
    ensures data * s % 0x1_0000_0000 == data % m * s < 0x1_0000_0000
  {
    var q, r := data / m, data % m;
    assert data * s == q * 0x1_0000_0000 + r * s by {
      assert data == q * m + r;
      assert (q * m + r) * s == q * (m * s) + r * s;
    }
    assert r * s < m * s;
    RemainderIs(data * s, q, r * s);
  }

  lemma RemainderIs(a: nat, q: nat, r: nat)
    requires a == q * 0x1_0000_0000 + r && r < 0x1_0000_0000
    ensures a % 0x1_0000_0000 == r
  {
  }

  lemma DigitsOfG()
    ensures Digit(G15) == 11 && Digit(G18) == 13
  {
    Powers();
    DigitExact(G15, 10);
    DigitExact(G18, 12);
  }

  lemma DigitExact(a: nat, k: nat)
    requires Shl(1, k) <= a < 2 * Shl(1, k)
    ensures Digit(a) == k + 1
  {
    DigitShort(a, k);
    DigitShort(a, k + 1);
  }

  /** Format information: the code word of the data with the fixed mask over it. */
  method GetBCHTypeInfo(data: nat) returns (bits: nat)
    ensures CodeWord(Xor(bits, G15_MASK), data % 0x40_0000, G15, 10)
  {
    hide Xor, CodeWord, Digit, Shl;
    DigitsOfG();
    Powers();
    var word := Encode(data, G15, 10);
    bits := Xor(word, G15_MASK);
    XorAssoc(word, G15_MASK, G15_MASK);
    XorZero(G15_MASK);
    XorZero(word);
  }

  /** Version information: the code word of the data. */
  method GetBCHTypeNumber(data: nat) returns (bits: nat)
    ensures CodeWord(bits, data % 0x10_0000, G18, 12)
  {
    hide Xor, CodeWord, Digit, Shl;
    DigitsOfG();
    Powers();
    bits := Encode(data, G18, 12);
  }

  // ----- reading code words back -----

  lemma CodeWordData(word: nat, data: nat, g: nat)
    requires CodeWord(word, data, g, 10)
    ensures word / 0x400 == data
  {
    hide Shl, Multiple;
    Powers();
    ShlIsTimes(data, 10);
  }

  /** Whether a word starts with the data it was made from: only what fits in 22 bits survives the shift. */
  lemma StartsWithData(word: nat, data: nat)
    requires CodeWord(word, data % 0x40_0000, G15, 10)
    ensures word / 0x400 == data <==> data < 0x40_0000
  {
    hide CodeWord;
    CodeWordData(word, data % 0x40_0000, G15);
  }

  /** The smallest data that is lost altogether. */
  lemma LongDataIsLost(word: nat)
    requires CodeWord(word, 0x40_0000 % 0x40_0000, G15, 10)
    ensures word == 0
  {
    hide Shl, Digit;
    Powers();
    DigitsOfG();
    ShlIsTimes(0, 10);
    MultipleZero(G15);
    CodeWordUnique(word, 0, 0, G15, 10);
  }

  /** Level and mask are read back from the format information, which has 15 bits. */
  lemma FormatInfo(bits: nat, data: nat)
    requires CodeWord(Xor(bits, G15_MASK), data % 0x40_0000, G15, 10) && data < 32
    ensures bits < 0x8000 && Xor(bits, G15_MASK) / 0x400 == data
  {
    hide Xor, Shl, Digit, Multiple;
    var word := Xor(bits, G15_MASK);
    CodeWordData(word, data, G15);
    assert word < 0x8000;
    XorAssoc(bits, G15_MASK, G15_MASK);
    XorZero(G15_MASK);
    XorZero(bits);
    Power15();
    DigitShort(word, 15);
    DigitShort(G15_MASK, 15);
    XorDigit(word, G15_MASK);
    DigitShort(bits, 15);
  }

  lemma Power15()
    ensures Shl(1, 15) == 0x8000
  {
    Powers();
    assert Shl(1, 5) == 32;
    ShlSum(10, 5);
  }

  lemma FormatWord()
    ensures CodeWord(0x14DC, 5, G15, 10)
  {
    hide Multiple;
    MultipleShl(G15, 2);
    assert Shl(G15, 1) == 0xA6E && Shl(G15, 2) == 0x14DC;
    Powers();
    ShlIsTimes(5, 10);
  }

  lemma VersionWord()
    ensures CodeWord(0x7C94, 7, G18, 12)
  {
    hide Multiple;
    MultipleShl(G18, 2);
    assert Shl(G18, 1) == 0x3E4A && Shl(G18, 2) == 0x7C94;
    Powers();
    ShlIsTimes(7, 12);
  }

  /** Level M with mask 101 has the format information 100000011001110. */
  lemma FormatExample(bits: nat)
    requires CodeWord(Xor(bits, G15_MASK), 5, G15, 10)
    ensures bits == 0x40CE
  {
    hide Xor, CodeWord, Digit;
    DigitsOfG();
    FormatWord();
    CodeWordUnique(Xor(bits, G15_MASK), 0x14DC, 5, G15, 10);
    XorAssoc(bits, G15_MASK, G15_MASK);
    XorZero(G15_MASK);
    XorZero(bits);
    ExampleMasked();
  }

  lemma ExampleMasked()
    ensures Xor(0x14DC, G15_MASK) == 0x40CE
  {
    assert Xor(0x0, 0x1) == 0x1;
    assert Xor(0x0, 0x2) == 0x2;
    assert Xor(0x1, 0x5) == 0x4;
    assert Xor(0x2, 0xA) == 0x8;
    assert Xor(0x5, 0x15) == 0x10;
    assert Xor(0xA, 0x2A) == 0x20;
    assert Xor(0x14, 0x54) == 0x40;
    assert Xor(0x29, 0xA8) == 0x81;
    assert Xor(0x53, 0x150) == 0x103;
    assert Xor(0xA6, 0x2A0) == 0x206;
    assert Xor(0x14D, 0x541) == 0x40C;
    assert Xor(0x29B, 0xA82) == 0x819;
    assert Xor(0x537, 0x1504) == 0x1033;
    assert Xor(0xA6E, 0x2A09) == 0x2067;
    assert Xor(0x14DC, 0x5412) == 0x40CE;
  }

  /** Version 7 has the version information 000111110010010100. */
  lemma VersionExample(bits: nat)
    requires CodeWord(bits, 7, G18, 12)
    ensures bits == 0x7C94
  {
    hide CodeWord, Digit;
    DigitsOfG();
    VersionWord();
    CodeWordUnique(bits, 0x7C94, 7, G18, 12);
  }

  /** The version is read back from the version information, which has 18 bits. */
  lemma VersionInfo(bits: nat, typeNumber: nat)
    requires CodeWord(bits, typeNumber % 0x10_0000, G18, 12) && typeNumber < 64
    ensures bits < 0x4_0000 && bits / 0x1000 == typeNumber
  {
    hide Shl, Multiple;
    Powers();
    ShlIsTimes(typeNumber, 12);
  }
}
