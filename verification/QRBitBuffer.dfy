/** Bits, most significant first, and the encoder's bit buffer as a sequence of them. */
module Bits {
  import opened Gf256

  /** The mask of bit `k`, counted from the most significant one. */
  function Mask(k: nat): bv8
    requires k < 8
  {
    if k == 0 then 0x80 else if k == 1 then 0x40 else if k == 2 then 0x20 else if k == 3 then 0x10
    else if k == 4 then 0x08 else if k == 5 then 0x04 else if k == 6 then 0x02 else 0x01
  }

  predicate BitOf(b: bv8, k: nat)
    requires k < 8
  {
    b & Mask(k) != 0
  }

  lemma MaskIsShift(k: nat)
    requires k < 8
    ensures (0x80 as bv8) >> k == Mask(k)
  {
    assert k == 0 || k == 1 || k == 2 || k == 3 || k == 4 || k == 5 || k == 6 || k == 7;
  }

  lemma BitOfIsShift(b: bv8, k: nat)
    requires k < 8
    ensures (b >> (7 - k)) & 1 == 1 <==> BitOf(b, k)
  {
    assert k == 0 || k == 1 || k == 2 || k == 3 || k == 4 || k == 5 || k == 6 || k == 7;
  }

  lemma SetBit(b: bv8, k: nat, j: nat)
    requires k < 8 && j < 8
    ensures BitOf(b | Mask(k), j) <==> j == k || BitOf(b, j)
  {
    assert k == 0 || k == 1 || k == 2 || k == 3 || k == 4 || k == 5 || k == 6 || k == 7;
    assert j == 0 || j == 1 || j == 2 || j == 3 || j == 4 || j == 5 || j == 6 || j == 7;
  }

  lemma ZeroBit(k: nat)
    requires k < 8
    ensures !BitOf(0, k)
  {
  }

  lemma EqualBits(a: bv8, b: bv8)
    requires forall k :: 0 <= k < 8 ==> BitOf(a, k) == BitOf(b, k)
    ensures a == b
  {
    assert BitOf(a, 0) == BitOf(b, 0) && BitOf(a, 1) == BitOf(b, 1) && BitOf(a, 2) == BitOf(b, 2)
           && BitOf(a, 3) == BitOf(b, 3);
    assert BitOf(a, 4) == BitOf(b, 4) && BitOf(a, 5) == BitOf(b, 5) && BitOf(a, 6) == BitOf(b, 6)
           && BitOf(a, 7) == BitOf(b, 7);
  }

  /** Bit `k` of a byte sequence. */
  predicate BitAt(bytes: seq<bv8>, k: nat)
    requires k < 8 * |bytes|
  {
    BitOf(bytes[k / 8], k % 8)
  }

  /** All bits of a byte sequence. */
  function BytesBits(bytes: seq<bv8>): (bits: seq<bool>)
    ensures |bits| == 8 * |bytes|
  {
    seq(8 * |bytes|, k requires 0 <= k < 8 * |bytes| => BitAt(bytes, k))
  }

  /** The low `n` bits of a number. */
  function ToBits(num: nat, n: nat): (bits: seq<bool>)
    ensures |bits| == n
  {
    if n == 0 then [] else ToBits(num / 2, n - 1) + [num % 2 == 1]
  }

  function FromBits(bits: seq<bool>): nat {
    if bits == [] then 0 else 2 * FromBits(bits[..|bits| - 1]) + if bits[|bits| - 1] then 1 else 0
  }

  function Pow2(n: nat): (p: nat)
    ensures p > 0
  {
    if n == 0 then 1 else 2 * Pow2(n - 1)
  }

  /** Unsigned shift to the right. */
  function Shr(num: nat, k: nat): nat {
    if k == 0 then num else Shr(num, k - 1) / 2
  }

  lemma {:induction false} FromToBits(num: nat, n: nat)
    requires num < Pow2(n)
    ensures FromBits(ToBits(num, n)) == num
  {
    if n > 0 {
      FromToBits(num / 2, n - 1);
      assert ToBits(num, n)[..n - 1] == ToBits(num / 2, n - 1);
    }
  }

  /** The first bit has the highest place value. */
  lemma {:induction false} LeadingBit(bits: seq<bool>)
    requires bits != []
    ensures FromBits(bits) == (if bits[0] then Pow2(|bits| - 1) else 0) + FromBits(bits[1..])
  {
    var n := |bits| - 1;
    if n > 0 {
      LeadingBit(bits[..n]);
      assert bits[..n][1..] == bits[1..][..n - 1];
    } else {
      assert bits[..n] == [] && bits[1..] == [];
    }
  }

  lemma {:induction false} FromBitsBound(bits: seq<bool>)
    ensures FromBits(bits) < Pow2(|bits|)
  {
    if bits != [] {
      FromBitsBound(bits[..|bits| - 1]);
    }
  }

  lemma ByteHalf(b: bv8)
    ensures Value(b) / 2 == Value(b >> 1)
    ensures Value(b) % 2 == 1 <==> b & 1 == 1
  {
  }

  /** The eight bits of a byte, written as a number. */
  lemma {:induction false} ToBitsByte(b: bv8, n: nat)
    requires n <= 8
    ensures forall k :: 0 <= k < n ==> ToBits(Value(b), n)[k] == BitOf(b, 8 - n + k)
  {
    hide Value;
    if n > 0 {
      ByteHalf(b);
      ToBitsByte(b >> 1, n - 1);
      forall k | 0 <= k < n
        ensures ToBits(Value(b), n)[k] == BitOf(b, 8 - n + k)
      {
        if k < n - 1 {
          ShiftedBit(b, 8 - n + k);
        } else {
          LastBit(b);
        }
      }
    }
  }

  lemma ShiftedBit(b: bv8, k: nat)
    requires k < 7
    ensures BitOf(b >> 1, k + 1) == BitOf(b, k)
  {
    assert k == 0 || k == 1 || k == 2 || k == 3 || k == 4 || k == 5 || k == 6;
  }

  lemma LastBit(b: bv8)
    ensures b & 1 == 1 <==> BitOf(b, 7)
  {
  }

  lemma ToBitsOfByte(b: bv8)
    ensures ToBits(Value(b), 8) == BytesBits([b])
  {
    hide Value, ToBits;
    ToBitsByte(b, 8);
  }

  lemma BytesBitsConcat(a: seq<bv8>, b: seq<bv8>)
    ensures BytesBits(a + b) == BytesBits(a) + BytesBits(b)
  {
    hide BitOf;
    forall k | 0 <= k < 8 * (|a| + |b|)
      ensures BytesBits(a + b)[k] == (BytesBits(a) + BytesBits(b))[k]
    {
      if k >= 8 * |a| {
        assert (k - 8 * |a|) / 8 == k / 8 - |a| && (k - 8 * |a|) % 8 == k % 8;
      }
    }
  }

  lemma BytesBitsInjective(a: seq<bv8>, b: seq<bv8>)
    requires BytesBits(a) == BytesBits(b)
    ensures a == b
  {
    hide BitOf;
    assert |a| == |b|;
    forall i | 0 <= i < |a|
      ensures a[i] == b[i]
    {
      forall k | 0 <= k < 8
        ensures BitOf(a[i], k) == BitOf(b[i], k)
      {
        assert BytesBits(a)[8 * i + k] == BytesBits(b)[8 * i + k];
      }
      EqualBits(a[i], b[i]);
    }
  }

  /**
   * What `n` shifts by n - 1, ..., 1, 0 pick out of a number, where only the last five bits of a shift count matter.
   */
  function WordBits(num: nat, n: nat): (bits: seq<bool>)
    ensures |bits| == n
  {
    seq(n, i requires 0 <= i < n => Shr(num, (n - 1 - i) % 32) % 2 == 1)
  }

  lemma {:induction false} ShrHalf(num: nat, k: nat)
    ensures Shr(num / 2, k) == Shr(num, k + 1)
  {
    if k > 0 {
      ShrHalf(num, k - 1);
    }
  }

  lemma {:induction false} ToBitsAt(num: nat, n: nat, i: nat)
    requires i < n
    ensures ToBits(num, n)[i] == (Shr(num, n - 1 - i) % 2 == 1)
  {
    if i < n - 1 {
      ToBitsAt(num / 2, n - 1, i);
      ShrHalf(num, n - 2 - i);
    }
  }

  /** Up to the width of a word, these are the low bits of the number. */
  lemma WordIsBits(num: nat, n: nat)
    requires n <= 32
    ensures WordBits(num, n) == ToBits(num, n)
  {
    hide ToBits, Shr;
    forall i | 0 <= i < n
      ensures WordBits(num, n)[i] == ToBits(num, n)[i]
    {
      ToBitsAt(num, n, i);
    }
  }
}

module QRBitBuffer {
  import opened Bits
  import opened Gf256

  lemma PutBitDone(before: seq<bv8>, n: nat, bit: bool, after: seq<bv8>)
    requires 8 * |before| >= n > 8 * |before| - 8
    requires forall k :: n <= k < 8 * |before| ==> !BitAt(before, k)
    requires var grown := if |before| <= n / 8 then before + [0] else before;
             after == if bit then grown[n / 8 := grown[n / 8] | ((0x80 as bv8) >> (n % 8))] else grown
    ensures 8 * |after| >= n + 1 > 8 * |after| - 8
    ensures forall k :: n < k < 8 * |after| ==> !BitAt(after, k)
    ensures BytesBits(after)[..n + 1] == BytesBits(before)[..n] + [bit]
  {
    hide BitOf, Mask;
    MaskIsShift(n % 8);
    var grown := if |before| <= n / 8 then before + [0] else before;
    forall k | 0 <= k < 8 * |after|
      ensures BitAt(after, k) == if k < n then BitAt(before, k) else bit && k == n
    {
      if k >= 8 * |before| {
        ZeroBit(k % 8);
      } else if k >= n {
        assert !BitAt(before, k);
      }
      assert BitOf(grown[k / 8], k % 8) == (k < n && BitAt(before, k));
      SetBit(grown[n / 8], n % 8, k % 8);
      assert k / 8 == n / 8 && k % 8 == n % 8 ==> k == n;
    }
  }

  class QRBitBuffer {
    var buffer: seq<bv8>
    var length: nat

    /** The buffer has just enough bytes, and the unused bits of the last one are clear. */
    ghost predicate Valid()
      reads this
    {
      && 8 * |buffer| >= length > 8 * |buffer| - 8
      && forall k :: length <= k < 8 * |buffer| ==> !BitAt(buffer, k)
    }

    /** The bits written so far. */
    ghost function Contents(): (bits: seq<bool>)
      requires Valid()
      reads this
      ensures |bits| == length
    {
      BytesBits(buffer)[..length]
    }

    constructor ()
      ensures Valid() && Contents() == []
    {
      buffer := [];
      length := 0;
    }

    /** The bit at an index; past the end there are only zeros. */
    method Get(index: nat) returns (bit: bool)
      requires Valid()
      ensures bit <==> index < length && Contents()[index]
    {
      hide BitOf;
      var bufIndex := index / 8;
      if bufIndex >= |buffer| {
        return false;
      }
      BitOfIsShift(buffer[bufIndex], index % 8);
      assert BitAt(buffer, index) ==> index < length;
      return (buffer[bufIndex] >> (7 - index % 8)) & 1 == 1;
    }

    method PutBit(bit: bool)
      requires Valid()
      modifies this
      ensures Valid() && Contents() == old(Contents()) + [bit]
    {
      var bufIndex := length / 8;
      if |buffer| <= bufIndex {
        buffer := buffer + [0];
      }
      if bit {
        buffer := buffer[bufIndex := buffer[bufIndex] | ((0x80 as bv8) >> (length % 8))];
      }
      length := length + 1;
      PutBitDone(old(buffer), old(length), bit, buffer);
    }

    /** Appends the low `n` bits of a number, most significant first; past the width of a word they repeat. */
    method Put(num: nat, n: nat)
      requires Valid()
      modifies this
      ensures Valid() && Contents() == old(Contents()) + WordBits(num, n)
      ensures n <= 32 ==> Contents() == old(Contents()) + ToBits(num, n)
    {
      hide Shr, ToBits, BytesBits;
      for i := 0 to n
        invariant Valid()
        invariant Contents() == old(Contents()) + WordBits(num, n)[..i]
      {
        PutBit(Shr(num, (n - i - 1) % 32) % 2 == 1);
        assert WordBits(num, n)[..i + 1] == WordBits(num, n)[..i] + [WordBits(num, n)[i]];
      }
      if n <= 32 {
        WordIsBits(num, n);
      }
    }
  }
}
