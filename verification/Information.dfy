/** Format and version information (ISO/IEC 18004, sections 7.9 and 7.10), two copies of each, as a reader sees it. */
module Information {
  import opened Bch
  import BinaryPolynomials
  import opened Bits
  import opened JsValues
  import opened Layout
  import opened MapData
  import opened Patterns
  import opened Placement

  // ----- where the bits are, most significant first -----

  /** Along row 8, from the left edge and on to the right one. */
  function FormatAcross(n: nat): (cells: seq<Position>)
    requires n >= 21
    ensures |cells| == 15 && Inside(cells, n)
  {
    [(8, 0), (8, 1), (8, 2), (8, 3), (8, 4), (8, 5), (8, 7)]
    + [(8, n - 8), (8, n - 7), (8, n - 6), (8, n - 5), (8, n - 4), (8, n - 3), (8, n - 2), (8, n - 1)]
  }

  /** Along column 8, from the bottom edge and on to the top one. */
  function FormatDown(n: nat): (cells: seq<Position>)
    requires n >= 21
    ensures |cells| == 15 && Inside(cells, n)
  {
    [(n - 1, 8), (n - 2, 8), (n - 3, 8), (n - 4, 8), (n - 5, 8), (n - 6, 8), (n - 7, 8)]
    + [(8, 8), (7, 8), (5, 8), (4, 8), (3, 8), (2, 8), (1, 8), (0, 8)]
  }

  /** The block beside the upper right finder pattern, six rows of three from its lower right cell on. */
  function VersionRight(n: nat): (cells: seq<Position>)
    requires n >= 21
    ensures |cells| == 18 && Inside(cells, n)
  {
    seq(18, k requires 0 <= k < 18 => ((17 - k) / 3, n - 11 + (17 - k) % 3))
  }

  /** The transposed block above the lower left one. */
  function VersionBelow(n: nat): (cells: seq<Position>)
    requires n >= 21
    ensures |cells| == 18 && Inside(cells, n)
  {
    seq(18, k requires 0 <= k < 18 => (n - 11 + (17 - k) % 3, (17 - k) / 3))
  }

  // ----- the reader -----

  predicate DarkAt(g: Grid, n: nat, x: Position)
    requires ValidGrid(g, n) && x.0 < n && x.1 < n
  {
    g[x.0][x.1] == Some(true)
  }

  function Collect(g: Grid, n: nat, cells: seq<Position>): (bits: seq<bool>)
    requires ValidGrid(g, n) && Inside(cells, n)
    ensures |bits| == |cells| && forall k :: 0 <= k < |cells| ==> bits[k] == DarkAt(g, n, cells[k])
  {
    seq(|cells|, k requires 0 <= k < |cells| => DarkAt(g, n, cells[k]))
  }

  /** The number whose bits the cells show. */
  function ReadNumber(g: Grid, n: nat, cells: seq<Position>): nat
    requires ValidGrid(g, n) && Inside(cells, n)
  {
    FromBits(Collect(g, n, cells))
  }

  /** The data of the format information: level and mask. */
  function FormatData(g: Grid, n: nat): nat
    requires ValidGrid(g, n) && n >= 21
  {
    BinaryPolynomials.Xor(ReadNumber(g, n, FormatAcross(n)), G15_MASK) / 0x400
  }

  /** Both copies of the format information are the same, and from version 7 on both blocks tell the version. */
  predicate CopiesAgree(g: Grid, n: nat, typeNumber: nat)
    requires ValidGrid(g, n) && n >= 21
  {
    && ReadNumber(g, n, FormatDown(n)) == ReadNumber(g, n, FormatAcross(n))
    && (typeNumber >= 7 ==>
      && ReadNumber(g, n, VersionRight(n)) / 0x1000 == typeNumber
      && ReadNumber(g, n, VersionBelow(n)) / 0x1000 == typeNumber)
  }

  // ----- what is read -----

  /** The function cells still show the patterns. */
  ghost predicate Shows(g: Grid, typeNumber: nat, bits: nat, versionBits: nat, test: bool)
    requires 1 <= typeNumber <= 40
  {
    var n := typeNumber * 4 + 17;
    && ValidGrid(g, n)
    && forall r: nat, c: nat :: r < n && c < n && FunctionCell(typeNumber, r, c) ==>
      g[r][c] == PatternCell(typeNumber, bits, versionBits, test, r, c)
  }

  /** A cell that is drawn with bit `i` of a number. */
  ghost predicate DrawnWith(typeNumber: nat, bits: nat, versionBits: nat, x: Position, word: nat, i: nat)
    requires 1 <= typeNumber <= 40
  {
    && x.0 < typeNumber * 4 + 17 && x.1 < typeNumber * 4 + 17 && FunctionCell(typeNumber, x.0, x.1)
    && PatternCell(typeNumber, bits, versionBits, false, x.0, x.1) == Some(BitN(word, i))
  }

  lemma {:induction false} NumberReads(g: Grid, typeNumber: nat, bits: nat, versionBits: nat, cells: seq<Position>,
                                       word: nat)
    requires 1 <= typeNumber <= 40 && Shows(g, typeNumber, bits, versionBits, false)
    requires Inside(cells, typeNumber * 4 + 17) && word < Pow2(|cells|)
    requires forall k :: 0 <= k < |cells| ==> DrawnWith(typeNumber, bits, versionBits, cells[k], word, |cells| - 1 - k)
    ensures ReadNumber(g, typeNumber * 4 + 17, cells) == word
  {
    hide FunctionCell, PatternCell, FromBits, ToBits, Shr, DrawnWith, Shows, Pow2;
    ShownGrid(g, typeNumber, bits, versionBits);
    var n := typeNumber * 4 + 17;
    BitsLength(word, |cells|);
    forall k | 0 <= k < |cells|
      ensures Collect(g, n, cells)[k] == ToBits(word, |cells|)[k]
    {
      BitReads(g, typeNumber, bits, versionBits, cells[k], word, |cells| - 1 - k);
      ToBitsAt(word, |cells|, k);
    }
    assert Collect(g, n, cells) == ToBits(word, |cells|);
    FromToBits(word, |cells|);
  }

  lemma ShownGrid(g: Grid, typeNumber: nat, bits: nat, versionBits: nat)
    requires 1 <= typeNumber <= 40 && Shows(g, typeNumber, bits, versionBits, false)
    ensures ValidGrid(g, typeNumber * 4 + 17)
  {
  }

  lemma BitsLength(word: nat, n: nat)
    ensures |ToBits(word, n)| == n
  {
  }

  lemma BitReads(g: Grid, typeNumber: nat, bits: nat, versionBits: nat, x: Position, word: nat, i: nat)
    requires 1 <= typeNumber <= 40 && Shows(g, typeNumber, bits, versionBits, false)
    requires DrawnWith(typeNumber, bits, versionBits, x, word, i)
    ensures x.0 < |g| && x.1 < |g[x.0]|
    ensures (g[x.0][x.1] == Some(true)) == (Shr(word, i) % 2 == 1)
  {
    hide FunctionCell, PatternCell;
  }

  lemma AcrossDrawn(typeNumber: nat, bits: nat, versionBits: nat, k: nat)
    requires 1 <= typeNumber <= 40 && k < 15
    ensures DrawnWith(typeNumber, bits, versionBits, FormatAcross(typeNumber * 4 + 17)[k], bits, 14 - k)
  {
    hide BitN, AlignCell, GetPatternPosition;
  }

  lemma DownDrawn(typeNumber: nat, bits: nat, versionBits: nat, k: nat)
    requires 1 <= typeNumber <= 40 && k < 15
    ensures DrawnWith(typeNumber, bits, versionBits, FormatDown(typeNumber * 4 + 17)[k], bits, 14 - k)
  {
    hide BitN, AlignCell, GetPatternPosition;
  }

  lemma RightDrawn(typeNumber: nat, bits: nat, versionBits: nat, k: nat)
    requires 7 <= typeNumber <= 40 && k < 18
    ensures DrawnWith(typeNumber, bits, versionBits, VersionRight(typeNumber * 4 + 17)[k], versionBits, 17 - k)
  {
    hide BitN, AlignCell, GetPatternPosition;
  }

  lemma BelowDrawn(typeNumber: nat, bits: nat, versionBits: nat, k: nat)
    requires 7 <= typeNumber <= 40 && k < 18
    ensures DrawnWith(typeNumber, bits, versionBits, VersionBelow(typeNumber * 4 + 17)[k], versionBits, 17 - k)
  {
    hide BitN, AlignCell, GetPatternPosition;
  }

  /** Level and mask are read back from the symbol, the same from both copies. */
  lemma FormatReads(g: Grid, typeNumber: nat, bits: nat, versionBits: nat, level: nat, mask: nat)
    requires 1 <= typeNumber <= 40 && level < 4 && mask < 8 && Shows(g, typeNumber, bits, versionBits, false)
    requires CodeWord(BinaryPolynomials.Xor(bits, G15_MASK), (level * 8 + mask) % 0x40_0000, G15, 10)
    ensures var n := typeNumber * 4 + 17;
            && ValidGrid(g, n) && FormatData(g, n) == level * 8 + mask
            && ReadNumber(g, n, FormatDown(n)) == ReadNumber(g, n, FormatAcross(n)) == bits
  {
    hide CodeWord, BinaryPolynomials.Xor, DrawnWith, Shows, Pow2;
    var n := typeNumber * 4 + 17;
    FormatInfo(bits, level * 8 + mask);
    Powers15And18();
    forall k | 0 <= k < 15
      ensures DrawnWith(typeNumber, bits, versionBits, FormatAcross(n)[k], bits, 14 - k)
      ensures DrawnWith(typeNumber, bits, versionBits, FormatDown(n)[k], bits, 14 - k)
    {
      AcrossDrawn(typeNumber, bits, versionBits, k);
      DownDrawn(typeNumber, bits, versionBits, k);
    }
    ShownGrid(g, typeNumber, bits, versionBits);
    NumberReads(g, typeNumber, bits, versionBits, FormatAcross(n), bits);
    NumberReads(g, typeNumber, bits, versionBits, FormatDown(n), bits);
  }

  /** The version is read back from either block. */
  lemma VersionReads(g: Grid, typeNumber: nat, bits: nat, versionBits: nat)
    requires 7 <= typeNumber <= 40 && Shows(g, typeNumber, bits, versionBits, false)
    requires CodeWord(versionBits, typeNumber % 0x10_0000, G18, 12)
    ensures var n := typeNumber * 4 + 17;
            && ValidGrid(g, n)
            && ReadNumber(g, n, VersionRight(n)) / 0x1000 == typeNumber
            && ReadNumber(g, n, VersionBelow(n)) / 0x1000 == typeNumber
  {
    hide CodeWord, DrawnWith, Shows, Pow2;
    var n := typeNumber * 4 + 17;
    VersionInfo(versionBits, typeNumber);
    Powers15And18();
    forall k | 0 <= k < 18
      ensures DrawnWith(typeNumber, bits, versionBits, VersionRight(n)[k], versionBits, 17 - k)
      ensures DrawnWith(typeNumber, bits, versionBits, VersionBelow(n)[k], versionBits, 17 - k)
    {
      RightDrawn(typeNumber, bits, versionBits, k);
      BelowDrawn(typeNumber, bits, versionBits, k);
    }
    ShownGrid(g, typeNumber, bits, versionBits);
    NumberReads(g, typeNumber, bits, versionBits, VersionRight(n), versionBits);
    NumberReads(g, typeNumber, bits, versionBits, VersionBelow(n), versionBits);
  }

  lemma Powers15And18()
    ensures Pow2(15) == 0x8000 && Pow2(18) == 0x4_0000
  {
    assert Pow2(5) == 32;
    assert Pow2(10) == 1024;
  }

  /** The dark module is dark. */
  lemma DarkModule(typeNumber: nat, bits: nat, versionBits: nat)
    requires 1 <= typeNumber <= 40
    ensures PatternCell(typeNumber, bits, versionBits, false, typeNumber * 4 + 9, 8) == Some(true)
  {
    hide AlignCell, GetPatternPosition, BitN;
  }

  /** A trial run for scoring draws all information light. */
  lemma TrialIsLight(typeNumber: nat, bits: nat, versionBits: nat, r: nat, c: nat)
    requires 1 <= typeNumber <= 40
    requires var n := typeNumber * 4 + 17;
             || (r, c) in FormatAcross(n) || (r, c) in FormatDown(n) || (r == n - 8 && c == 8)
             || (typeNumber >= 7 && ((r, c) in VersionRight(n) || (r, c) in VersionBelow(n)))
    ensures PatternCell(typeNumber, bits, versionBits, true, r, c) == Some(false)
  {
    hide AlignCell, GetPatternPosition, BitN;
  }
}
