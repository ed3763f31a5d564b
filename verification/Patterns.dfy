/**
 The function patterns of a symbol (ISO/IEC 18004, sections 6.3, 7.9 and 7.10): finder patterns, alignment patterns,
 timing patterns, format and version information, each as the encoder draws it and as a function of the cell.
 */
module Patterns {
  import opened Bch
  import BinaryPolynomials
  import opened Bits
  import opened JsValues
  import opened MapData
  import opened Placement

  type Dark = Option<bool>

  /** What is drawn at a cell, if anything, over what was there. */
  function Over(drawn: Dark, before: Dark): Dark {
    if drawn.Some? then drawn else before
  }

  // ----- finder patterns -----

  /** Three squares inside each other; `r` and `c` count from the corner of the middle one. */
  predicate ProbeDark(r: int, c: int) {
    || (0 <= r <= 6 && (c == 0 || c == 6))
    || (0 <= c <= 6 && (r == 0 || r == 6))
    || (2 <= r <= 4 && 2 <= c <= 4)
  }

  /** A finder pattern with its separator, with its corner at (row, col). */
  function ProbeCell(row: int, col: int, r: int, c: int): Dark {
    if row - 1 <= r <= row + 7 && col - 1 <= c <= col + 7 then Some(ProbeDark(r - row, c - col)) else None
  }

  const FINDER := [
    ".........",
    ".#######.",
    ".#.....#.",
    ".#.###.#.",
    ".#.###.#.",
    ".#.###.#.",
    ".#.....#.",
    ".#######.",
    "........."
  ]

  /** The pattern as it looks, separator and all: along its middle lines the runs are 1:1:3:1:1. */
  lemma FinderTile(row: int, col: int, r: nat, c: nat)
    requires r < 9 && c < 9
    ensures |FINDER| == 9 && |FINDER[r]| == 9
    ensures ProbeCell(row, col, row - 1 + r, col - 1 + c) == Some(FINDER[r][c] == '#')
  {
    assert r == 0 || r == 1 || r == 2 || r == 3 || r == 4 || r == 5 || r == 6 || r == 7 || r == 8;
  }

  method SetupPositionProbePattern(model: QRCodeModel, row: nat, col: nat)
    requires model.Valid() && row + 7 <= model.moduleCount && col + 7 <= model.moduleCount
    modifies model.modules
    ensures forall r, c :: 0 <= r < model.moduleCount && 0 <= c < model.moduleCount ==>
              model.modules[r, c] == Over(ProbeCell(row, col, r, c), old(model.modules[r, c]))
  {
    hide ProbeDark;
    var n := model.moduleCount;
    for i := -1 to 8
      invariant forall r, c :: 0 <= r < n && 0 <= c < n ==>
                  model.modules[r, c] == Over(if r < row + i then ProbeCell(row, col, r, c) else None,
                                              old(model.modules[r, c]))
    {
      if row + i <= -1 || n <= row + i {
        continue;
      }
      for j := -1 to 8
        invariant forall r, c :: 0 <= r < n && 0 <= c < n ==>
                    model.modules[r, c]
                    == Over(if r < row + i || (r == row + i && c < col + j) then ProbeCell(row, col, r, c) else None,
                            old(model.modules[r, c]))
      {
        if col + j <= -1 || n <= col + j {
          continue;
        }
        model.modules[row + i, col + j] := Some(ProbeDark(i, j));
      }
    }
  }

  // ----- alignment patterns -----

  function GetPatternPosition(typeNumber: int): seq<nat>
    requires 1 <= typeNumber <= 40
  {
    match typeNumber
    case 1 => []
    case 2 => [6, 18]
    case 3 => [6, 22]
    case 4 => [6, 26]
    case 5 => [6, 30]
    case 6 => [6, 34]
    case 7 => [6, 22, 38]
    case 8 => [6, 24, 42]
    case 9 => [6, 26, 46]
    case 10 => [6, 28, 50]
    case 11 => [6, 30, 54]
    case 12 => [6, 32, 58]
    case 13 => [6, 34, 62]
    case 14 => [6, 26, 46, 66]
    case 15 => [6, 26, 48, 70]
    case 16 => [6, 26, 50, 74]
    case 17 => [6, 30, 54, 78]
    case 18 => [6, 30, 56, 82]
    case 19 => [6, 30, 58, 86]
    case 20 => [6, 34, 62, 90]
    case 21 => [6, 28, 50, 72, 94]
    case 22 => [6, 26, 50, 74, 98]
    case 23 => [6, 30, 54, 78, 102]
    case 24 => [6, 28, 54, 80, 106]
    case 25 => [6, 32, 58, 84, 110]
    case 26 => [6, 30, 58, 86, 114]
    case 27 => [6, 34, 62, 90, 118]
    case 28 => [6, 26, 50, 74, 98, 122]
    case 29 => [6, 30, 54, 78, 102, 126]
    case 30 => [6, 26, 52, 78, 104, 130]
    case 31 => [6, 30, 56, 82, 108, 134]
    case 32 => [6, 34, 60, 86, 112, 138]
    case 33 => [6, 30, 58, 86, 114, 142]
    case 34 => [6, 34, 62, 90, 118, 146]
    case 35 => [6, 30, 54, 78, 102, 126, 150]
    case 36 => [6, 24, 50, 76, 102, 128, 154]
    case 37 => [6, 28, 54, 80, 106, 132, 158]
    case 38 => [6, 32, 58, 84, 110, 136, 162]
    case 39 => [6, 26, 54, 82, 110, 138, 166]
    case _ => [6, 30, 58, 86, 114, 142, 170]
  }

  predicate AlignDark(r: int, c: int) {
    r == -2 || r == 2 || c == -2 || c == 2 || (r == 0 && c == 0)
  }

  const ALIGNMENT := ["#####", "#...#", "#.#.#", "#...#", "#####"]

  /** The pattern as it looks: along its middle lines the runs are 1:1:1:1:1. */
  lemma AlignmentTile(r: nat, c: nat)
    requires r < 5 && c < 5
    ensures |ALIGNMENT[r]| == 5 && (AlignDark(r - 2, c - 2) <==> ALIGNMENT[r][c] == '#')
  {
    assert r == 0 || r == 1 || r == 2 || r == 3 || r == 4;
  }

  predicate Near(x: int, p: int) {
    p - 2 <= x <= p + 2
  }

  /** The position within two cells of `x`, if any. */
  function NearIndex(pos: seq<nat>, x: int): Option<nat> {
    if pos == [] then None
    else if Near(x, pos[|pos| - 1]) then Some(|pos| - 1)
    else NearIndex(pos[..|pos| - 1], x)
  }

  /** The three pairs of positions that finder patterns occupy. */
  predicate Taken(k: nat, i: nat, j: nat) {
    (i == 0 && j == 0) || (i == 0 && j == k - 1) || (i == k - 1 && j == 0)
  }

  /** The alignment patterns: a square around every pair of positions that is not taken. */
  function AlignCell(pos: seq<nat>, r: int, c: int): Dark {
    match (NearIndex(pos, r), NearIndex(pos, c))
    case (Some(i), Some(j)) =>
      if i < |pos| && j < |pos| && !Taken(|pos|, i, j) then Some(AlignDark(r - pos[i], c - pos[j])) else None
    case _ => None
  }

  /** Positions run from 6 to the opposite finder pattern, at least 12 apart. */
  ghost predicate Spaced(pos: seq<nat>, n: nat) {
    && (forall i :: 0 <= i < |pos| ==> 6 <= pos[i] <= n - 7)
    && (forall i, j :: 0 <= i < j < |pos| ==> pos[i] + 12 <= pos[j])
    && (pos != [] ==> |pos| >= 2 && pos[0] == 6 && pos[|pos| - 1] == n - 7)
  }

  lemma {:induction false} NearOnly(pos: seq<nat>, n: nat, x: int, i: nat)
    requires i < |pos| && forall i, j :: 0 <= i < j < |pos| ==> pos[i] + 12 <= pos[j]
    ensures NearIndex(pos, x) == Some(i) <==> Near(x, pos[i])
    ensures NearIndex(pos, x).Some? ==> NearIndex(pos, x).value < |pos|
  {
    NearFound(pos, x);
    if Near(x, pos[i]) {
      var k := NearIndex(pos, x).value;
      assert k == i;
    }
  }

  lemma {:induction false} NearFound(pos: seq<nat>, x: int)
    ensures NearIndex(pos, x).Some? <==> exists i :: 0 <= i < |pos| && Near(x, pos[i])
    ensures NearIndex(pos, x).Some? ==> NearIndex(pos, x).value < |pos| && Near(x, pos[NearIndex(pos, x).value])
  {
    if pos != [] {
      var n := |pos| - 1;
      NearFound(pos[..n], x);
      if i :| 0 <= i < |pos| && Near(x, pos[i]) {
        assert i < n ==> pos[..n][i] == pos[i];
      }
    }
  }

  ghost predicate SquareDrawn(before: Grid, after: Grid, n: nat, row: nat, col: nat) {
    && ValidGrid(before, n) && ValidGrid(after, n)
    && forall r, c {:trigger after[r][c]} :: 0 <= r < n && 0 <= c < n ==>
      after[r][c] == if Near(r, row) && Near(c, col) then Some(AlignDark(r - row, c - col)) else before[r][c]
  }

  method DrawSquare(model: QRCodeModel, row: nat, col: nat)
    requires model.Valid() && 2 <= row < model.moduleCount - 2 && 2 <= col < model.moduleCount - 2
    modifies model.modules
    ensures SquareDrawn(old(model.Modules()), model.Modules(), model.moduleCount, row, col)
  {
    hide AlignDark;
    var n := model.moduleCount;
    for i := -2 to 3
      invariant forall r, c :: 0 <= r < n && 0 <= c < n ==>
                  model.modules[r, c]
                  == if Near(r, row) && Near(c, col) && r < row + i then Some(AlignDark(r - row, c - col))
                     else old(model.modules[r, c])
    {
      for j := -2 to 3
        invariant forall r, c :: 0 <= r < n && 0 <= c < n ==>
                    model.modules[r, c]
                    == if Near(r, row) && Near(c, col) && (r < row + i || (r == row + i && c < col + j))
                       then Some(AlignDark(r - row, c - col)) else old(model.modules[r, c])
      {
        model.modules[row + i, col + j] := Some(AlignDark(i, j));
      }
    }
  }

  /** The pairs before (i, j), in the order of the loops. */
  predicate Before(i': nat, j': nat, i: nat, j: nat) {
    i' < i || (i' == i && j' < j)
  }

  /** The alignment patterns of the pairs before (i, j). */
  function AlignedSoFar(pos: seq<nat>, i: nat, j: nat, r: int, c: int): Dark {
    match (NearIndex(pos, r), NearIndex(pos, c))
    case (Some(i'), Some(j')) => if Before(i', j', i, j) then AlignCell(pos, r, c) else None
    case _ => None
  }

  /** The grid shows the alignment patterns of the pairs before (i, j), and is as before everywhere else. */
  ghost predicate Aligned(before: Grid, after: Grid, n: nat, pos: seq<nat>, i: nat, j: nat) {
    && ValidGrid(before, n) && ValidGrid(after, n)
    && forall r, c {:trigger after[r][c]} :: 0 <= r < n && 0 <= c < n ==>
      after[r][c] == Over(AlignedSoFar(pos, i, j, r, c), before[r][c])
  }

  /** Only the centres of pairs that are taken are drawn already. */
  ghost predicate CentresFree(g: Grid, n: nat, pos: seq<nat>)
    requires ValidGrid(g, n) && Spaced(pos, n)
  {
    forall i, j :: 0 <= i < |pos| && 0 <= j < |pos| ==> (g[pos[i]][pos[j]] != None <==> Taken(|pos|, i, j))
  }

  method SetupPositionAdjustPattern(model: QRCodeModel, pos: seq<nat>)
    requires model.Valid() && Spaced(pos, model.moduleCount) && CentresFree(model.Modules(), model.moduleCount, pos)
    modifies model.modules
    ensures forall r, c :: 0 <= r < model.moduleCount && 0 <= c < model.moduleCount ==>
              model.modules[r, c] == Over(AlignCell(pos, r, c), old(model.modules[r, c]))
  {
    hide Aligned, CentresFree, SquareDrawn, Spaced;
    ghost var n, before := model.moduleCount, model.Modules();
    NoSquares(before, n, pos);
    for i := 0 to |pos|
      invariant Aligned(before, model.Modules(), n, pos, i, 0)
    {
      for j := 0 to |pos|
        invariant Aligned(before, model.Modules(), n, pos, i, j)
      {
        ghost var mid := model.Modules();
        CentreInside(pos, n, i);
        CentreInside(pos, n, j);
        var row, col := pos[i], pos[j];
        CentreIsFree(before, mid, n, pos, i, j);
        if model.modules[row, col] != None {
          continue;
        }
        DrawSquare(model, row, col);
        SquareAligned(before, mid, model.Modules(), n, pos, i, j);
      }
      RowAligned(before, model.Modules(), n, pos, i);
    }
    AllAligned(before, model.Modules(), n, pos);
  }

  lemma CentreInside(pos: seq<nat>, n: nat, i: nat)
    requires Spaced(pos, n) && i < |pos|
    ensures 6 <= pos[i] <= n - 7
  {
  }

  lemma NoSquares(before: Grid, n: nat, pos: seq<nat>)
    requires ValidGrid(before, n)
    ensures Aligned(before, before, n, pos, 0, 0)
  {
  }

  /** At its turn the centre of a pair is drawn exactly if the pair is taken, and then there is nothing to add. */
  lemma CentreIsFree(before: Grid, mid: Grid, n: nat, pos: seq<nat>, i: nat, j: nat)
    requires Spaced(pos, n) && i < |pos| && j < |pos| && Aligned(before, mid, n, pos, i, j)
             && CentresFree(before, n, pos)
    ensures mid[pos[i]][pos[j]] != None <==> Taken(|pos|, i, j)
    ensures Taken(|pos|, i, j) ==> Aligned(before, mid, n, pos, i, j + 1)
  {
    hide AlignDark, AlignedSoFar;
    NextCentre(pos, n, i, j);
    assert mid[pos[i]][pos[j]] == Over(AlignedSoFar(pos, i, j, pos[i], pos[j]), before[pos[i]][pos[j]]);
    if Taken(|pos|, i, j) {
      forall r, c | 0 <= r < n && 0 <= c < n
        ensures mid[r][c] == Over(AlignedSoFar(pos, i, j + 1, r, c), before[r][c])
      {
        NextSquareAt(pos, n, i, j, r, c);
      }
    }
  }

  lemma SquareAligned(before: Grid, mid: Grid, after: Grid, n: nat, pos: seq<nat>, i: nat, j: nat)
    requires Spaced(pos, n) && i < |pos| && j < |pos| && !Taken(|pos|, i, j)
    requires Aligned(before, mid, n, pos, i, j) && SquareDrawn(mid, after, n, pos[i], pos[j])
    ensures Aligned(before, after, n, pos, i, j + 1)
  {
    hide AlignedSoFar;
    forall r, c | 0 <= r < n && 0 <= c < n
      ensures after[r][c] == Over(AlignedSoFar(pos, i, j + 1, r, c), before[r][c])
    {
      NextSquareAt(pos, n, i, j, r, c);
    }
  }

  lemma RowAligned(before: Grid, after: Grid, n: nat, pos: seq<nat>, i: nat)
    requires Spaced(pos, n) && i < |pos| && Aligned(before, after, n, pos, i, |pos|)
    ensures Aligned(before, after, n, pos, i + 1, 0)
  {
    hide AlignedSoFar;
    RowOfSquares(pos, n, i);
  }

  lemma AllAligned(before: Grid, after: Grid, n: nat, pos: seq<nat>)
    requires Spaced(pos, n) && Aligned(before, after, n, pos, |pos|, 0)
    ensures forall r, c :: 0 <= r < n && 0 <= c < n ==> after[r][c] == Over(AlignCell(pos, r, c), before[r][c])
  {
    hide AlignedSoFar, AlignCell;
    AllSquares(pos, n);
  }

  /** The square that the next pair adds. */
  lemma NextSquareAt(pos: seq<nat>, n: nat, i: nat, j: nat, r: int, c: int)
    requires Spaced(pos, n) && i < |pos| && j < |pos|
    ensures AlignedSoFar(pos, i, j + 1, r, c)
            == if Near(r, pos[i]) && Near(c, pos[j]) && !Taken(|pos|, i, j) then Some(AlignDark(r - pos[i], c - pos[j]))
               else AlignedSoFar(pos, i, j, r, c)
  {
    hide AlignDark, Near;
    NearOnly(pos, n, r, i);
    NearOnly(pos, n, c, j);
  }

  /** Until then its centre is free. */
  lemma NextCentre(pos: seq<nat>, n: nat, i: nat, j: nat)
    requires Spaced(pos, n) && i < |pos| && j < |pos|
    ensures AlignedSoFar(pos, i, j, pos[i], pos[j]) == None
  {
    hide AlignDark;
    NearOnly(pos, n, pos[i], i);
    NearOnly(pos, n, pos[j], j);
  }

  lemma RowOfSquares(pos: seq<nat>, n: nat, i: nat)
    requires Spaced(pos, n) && i < |pos|
    ensures forall r: int, c: int :: AlignedSoFar(pos, i, |pos|, r, c) == AlignedSoFar(pos, i + 1, 0, r, c)
  {
    hide AlignDark;
    forall r: int, c: int
      ensures AlignedSoFar(pos, i, |pos|, r, c) == AlignedSoFar(pos, i + 1, 0, r, c)
    {
      NearFound(pos, c);
    }
  }

  lemma AllSquares(pos: seq<nat>, n: nat)
    requires Spaced(pos, n)
    ensures forall r: int, c: int :: AlignedSoFar(pos, |pos|, 0, r, c) == AlignCell(pos, r, c)
  {
    hide AlignDark;
    forall r: int, c: int
      ensures AlignedSoFar(pos, |pos|, 0, r, c) == AlignCell(pos, r, c)
    {
      NearFound(pos, r);
    }
  }

  // ----- timing patterns -----

  /** Column 6 and row 6 between the finder patterns, alternating. */
  function TimingCell(n: nat, r: int, c: int): Dark {
    if c == 6 && 8 <= r < n - 8 then Some(r % 2 == 0)
    else if r == 6 && 8 <= c < n - 8 then Some(c % 2 == 0)
    else None
  }

  /** The timing patterns start dark at both ends and alternate. */
  lemma TimingAlternates(n: nat, k: nat)
    requires n % 2 == 1 && 8 <= k < n - 8
    ensures TimingCell(n, 6, 8) == Some(true) && TimingCell(n, 6, n - 9) == Some(true)
    ensures TimingCell(n, 6, k) == TimingCell(n, k, 6)
    ensures k + 1 < n - 8 ==> TimingCell(n, 6, k + 1) == Some(!TimingCell(n, 6, k).value)
  {
  }

  /** Timing cells are drawn only where there is nothing yet. */
  method SetupTimingPattern(model: QRCodeModel)
    requires model.Valid()
    modifies model.modules
    ensures forall r, c :: 0 <= r < model.moduleCount && 0 <= c < model.moduleCount ==>
              model.modules[r, c] == Over(old(model.modules[r, c]), TimingCell(model.moduleCount, r, c))
  {
    var n := model.moduleCount;
    if n >= 16 {
      for r := 8 to n - 8
        invariant forall r', c' :: 0 <= r' < n && 0 <= c' < n ==>
                    model.modules[r', c'] == Over(old(model.modules[r', c']),
                                                  if c' == 6 && r' < r then TimingCell(n, r', c') else None)
      {
        if model.modules[r, 6] != None {
          continue;
        }
        model.modules[r, 6] := Some(r % 2 == 0);
      }
      for c := 8 to n - 8
        invariant forall r', c' :: 0 <= r' < n && 0 <= c' < n ==>
                    model.modules[r', c'] == Over(old(model.modules[r', c']),
                                                  if c' == 6 || c' < c then TimingCell(n, r', c') else None)
      {
        if model.modules[6, c] != None {
          continue;
        }
        model.modules[6, c] := Some(c % 2 == 0);
      }
    }
  }

  // ----- format information -----

  predicate BitN(bits: nat, i: nat) {
    Shr(bits, i) % 2 == 1
  }

  /** The bit of the format information that column 8 has in row `r`, and row 8 in column `c`. */
  function VerticalBit(n: nat, r: int): Option<nat> {
    if 0 <= r <= 5 then Some(r)
    else if r == 7 || r == 8 then Some(r - 1)
    else if n - 7 <= r < n then Some(r + 15 - n)
    else None
  }

  function HorizontalBit(n: nat, c: int): Option<nat> {
    if 0 <= c <= 5 then Some(14 - c)
    else if c == 7 then Some(8)
    else if n - 8 <= c < n then Some(n - 1 - c)
    else None
  }

  function FormatCell(n: nat, bits: nat, test: bool, r: int, c: int): Dark {
    if r == n - 8 && c == 8 then Some(!test)
    else if c == 8 && VerticalBit(n, r).Some? then Some(!test && BitN(bits, VerticalBit(n, r).value))
    else if r == 8 && HorizontalBit(n, c).Some? then Some(!test && BitN(bits, HorizontalBit(n, c).value))
    else None
  }

  /** The first `i` bits of either copy. */
  function VerticalCell(n: nat, bits: nat, test: bool, i: nat, r: int, c: int): Dark {
    if c == 8 && VerticalBit(n, r).Some? && VerticalBit(n, r).value < i
    then Some(!test && BitN(bits, VerticalBit(n, r).value)) else None
  }

  function HorizontalCell(n: nat, bits: nat, test: bool, i: nat, r: int, c: int): Dark {
    if r == 8 && HorizontalBit(n, c).Some? && HorizontalBit(n, c).value < i
    then Some(!test && BitN(bits, HorizontalBit(n, c).value)) else None
  }

  /** Both copies of the format information and the dark module; a trial run for scoring leaves them light. */
  method SetupTypeInfo(model: QRCodeModel, errorCorrectLevel: nat, test: bool, maskPattern: nat) returns (bits: nat)
    requires model.Valid() && model.moduleCount >= 21
    modifies model.modules
    ensures CodeWord(BinaryPolynomials.Xor(bits, G15_MASK), (errorCorrectLevel * 8 + maskPattern) % 0x40_0000, G15, 10)
    ensures forall r, c :: 0 <= r < model.moduleCount && 0 <= c < model.moduleCount ==>
              model.modules[r, c] == Over(FormatCell(model.moduleCount, bits, test, r, c), old(model.modules[r, c]))
  {
    hide BitN, CodeWord, BinaryPolynomials.Xor;
    var n := model.moduleCount;
    var data := errorCorrectLevel * 8 + maskPattern;
    bits := GetBCHTypeInfo(data);
    for i := 0 to 15
      invariant forall r, c :: 0 <= r < n && 0 <= c < n ==>
                  model.modules[r, c] == Over(VerticalCell(n, bits, test, i, r, c), old(model.modules[r, c]))
    {
      var mod := !test && BitN(bits, i);
      if i < 6 {
        model.modules[i, 8] := Some(mod);
      } else if i < 8 {
        model.modules[i + 1, 8] := Some(mod);
      } else {
        model.modules[n - 15 + i, 8] := Some(mod);
      }
    }
    for i := 0 to 15
      invariant forall r, c :: 0 <= r < n && 0 <= c < n ==>
                  model.modules[r, c]
                  == Over(HorizontalCell(n, bits, test, i, r, c),
                          Over(VerticalCell(n, bits, test, 15, r, c), old(model.modules[r, c])))
    {
      var mod := !test && BitN(bits, i);
      if i < 8 {
        model.modules[8, n - i - 1] := Some(mod);
      } else if i < 9 {
        model.modules[8, 15 - i - 1 + 1] := Some(mod);
      } else {
        model.modules[8, 15 - i - 1] := Some(mod);
      }
    }
    model.modules[n - 8, 8] := Some(!test);
  }

  // ----- version information -----

  /** Two blocks of six by three cells beside the finder patterns. */
  function VersionCell(n: nat, bits: nat, test: bool, r: int, c: int): Dark {
    if 0 <= r < 6 && n - 11 <= c < n - 8 then Some(!test && BitN(bits, 3 * r + c + 11 - n))
    else if 0 <= c < 6 && n - 11 <= r < n - 8 then Some(!test && BitN(bits, 3 * c + r + 11 - n))
    else None
  }

  function VersionBit(n: nat, r: int, c: int): int {
    if 0 <= r < 6 && n - 11 <= c < n - 8 then 3 * r + c + 11 - n else 18
  }

  method SetupTypeNumber(model: QRCodeModel, typeNumber: nat, test: bool) returns (bits: nat)
    requires model.Valid() && model.moduleCount >= 21
    modifies model.modules
    ensures CodeWord(bits, typeNumber % 0x10_0000, G18, 12)
    ensures forall r, c :: 0 <= r < model.moduleCount && 0 <= c < model.moduleCount ==>
              model.modules[r, c] == Over(VersionCell(model.moduleCount, bits, test, r, c), old(model.modules[r, c]))
  {
    hide BitN, CodeWord;
    var n := model.moduleCount;
    bits := GetBCHTypeNumber(typeNumber);
    for i := 0 to 18
      invariant forall r, c :: 0 <= r < n && 0 <= c < n ==>
                  model.modules[r, c] == Over(if VersionBit(n, r, c) < i
                                              then VersionCell(n, bits, test, r, c) else None, old(model.modules[r, c]))
    {
      VersionPlace(n, i);
      model.modules[i / 3, i % 3 + n - 8 - 3] := Some(!test && BitN(bits, i));
    }
    for i := 0 to 18
      invariant forall r, c :: 0 <= r < n && 0 <= c < n ==>
                  model.modules[r, c]
                  == Over(if VersionBit(n, r, c) < 18 || VersionBit(n, c, r) < i
                          then VersionCell(n, bits, test, r, c) else None, old(model.modules[r, c]))
    {
      VersionPlace(n, i);
      model.modules[i % 3 + n - 8 - 3, i / 3] := Some(!test && BitN(bits, i));
    }
  }

  lemma VersionPlace(n: nat, i: nat)
    requires i < 18 && n >= 21
    ensures i / 3 < 6 && VersionBit(n, i / 3, i % 3 + n - 11) == i
    ensures forall r, c :: VersionBit(n, r, c) == i ==> r == i / 3 && c == i % 3 + n - 11
  {
  }
}
