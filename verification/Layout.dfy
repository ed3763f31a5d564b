/** Which cells of a symbol its function patterns take, that they are drawn exactly there, and how many they leave. */
module Layout {
  import opened JsValues
  import opened MapData
  import opened Patterns
  import opened Placement
  import RSBlocks

  /** The cells of the function patterns. */
  predicate FunctionCell(typeNumber: nat, r: int, c: int)
    requires 1 <= typeNumber <= 40
  {
    var n := typeNumber * 4 + 17;
    || (r <= 8 && c <= 8) || (r <= 8 && c >= n - 8) || (r >= n - 8 && c <= 8)
    || r == 6 || c == 6
    || (typeNumber >= 7 && r < 6 && n - 11 <= c) || (typeNumber >= 7 && c < 6 && n - 11 <= r)
    || AlignCell(GetPatternPosition(typeNumber), r, c).Some?
  }

  // ----- the patterns, drawn one over the other -----

  /** What the setup methods leave at a cell; `bits` and `versionBits` are the format and version information. */
  function ProbedCell(n: nat, r: int, c: int): Dark {
    Over(ProbeCell(0, n - 7, r, c), Over(ProbeCell(n - 7, 0, r, c), ProbeCell(0, 0, r, c)))
  }

  function TimedCell(typeNumber: nat, r: int, c: int): Dark
    requires 1 <= typeNumber <= 40
  {
    var n := typeNumber * 4 + 17;
    Over(Over(AlignCell(GetPatternPosition(typeNumber), r, c), ProbedCell(n, r, c)), TimingCell(n, r, c))
  }

  function PatternCell(typeNumber: nat, bits: nat, versionBits: nat, test: bool, r: int, c: int): Dark
    requires 1 <= typeNumber <= 40
  {
    var n := typeNumber * 4 + 17;
    var informed := Over(FormatCell(n, bits, test, r, c), TimedCell(typeNumber, r, c));
    if typeNumber >= 7 then Over(VersionCell(n, versionBits, test, r, c), informed) else informed
  }

  /** The distance between neighbouring positions, but for the first two. */
  function Spacing(typeNumber: nat): nat
    requires 7 <= typeNumber
  {
    var k := typeNumber / 7 + 2;
    if typeNumber == 32 then 26 else (4 * typeNumber + 2 * k + 1) / (2 * k - 2) * 2
  }

  /** Version 1 has no positions; the others have 6 and, ending at the far side, evenly spaced ones. */
  ghost predicate Even(pos: seq<nat>, typeNumber: nat) {
    if typeNumber <= 1 then pos == []
    else
      && |pos| == typeNumber / 7 + 2
      && pos[0] == 6 && pos[|pos| - 1] == 4 * typeNumber + 10
      && pos[0] + 12 <= pos[1]
      && forall i {:trigger pos[i]} :: 2 <= i < |pos| ==>
        pos[i] == pos[i - 1] + Spacing(typeNumber) && Spacing(typeNumber) >= 12
  }

  /** Gaps between neighbours are gaps between all. */
  lemma {:induction false} GapsAdd(pos: seq<nat>, i: nat, j: nat)
    requires forall i {:trigger pos[i]} :: 1 <= i < |pos| ==> pos[i - 1] + 12 <= pos[i]
    requires i < j < |pos|
    ensures pos[i] + 12 <= pos[j]
  {
    if i + 1 < j {
      GapsAdd(pos, i, j - 1);
      assert pos[j - 1] + 12 <= pos[j];
    }
  }

  lemma EvenSpaced(pos: seq<nat>, typeNumber: nat)
    requires typeNumber > 1 && Even(pos, typeNumber)
    ensures Spaced(pos, typeNumber * 4 + 17)
  {
    hide Spacing;
    forall i, j | 0 <= i < j < |pos|
      ensures pos[i] + 12 <= pos[j]
    {
      GapsAdd(pos, i, j);
    }
    forall i | 0 <= i < |pos|
      ensures 6 <= pos[i] <= 4 * typeNumber + 10
    {
      assert i > 0 ==> pos[0] + 12 <= pos[i];
      assert i < |pos| - 1 ==> pos[i] + 12 <= pos[|pos| - 1];
    }
  }

  lemma PositionsSpaced(typeNumber: nat)
    requires 1 <= typeNumber <= 40
    ensures Spaced(GetPatternPosition(typeNumber), typeNumber * 4 + 17)
    ensures |GetPatternPosition(typeNumber)| == RSBlocks.AlignmentCount(typeNumber)
  {
    hide GetPatternPosition;
    PositionsEven(typeNumber);
    if typeNumber > 1 {
      EvenSpaced(GetPatternPosition(typeNumber), typeNumber);
    }
  }

  lemma PositionsEven(typeNumber: nat)
    requires 1 <= typeNumber <= 40
    ensures Even(GetPatternPosition(typeNumber), typeNumber)
  {
    hide Even, GetPatternPosition;
    if typeNumber <= 13 {
      EvenTo13(typeNumber);
    } else if typeNumber <= 20 {
      EvenTo20(typeNumber);
    } else if typeNumber <= 27 {
      EvenTo27(typeNumber);
    } else if typeNumber <= 34 {
      EvenTo34(typeNumber);
    } else {
      EvenTo40(typeNumber);
    }
  }

  lemma EvenTo13(typeNumber: nat)
    requires 1 <= typeNumber <= 13
    ensures Even(GetPatternPosition(typeNumber), typeNumber)
  {
  }

  lemma EvenTo20(typeNumber: nat)
    requires 14 <= typeNumber <= 20
    ensures Even(GetPatternPosition(typeNumber), typeNumber)
  {
  }

  lemma EvenTo27(typeNumber: nat)
    requires 21 <= typeNumber <= 27
    ensures Even(GetPatternPosition(typeNumber), typeNumber)
  {
  }

  lemma EvenTo34(typeNumber: nat)
    requires 28 <= typeNumber <= 34
    ensures Even(GetPatternPosition(typeNumber), typeNumber)
  {
  }

  lemma EvenTo40(typeNumber: nat)
    requires 35 <= typeNumber <= 40
    ensures Even(GetPatternPosition(typeNumber), typeNumber)
  {
  }

  /** After the finder patterns, exactly the centres that coincide with them are drawn. */
  lemma CentresProbed(typeNumber: nat, g: Grid)
    requires 1 <= typeNumber <= 40 && ValidGrid(g, typeNumber * 4 + 17)
    requires var n := typeNumber * 4 + 17; forall r, c :: 0 <= r < n && 0 <= c < n ==> g[r][c] == ProbedCell(n, r, c)
    ensures var n, pos := typeNumber * 4 + 17, GetPatternPosition(typeNumber); Spaced(pos, n) && CentresFree(g, n, pos)
  {
    hide ProbeDark, GetPatternPosition;
    PositionsSpaced(typeNumber);
  }

  /** The patterns cover exactly the function cells. */
  lemma PatternsCover(typeNumber: nat, bits: nat, versionBits: nat, test: bool, r: nat, c: nat)
    requires 1 <= typeNumber <= 40 && r < typeNumber * 4 + 17 && c < typeNumber * 4 + 17
    ensures PatternCell(typeNumber, bits, versionBits, test, r, c).Some? <==> FunctionCell(typeNumber, r, c)
  {
    hide ProbeDark, GetPatternPosition, AlignCell, BitN;
  }

  // ----- how many cells are left -----

  /** The cells of the walk that no pattern takes. */
  ghost function Free(typeNumber: nat, cells: seq<Position>): (free: seq<Position>)
    requires 1 <= typeNumber <= 40
    ensures forall x :: x in free ==> x in cells
  {
    if cells == [] then []
    else
      var k := |cells| - 1;
      Free(typeNumber, cells[..k]) + if FunctionCell(typeNumber, cells[k].0, cells[k].1) then [] else [cells[k]]
  }

  lemma FreeInside(typeNumber: nat, cells: seq<Position>, n: nat)
    requires 1 <= typeNumber <= 40 && Inside(cells, n)
    ensures Inside(Free(typeNumber, cells), n)
  {
    hide FunctionCell, Free;
    var free := Free(typeNumber, cells);
    forall k | 0 <= k < |free|
      ensures free[k].0 < n && free[k].1 < n
    {
      FreeFrom(typeNumber, cells, free[k]);
    }
  }

  lemma FreeFrom(typeNumber: nat, cells: seq<Position>, x: Position)
    requires 1 <= typeNumber <= 40 && x in Free(typeNumber, cells)
    ensures x in cells
  {
  }

  ghost function Fixed(typeNumber: nat, cells: seq<Position>): (fixed: seq<Position>)
    requires 1 <= typeNumber <= 40
    ensures forall x :: x in fixed <==> x in cells && FunctionCell(typeNumber, x.0, x.1)
  {
    if cells == [] then []
    else
      var k := |cells| - 1;
      Fixed(typeNumber, cells[..k]) + if FunctionCell(typeNumber, cells[k].0, cells[k].1) then [cells[k]] else []
  }

  /** The cells that hold the message of a version, in order. */
  ghost function FreeCells(typeNumber: nat): (cells: seq<Position>)
    requires 1 <= typeNumber <= 40
    ensures Inside(cells, typeNumber * 4 + 17)
  {
    SizeIsOdd(typeNumber);
    FreeInside(typeNumber, WholeWalk(typeNumber * 4 + 17), typeNumber * 4 + 17);
    Free(typeNumber, WholeWalk(typeNumber * 4 + 17))
  }

  /** A grid that is null exactly outside the patterns. */
  ghost predicate Prepared(typeNumber: nat, g: Grid)
    requires 1 <= typeNumber <= 40
  {
    var n := typeNumber * 4 + 17;
    ValidGrid(g, n) && forall r: nat, c: nat :: r < n && c < n ==>
      (g[r][c] == None <==> !FunctionCell(typeNumber, r, c))
  }

  lemma {:induction false} NullsAreFree(typeNumber: nat, g: Grid, cells: seq<Position>)
    requires 1 <= typeNumber <= 40 && Prepared(typeNumber, g) && Inside(cells, typeNumber * 4 + 17)
    ensures Nulls(g, typeNumber * 4 + 17, cells) == Free(typeNumber, cells)
  {
    hide FunctionCell;
    if cells != [] {
      NullsAreFree(typeNumber, g, cells[..|cells| - 1]);
    }
  }

  lemma {:induction false} FreeOrFixed(typeNumber: nat, cells: seq<Position>)
    requires 1 <= typeNumber <= 40
    ensures |Free(typeNumber, cells)| + |Fixed(typeNumber, cells)| == |cells|
  {
    hide FunctionCell;
    if cells != [] {
      FreeOrFixed(typeNumber, cells[..|cells| - 1]);
    }
  }

  lemma {:induction false} FixedNoRepeats(typeNumber: nat, cells: seq<Position>)
    requires 1 <= typeNumber <= 40 && NoRepeats(cells)
    ensures NoRepeats(Fixed(typeNumber, cells))
  {
    hide FunctionCell;
    if cells != [] {
      var k := |cells| - 1;
      FixedNoRepeats(typeNumber, cells[..k]);
      assert cells[k] !in cells[..k];
    }
  }

  /** A sequence without repetitions whose elements are in a set is no longer than the set. */
  lemma {:induction false} NoRepeatsBound(s: seq<Position>, all: set<Position>)
    requires NoRepeats(s) && forall x :: x in s ==> x in all
    ensures |s| <= |all|
  {
    if s != [] {
      var k := |s| - 1;
      assert s[k] !in s[..k];
      NoRepeatsBound(s[..k], all - {s[k]});
    }
  }

  function Range(lo: int, hi: int): (xs: set<nat>)
    ensures forall x: nat :: x in xs <==> lo <= x < hi
    decreases hi - lo
  {
    if hi <= lo || hi <= 0 then {} else Range(lo, hi - 1) + {hi - 1}
  }

  lemma {:induction false} RangeSize(lo: nat, hi: nat)
    requires lo <= hi
    ensures |Range(lo, hi)| == hi - lo
  {
    if lo == hi {
      assert Range(lo, hi) == {};
    } else {
      RangeSize(lo, hi - 1);
      assert Range(lo, hi) == Range(lo, hi - 1) + {hi - 1};
    }
  }

  function Product(rows: set<nat>, cols: set<nat>): set<Position> {
    set r, c | r in rows && c in cols :: (r, c)
  }

  lemma {:induction false} ProductSize(rows: set<nat>, cols: set<nat>)
    ensures |Product(rows, cols)| == |rows| * |cols|
  {
    if rows == {} {
      assert Product(rows, cols) == {};
    } else {
      var r :| r in rows;
      ProductSize(rows - {r}, cols);
      RowSize(r, cols);
      hide Product;
      SplitProduct(rows, r, cols);
      OneRow(|rows|, |cols|);
    }
  }

  lemma SplitProduct(rows: set<nat>, r: nat, cols: set<nat>)
    requires r in rows
    ensures Product(rows, cols) == Product(rows - {r}, cols) + Product({r}, cols)
    ensures Product(rows - {r}, cols) * Product({r}, cols) == {}
  {
  }

  lemma OneRow(a: nat, b: nat)
    requires a > 0
    ensures a * b == (a - 1) * b + b
  {
  }

  lemma {:induction false} RowSize(r: nat, cols: set<nat>)
    ensures |Product({r}, cols)| == |cols|
  {
    if cols == {} {
      assert Product({r}, cols) == {};
    } else {
      var c :| c in cols;
      RowSize(r, cols - {c});
      assert Product({r}, cols) == Product({r}, cols - {c}) + {(r, c)};
    }
  }

  function Around(p: int): (xs: set<nat>)
    ensures forall x: nat :: x in xs <==> Near(x, p)
  {
    Range(p - 2, p + 3)
  }

  lemma AroundSize(p: nat)
    requires p >= 2
    ensures |Around(p)| == 5
  {
    RangeSize(p - 2, p + 3);
  }

  /** The coordinates within two cells of a position from `a` to `b`. */
  function NearSet(pos: seq<nat>, a: nat, b: nat): set<nat>
    requires b <= |pos|
    decreases b
  {
    if a >= b then {} else NearSet(pos, a, b - 1) + Around(pos[b - 1])
  }

  lemma {:induction false} NearSetSize(pos: seq<nat>, a: nat, b: nat)
    requires b <= |pos| && forall i :: 0 <= i < |pos| ==> pos[i] >= 2
    ensures |NearSet(pos, a, b)| <= if a >= b then 0 else 5 * (b - a)
    decreases b
  {
    hide Around;
    if a < b {
      NearSetSize(pos, a, b - 1);
      AroundSize(pos[b - 1]);
    }
  }

  lemma {:induction false} NearSetMember(pos: seq<nat>, a: nat, b: nat, i: nat, x: nat)
    requires a <= i < b <= |pos| && Near(x, pos[i])
    ensures x in NearSet(pos, a, b)
    decreases b
  {
    if i < b - 1 {
      NearSetMember(pos, a, b - 1, i, x);
    }
  }

  /** The sides of the timing line that an alignment pattern on it still covers. */
  const SIDES: set<nat> := {4, 5, 7, 8}

  /** A set that holds all function cells outside column 6. */
  ghost function Corners(n: nat): set<Position> {
    Product(Range(0, 9), Range(0, 9) - {6}) + Product(Range(0, 9), Range(n - 8, n))
    + Product(Range(n - 8, n), Range(0, 9) - {6}) + Product({6}, Range(9, n - 8))
  }

  ghost function Versions(n: nat): set<Position> {
    Product(Range(0, 6), Range(n - 11, n - 8)) + Product(Range(n - 11, n - 8), Range(0, 6))
  }

  ghost function Alignments(pos: seq<nat>): set<Position> {
    var k := |pos|;
    if k < 2 then {}
    else
      Product(NearSet(pos, 1, k), NearSet(pos, 1, k))
      + Product(SIDES, NearSet(pos, 1, k - 1)) + Product(NearSet(pos, 1, k - 1), SIDES)
  }

  lemma CornersSize(n: nat)
    requires n >= 21
    ensures |Corners(n)| <= 208 + (n - 17)
  {
    hide Product, Range;
    RangeSize(0, 9);
    RangeSize(n - 8, n);
    RangeSize(9, n - 8);
    RangeHas(0, 9, 6);
    ProductSize(Range(0, 9), Range(0, 9) - {6});
    ProductSize(Range(0, 9), Range(n - 8, n));
    ProductSize(Range(n - 8, n), Range(0, 9) - {6});
    ProductSize({6}, Range(9, n - 8));
  }

  lemma RangeHas(lo: int, hi: int, x: nat)
    ensures x in Range(lo, hi) <==> lo <= x < hi
  {
  }

  lemma VersionsSize(n: nat)
    requires n >= 21
    ensures |Versions(n)| <= 36
  {
    hide Product, Range;
    RangeSize(0, 6);
    RangeSize(n - 11, n - 8);
    ProductSize(Range(0, 6), Range(n - 11, n - 8));
    ProductSize(Range(n - 11, n - 8), Range(0, 6));
  }

  lemma AlignmentsSize(pos: seq<nat>)
    requires forall i :: 0 <= i < |pos| ==> pos[i] >= 2
    ensures |Alignments(pos)| <= if |pos| < 2 then 0 else 25 * (|pos| - 1) * (|pos| - 1) + 40 * (|pos| - 2)
  {
    hide Product, NearSet;
    var k := |pos|;
    if k >= 2 {
      var near, inner := NearSet(pos, 1, k), NearSet(pos, 1, k - 1);
      NearSetSize(pos, 1, k);
      NearSetSize(pos, 1, k - 1);
      ProductSize(near, near);
      ProductSize(SIDES, inner);
      ProductSize(inner, SIDES);
      assert |SIDES| == 4;
      SquareBound(|near|, 5 * (k - 1));
      assert (5 * (k - 1)) * (5 * (k - 1)) == 25 * (k - 1) * (k - 1);
    }
  }

  lemma SquareBound(a: nat, b: nat)
    requires a <= b
    ensures a * a <= b * b
  {
    assert b * b - a * a == (b - a) * (b + a);
  }

  /** An alignment pattern lies in the inner square, or across a timing line. */
  lemma AlignmentInside(pos: seq<nat>, n: nat, r: nat, c: nat)
    requires Spaced(pos, n) && AlignCell(pos, r, c).Some? && r != 6 && c != 6
    ensures (r, c) in Alignments(pos)
  {
    hide AlignDark, NearSet, NearIndex;
    NearFound(pos, r);
    NearFound(pos, c);
    AlignmentIn(pos, r, c, NearIndex(pos, r).value, NearIndex(pos, c).value);
  }

  lemma AlignmentIn(pos: seq<nat>, r: nat, c: nat, i: nat, j: nat)
    requires i < |pos| && j < |pos| && |pos| >= 2 && pos[0] == 6
    requires Near(r, pos[i]) && Near(c, pos[j]) && !Taken(|pos|, i, j) && r != 6 && c != 6
    ensures (r, c) in Alignments(pos)
  {
    hide NearSet;
    var k := |pos|;
    if i > 0 && j > 0 {
      NearSetMember(pos, 1, k, i, r);
      NearSetMember(pos, 1, k, j, c);
    } else if i == 0 {
      NearSetMember(pos, 1, k - 1, j, c);
    } else {
      NearSetMember(pos, 1, k - 1, i, r);
    }
  }

  /** Row 6 runs through the corners and between them. */
  lemma FunctionInside(typeNumber: nat, r: nat, c: nat)
    requires 1 <= typeNumber <= 40 && FunctionCell(typeNumber, r, c) && c != 6
    requires r < typeNumber * 4 + 17 && c < typeNumber * 4 + 17
    ensures var n := typeNumber * 4 + 17;
            || (r, c) in Corners(n) || (typeNumber >= 7 && (r, c) in Versions(n))
            || (r, c) in Alignments(GetPatternPosition(typeNumber))
  {
    hide GetPatternPosition, AlignCell, Alignments;
    var n, pos := typeNumber * 4 + 17, GetPatternPosition(typeNumber);
    if AlignCell(pos, r, c).Some? && r != 6 {
      PositionsSpaced(typeNumber);
      AlignmentInside(pos, n, r, c);
    }
  }

  /** Every version leaves at least as many cells as its message needs. */
  lemma FreeCellsCount(typeNumber: nat)
    requires 1 <= typeNumber <= 40
    ensures |FreeCells(typeNumber)| >= RSBlocks.FreeCellCount(typeNumber)
  {
    hide FunctionCell, NoRepeats, WholeWalk, Corners, Versions, Alignments, Free, Fixed, GetPatternPosition;
    var n, pos := typeNumber * 4 + 17, GetPatternPosition(typeNumber);
    SizeIsOdd(typeNumber);
    WholeWalkVisits(n);
    PositionsSpaced(typeNumber);
    var walk := WholeWalk(n);
    var fixed := Fixed(typeNumber, walk);
    var all := Corners(n) + (if typeNumber >= 7 then Versions(n) else {}) + Alignments(pos);
    FixedInside(typeNumber, walk);
    FixedNoRepeats(typeNumber, walk);
    NoRepeatsBound(fixed, all);
    CornersSize(n);
    VersionsSize(n);
    AlignmentsSize(pos);
    FreeOrFixed(typeNumber, walk);
  }

  lemma FixedInside(typeNumber: nat, walk: seq<Position>)
    requires 1 <= typeNumber <= 40
    requires forall r: nat, c: nat :: (r, c) in walk ==> r < typeNumber * 4 + 17 && c < typeNumber * 4 + 17 && c != 6
    ensures var n := typeNumber * 4 + 17;
            forall x :: x in Fixed(typeNumber, walk) ==>
              x in Corners(n) + (if typeNumber >= 7 then Versions(n) else {})
                + Alignments(GetPatternPosition(typeNumber))
  {
    hide FunctionCell, Corners, Versions, Alignments, GetPatternPosition;
    var n := typeNumber * 4 + 17;
    forall x | x in Fixed(typeNumber, walk)
      ensures x in Corners(n) + (if typeNumber >= 7 then Versions(n) else {})
              + Alignments(GetPatternPosition(typeNumber))
    {
      assert x == (x.0, x.1);
      FunctionInside(typeNumber, x.0, x.1);
    }
  }
}
