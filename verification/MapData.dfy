/**
 Symbol character placement (ISO/IEC 18004, section 7.7.3): the zig-zag walk of the
 encoder over the grid, what it writes, and what a reader following it sees.
 */
module Placement {
  import opened Bits
  import opened JsValues

  type Position = (nat, nat)
  type Grid = seq<seq<Option<bool>>>

  /** Sizes of symbols are 4t + 17; the walk only needs an odd size past the timing column. */
  predicate ValidSize(n: nat) {
    n % 2 == 1 && n >= 9
  }

  ghost predicate ValidGrid(g: Grid, n: nat) {
    |g| == n && forall r :: 0 <= r < n ==> |g[r]| == n
  }

  /** The right column of pair `p`, counted from the right edge; column 6 is skipped. */
  function PairColumn(n: nat, p: nat): int {
    if n - 1 - 2 * p > 6 then n - 1 - 2 * p else n - 2 - 2 * p
  }

  /** The row visited at step `j` of pair `p`: up in even pairs, down in odd ones. */
  function PairRow(n: nat, p: nat, j: nat): int {
    if p % 2 == 0 then n - 1 - j else j
  }

  /** The pair that holds column `c`. */
  function PairOf(n: nat, c: nat): int {
    if c > 6 then (n - 1 - c) / 2 else (n - 2 - c) / 2
  }

  /** The first `j` rows of pair `p`. */
  ghost function PairCells(n: nat, p: nat, j: nat): (cells: seq<Position>)
    requires ValidSize(n) && 2 * p < n - 1 && j <= n
  {
    if j == 0 then []
    else
      var r, c := PairRow(n, p, j - 1), PairColumn(n, p);
      PairCells(n, p, j - 1) + [(r, c), (r, c - 1)]
  }

  /** The cells of the first `m` pairs, in the order of the walk. */
  ghost function Walk(n: nat, m: nat): seq<Position>
    requires ValidSize(n) && 2 * m <= n - 1
  {
    if m == 0 then [] else Walk(n, m - 1) + PairCells(n, m - 1, n)
  }

  ghost function WholeWalk(n: nat): (cells: seq<Position>)
    requires ValidSize(n)
    ensures Inside(cells, n)
  {
    WalkInside(n, (n - 1) / 2);
    Walk(n, (n - 1) / 2)
  }

  ghost predicate Inside(cells: seq<Position>, n: nat) {
    forall k :: 0 <= k < |cells| ==> cells[k].0 < n && cells[k].1 < n
  }

  /** The cells of a walk that are null in `g`, in order. */
  ghost function Nulls(g: Grid, n: nat, cells: seq<Position>): (r: seq<Position>)
    requires ValidGrid(g, n) && Inside(cells, n)
    ensures forall x :: x in r <==> x in cells && g[x.0][x.1] == None
    ensures Inside(r, n)
  {
    if cells == [] then []
    else
      var k := |cells| - 1;
      var x := cells[k];
      Nulls(g, n, cells[..k]) + if g[x.0][x.1] == None then [x] else []
  }

  /** Bit `k` of the message, most significant first; past its end the encoder writes zeros. */
  predicate DataBit(data: seq<Cell>, k: nat) {
    k < 8 * |data| && BitOf(Val(data[k / 8]), k % 8)
  }

  // ----- every cell outside column 6 is visited exactly once -----

  lemma PairColumnOf(n: nat, p: nat)
    requires ValidSize(n) && 2 * p < n - 1
    ensures 1 <= PairColumn(n, p) < n && PairColumn(n, p) != 6 && PairColumn(n, p) - 1 != 6
    ensures PairOf(n, PairColumn(n, p)) == p && PairOf(n, PairColumn(n, p) - 1) == p
  {
  }

  lemma ColumnOfPair(n: nat, c: nat)
    requires ValidSize(n) && c < n && c != 6
    ensures 0 <= PairOf(n, c) && 2 * PairOf(n, c) < n - 1
    ensures c == PairColumn(n, PairOf(n, c)) || c == PairColumn(n, PairOf(n, c)) - 1
  {
  }

  /** The step of pair `p` that visits row `r`. */
  function StepOf(n: nat, p: nat, r: nat): int {
    if p % 2 == 0 then n - 1 - r else r
  }

  lemma StepOfRow(n: nat, p: nat, j: nat, r: nat)
    requires j < n && r < n
    ensures 0 <= PairRow(n, p, j) < n && (PairRow(n, p, j) == r <==> StepOf(n, p, r) == j)
    ensures 0 <= StepOf(n, p, r) < n
  {
  }

  ghost predicate InPair(n: nat, p: nat, j: nat, x: Position) {
    x.0 < n && x.1 < n && x.1 != 6 && PairOf(n, x.1) == p && StepOf(n, p, x.0) < j
  }

  ghost predicate InWalk(n: nat, m: nat, x: Position) {
    x.0 < n && x.1 < n && x.1 != 6 && PairOf(n, x.1) < m
  }

  lemma {:induction false} PairMember(n: nat, p: nat, j: nat, x: Position)
    requires ValidSize(n) && 2 * p < n - 1 && j <= n
    ensures x in PairCells(n, p, j) <==> InPair(n, p, j, x)
  {
    hide PairOf, PairColumn, PairRow, StepOf;
    if x.0 < n && x.1 < n && x.1 != 6 {
      StepOfRow(n, p, 0, x.0);
    }
    if j > 0 {
      PairMember(n, p, j - 1, x);
      PairColumnOf(n, p);
      StepOfRow(n, p, j - 1, 0);
      assert x == (x.0, x.1);
      if x.0 < n {
        StepOfRow(n, p, j - 1, x.0);
      }
      if x.1 < n && x.1 != 6 {
        ColumnOfPair(n, x.1);
      }
    }
  }

  /** The first `m` pairs cover exactly the columns of those pairs, from top to bottom. */
  lemma {:induction false} WalkMember(n: nat, m: nat, x: Position)
    requires ValidSize(n) && 2 * m <= n - 1
    ensures x in Walk(n, m) <==> InWalk(n, m, x)
  {
    hide PairOf, StepOf, PairCells;
    if x.1 < n && x.1 != 6 {
      ColumnOfPair(n, x.1);
    }
    if m > 0 {
      WalkMember(n, m - 1, x);
      PairMember(n, m - 1, n, x);
      if x.0 < n {
        StepOfRow(n, m - 1, 0, x.0);
      }
    }
  }

  lemma WalkInside(n: nat, m: nat)
    requires ValidSize(n) && 2 * m <= n - 1
    ensures Inside(Walk(n, m), n)
  {
    hide Walk, PairOf;
    forall k | 0 <= k < |Walk(n, m)|
      ensures Walk(n, m)[k].0 < n && Walk(n, m)[k].1 < n
    {
      WalkMember(n, m, Walk(n, m)[k]);
    }
  }

  /** The cells visited before step `c` of row `j` of pair `p`. */
  ghost function Visited(n: nat, p: nat, j: nat, c: nat): seq<Position>
    requires ValidSize(n) && 2 * p < n - 1 && j <= n && c <= 2 && (c > 0 ==> j < n)
  {
    if c == 0 then Walk(n, p) + PairCells(n, p, j)
    else
      PairColumnOf(n, p);
      Visited(n, p, j, c - 1) + [(PairRow(n, p, j), PairColumn(n, p) - (c - 1))]
  }

  lemma VisitedStart(n: nat, p: nat)
    requires ValidSize(n) && 2 * p < n - 1
    ensures Visited(n, p, 0, 0) == Walk(n, p)
    ensures Visited(n, p, n, 0) == Walk(n, p + 1)
  {
  }

  lemma VisitedRow(n: nat, p: nat, j: nat)
    requires ValidSize(n) && 2 * p < n - 1 && j < n
    ensures Visited(n, p, j, 2) == Visited(n, p, j + 1, 0)
  {
    hide Walk, PairOf;
    PairColumnOf(n, p);
    StepOfRow(n, p, j, 0);
    var r, col: nat := PairRow(n, p, j), PairColumn(n, p);
    assert Visited(n, p, j, 1) == Visited(n, p, j, 0) + [(r, col)];
    assert Visited(n, p, j, 2) == Visited(n, p, j, 1) + [(r, col - 1)];
    assert PairCells(n, p, j + 1) == PairCells(n, p, j) + [(r, col), (r, col - 1)];
  }

  /** The next cell of the walk is a new one. */
  lemma VisitedNew(n: nat, p: nat, j: nat, c: nat)
    requires ValidSize(n) && 2 * p < n - 1 && j < n && c < 2
    ensures 0 <= PairRow(n, p, j) < n && 0 <= PairColumn(n, p) - c < n
    ensures (PairRow(n, p, j) as nat, (PairColumn(n, p) - c) as nat) !in Visited(n, p, j, c)
    ensures Visited(n, p, j, c + 1) == Visited(n, p, j, c) + [(PairRow(n, p, j), PairColumn(n, p) - c)]
  {
    hide Walk, PairOf, StepOf, PairCells;
    PairColumnOf(n, p);
    StepOfRow(n, p, j, 0);
    var r, col: nat := PairRow(n, p, j), PairColumn(n, p);
    StepOfRow(n, p, j, r);
    NewCell(n, p, j, (r, col));
    NewCell(n, p, j, (r, col - 1));
  }

  lemma {:induction false} PairLength(n: nat, p: nat, j: nat)
    requires ValidSize(n) && 2 * p < n - 1 && j <= n
    ensures |PairCells(n, p, j)| == 2 * j
  {
    if j > 0 {
      PairLength(n, p, j - 1);
    }
  }

  lemma {:induction false} WalkLength(n: nat, m: nat)
    requires ValidSize(n) && 2 * m <= n - 1
    ensures |Walk(n, m)| == 2 * n * m
  {
    hide PairCells;
    if m > 0 {
      WalkLength(n, m - 1);
      PairLength(n, m - 1, n);
    }
  }

  ghost predicate NoRepeats(cells: seq<Position>) {
    forall i, j :: 0 <= i < j < |cells| ==> cells[i] != cells[j]
  }

  lemma AppendNew(cells: seq<Position>, x: Position)
    requires NoRepeats(cells) && x !in cells
    ensures NoRepeats(cells + [x])
  {
  }

  lemma {:induction false} PairNoRepeats(n: nat, m: nat, j: nat)
    requires ValidSize(n) && 2 * m < n - 1 && j <= n && NoRepeats(Walk(n, m))
    ensures NoRepeats(Walk(n, m) + PairCells(n, m, j))
  {
    hide NoRepeats, PairOf, PairColumn, PairRow, StepOf, Walk;
    if j == 0 {
      assert Walk(n, m) + [] == Walk(n, m);
    } else {
      PairNoRepeats(n, m, j - 1);
      PairColumnOf(n, m);
      StepOfRow(n, m, j - 1, 0);
      var r, c: nat := PairRow(n, m, j - 1), PairColumn(n, m);
      StepOfRow(n, m, j - 1, r);
      var cells := Walk(n, m) + PairCells(n, m, j - 1);
      NewCell(n, m, j - 1, (r, c));
      NewCell(n, m, j - 1, (r, c - 1));
      AppendNew(cells, (r, c));
      AppendNew(cells + [(r, c)], (r, c - 1));
      assert Walk(n, m) + PairCells(n, m, j) == cells + [(r, c)] + [(r, c - 1)];
    }
  }

  lemma NewCell(n: nat, m: nat, j: nat, x: Position)
    requires ValidSize(n) && 2 * m < n - 1 && j <= n
    requires x.0 < n && PairOf(n, x.1) == m && StepOf(n, m, x.0) == j
    ensures x !in Walk(n, m) + PairCells(n, m, j)
  {
    hide PairOf, StepOf, Walk, PairCells;
    WalkMember(n, m, x);
    PairMember(n, m, j, x);
  }

  /** No cell is visited twice. */
  lemma {:induction false} WalkNoRepeats(n: nat, m: nat)
    requires ValidSize(n) && 2 * m <= n - 1
    ensures NoRepeats(Walk(n, m))
  {
    if m > 0 {
      WalkNoRepeats(n, m - 1);
      PairNoRepeats(n, m - 1, n);
    }
  }

  lemma {:induction false} PairAt(n: nat, p: nat, m: nat, j: nat, c: nat)
    requires ValidSize(n) && 2 * p < n - 1 && j < m <= n && c < 2
    ensures |PairCells(n, p, m)| == 2 * m
    ensures var cell := PairCells(n, p, m)[2 * j + c];
            cell.0 == PairRow(n, p, j) && cell.1 == PairColumn(n, p) - c
  {
    hide PairRow, PairColumn;
    PairLength(n, p, m - 1);
    PairLength(n, p, m);
    PairColumnOf(n, p);
    StepOfRow(n, p, m - 1, 0);
    if j < m - 1 {
      PairAt(n, p, m - 1, j, c);
    }
  }

  lemma {:induction false} WalkPrefix(n: nat, p: nat, m: nat)
    requires ValidSize(n) && p <= m && 2 * m <= n - 1
    ensures Walk(n, p) <= Walk(n, m)
  {
    hide PairCells;
    if p < m {
      WalkPrefix(n, p, m - 1);
    }
  }

  lemma WalkCell(n: nat, p: nat, j: nat, c: nat)
    requires ValidSize(n) && 2 * p < n - 1 && j < n && c < 2
    ensures var k := |Walk(n, p)| + 2 * j + c;
            && k < |WholeWalk(n)| && WholeWalk(n)[k].0 == PairRow(n, p, j)
            && WholeWalk(n)[k].1 == PairColumn(n, p) - c
  {
    hide PairCells, PairRow, PairColumn;
    PairAt(n, p, n, j, c);
    WalkPrefix(n, p + 1, (n - 1) / 2);
    assert Walk(n, p + 1)[|Walk(n, p)| + 2 * j + c] == PairCells(n, p, n)[2 * j + c];
  }

  /** Two columns at a time from the right edge, each pair from bottom to top or from top to bottom in turn. */
  lemma WalkAt(n: nat, p: nat, j: nat, c: nat)
    requires ValidSize(n) && 2 * p < n - 1 && j < n && c < 2
    ensures 2 * n * p + 2 * j + c < |WholeWalk(n)|
    ensures var cell := WholeWalk(n)[2 * n * p + 2 * j + c];
            && cell.0 == (if p % 2 == 0 then n - 1 - j else j)
            && cell.1 == (if n - 1 - 2 * p > 6 then n - 1 - 2 * p - c else n - 2 - 2 * p - c)
  {
    hide WholeWalk, Walk;
    WalkCell(n, p, j, c);
    WalkLength(n, p);
  }

  /** The whole walk visits every cell outside column 6, exactly once. */
  lemma WholeWalkVisits(n: nat)
    requires ValidSize(n)
    ensures NoRepeats(WholeWalk(n)) && |WholeWalk(n)| == n * (n - 1)
    ensures forall r: nat, c: nat :: (r, c) in WholeWalk(n) <==> r < n && c < n && c != 6
  {
    hide NoRepeats, PairOf, Walk;
    var m := (n - 1) / 2;
    WalkNoRepeats(n, m);
    WalkLength(n, m);
    assert 2 * m == n - 1;
    assert 2 * n * m == n * (2 * m);
    forall r: nat, c: nat
      ensures (r, c) in WholeWalk(n) <==> r < n && c < n && c != 6
    {
      WalkMember(n, m, (r, c));
      if c < n && c != 6 {
        ColumnOfPair(n, c);
      }
    }
  }
}

/** The grid of modules and `QRCodeModel.mapData`, which fills it. */
module MapData {
  import opened Bits
  import opened JsValues
  import opened Placement

  /** The eight mask conditions; any other pattern number throws. */
  function GetMask(maskPattern: int, i: nat, j: nat): Result<bool> {
    if maskPattern == 0 then Ok((i + j) % 2 == 0)
    else if maskPattern == 1 then Ok(i % 2 == 0)
    else if maskPattern == 2 then Ok(j % 3 == 0)
    else if maskPattern == 3 then Ok((i + j) % 3 == 0)
    else if maskPattern == 4 then Ok((i / 2 + j / 3) % 2 == 0)
    else if maskPattern == 5 then Ok((i * j) % 2 + (i * j) % 3 == 0)
    else if maskPattern == 6 then Ok(((i * j) % 2 + (i * j) % 3) % 2 == 0)
    else if maskPattern == 7 then Ok(((i * j) % 3 + (i + j) % 2) % 2 == 0)
    else Throw(BadMaskPattern)
  }

  /** The mask at a cell, for a pattern number that exists. */
  predicate Masked(maskPattern: int, x: Position)
    requires 0 <= maskPattern < 8
  {
    GetMask(maskPattern, x.0, x.1).value
  }

  /**
   * The cells in `filled` hold the data bits in order, each exclusive-ored with the mask; all other cells are as
   * before.
   */
  ghost predicate Placed(before: Grid, after: Grid, n: nat, filled: seq<Position>, data: seq<Cell>, maskPattern: int)
    requires ValidGrid(before, n) && ValidGrid(after, n) && Inside(filled, n)
  {
    && (filled != [] ==> 0 <= maskPattern < 8)
    && (forall k :: 0 <= k < |filled| ==>
      after[filled[k].0][filled[k].1] == Some(DataBit(data, k) != Masked(maskPattern, filled[k])))
    && (forall r: nat, c: nat :: r < n && c < n && (r, c) !in filled ==> after[r][c] == before[r][c])
  }

  /**
   * The state of the walk after visiting `cells`: the null ones among them are filled, and the two counters point at
   * the next data bit.
   */
  ghost predicate Progress(before: Grid, after: Grid, n: nat, cells: seq<Position>, data: seq<Cell>, maskPattern: int,
                           byteIndex: int, bitIndex: int)
    requires ValidGrid(before, n) && ValidGrid(after, n) && Inside(cells, n)
  {
    && 0 <= bitIndex <= 7 && 0 <= byteIndex
    && 8 * byteIndex + 7 - bitIndex == |Nulls(before, n, cells)|
    && Placed(before, after, n, Nulls(before, n, cells), data, maskPattern)
  }

  lemma NullsSnoc(before: Grid, n: nat, cells: seq<Position>, x: Position)
    requires ValidGrid(before, n) && Inside(cells, n) && x.0 < n && x.1 < n
    ensures Inside(cells + [x], n)
    ensures Nulls(before, n, cells + [x]) == Nulls(before, n, cells) + if before[x.0][x.1] == None then [x] else []
  {
    assert (cells + [x])[..|cells|] == cells;
  }

  lemma PlacedMore(before: Grid, mid: Grid, after: Grid, n: nat, filled: seq<Position>, data: seq<Cell>,
                   maskPattern: int, x: Position)
    requires ValidGrid(before, n) && ValidGrid(mid, n) && ValidGrid(after, n) && Inside(filled, n)
    requires Placed(before, mid, n, filled, data, maskPattern) && 0 <= maskPattern < 8
    requires x.0 < n && x.1 < n && x !in filled
    requires forall r: nat, c: nat :: r < n && c < n ==>
      after[r][c] == if (r, c) == x then Some(DataBit(data, |filled|) != Masked(maskPattern, x)) else mid[r][c]
    ensures Placed(before, after, n, filled + [x], data, maskPattern)
  {
    hide DataBit, Masked;
    var more := filled + [x];
    assert more[|filled|] == x;
    forall k | 0 <= k < |more|
      ensures after[more[k].0][more[k].1] == Some(DataBit(data, k) != Masked(maskPattern, more[k]))
    {
      assert more[k] == (more[k].0, more[k].1);
      if k < |filled| {
        assert filled[k] in filled;
      }
    }
    forall r: nat, c: nat | r < n && c < n && (r, c) !in more
      ensures after[r][c] == before[r][c]
    {
      assert (r, c) !in filled;
      assert (r, c) != x;
    }
  }

  lemma DataBitIsShift(data: seq<Cell>, byteIndex: nat, bitIndex: nat)
    requires bitIndex <= 7
    ensures DataBit(data, 8 * byteIndex + 7 - bitIndex) <==>
            byteIndex < |data| && (Val(data[byteIndex]) >> bitIndex) & 1 == 1
  {
    var k := 8 * byteIndex + 7 - bitIndex;
    assert k / 8 == byteIndex && k % 8 == 7 - bitIndex;
    if byteIndex < |data| {
      BitOfIsShift(Val(data[byteIndex]), 7 - bitIndex);
    }
  }

  lemma SizeIsOdd(typeNumber: nat)
    requires typeNumber >= 1
    ensures ValidSize(typeNumber * 4 + 17)
  {
    Odd(2 * typeNumber + 8);
  }

  lemma Odd(k: nat)
    ensures (2 * k + 1) % 2 == 1
  {
  }

  class QRCodeModel {
    const moduleCount: nat
    const modules: array2<Option<bool>>

    ghost predicate Valid() {
      modules.Length0 == modules.Length1 == moduleCount && ValidSize(moduleCount)
    }

    ghost function Modules(): (g: Grid)
      requires Valid()
      reads modules
      ensures ValidGrid(g, moduleCount)
      ensures forall r, c :: 0 <= r < moduleCount && 0 <= c < moduleCount ==> g[r][c] == modules[r, c]
    {
      seq(moduleCount, r requires 0 <= r < moduleCount reads modules =>
        seq(moduleCount, c requires 0 <= c < moduleCount reads modules => modules[r, c]))
    }

    constructor (typeNumber: nat)
      requires typeNumber >= 1
      ensures Valid() && moduleCount == typeNumber * 4 + 17 && fresh(modules)
      ensures forall r, c :: 0 <= r < moduleCount && 0 <= c < moduleCount ==> modules[r, c] == None
    {
      var n := typeNumber * 4 + 17;
      SizeIsOdd(typeNumber);
      moduleCount := n;
      modules := new Option<bool>[n, n]((_, _) => None);
    }

    /** One visit of the walk: writes the cell if it is null, and then moves on to the next data bit. */
    method Visit(row: nat, col: nat, data: seq<Cell>, maskPattern: int, byteIndex: int, bitIndex: int,
                 ghost before: Grid, ghost cells: seq<Position>)
      returns (r: Result<()>, byteIndex': int, bitIndex': int)
      requires Valid() && ValidGrid(before, moduleCount) && Inside(cells, moduleCount)
      requires row < moduleCount && col < moduleCount && (row, col) !in cells
      requires Progress(before, Modules(), moduleCount, cells, data, maskPattern, byteIndex, bitIndex)
      modifies modules
      ensures Inside(cells + [(row, col)], moduleCount)
      ensures r.Throw? <==> before[row][col] == None && !(0 <= maskPattern < 8)
      ensures r.Throw? ==> Modules() == before
      ensures r.Ok? ==> Progress(before, Modules(), moduleCount, cells + [(row, col)], data, maskPattern, byteIndex',
                                 bitIndex')
    {
      hide Nulls, DataBit, Val;
      byteIndex', bitIndex' := byteIndex, bitIndex;
      ghost var filled, mid := Nulls(before, moduleCount, cells), Modules();
      NullsSnoc(before, moduleCount, cells, (row, col));
      NotFilled(before, moduleCount, cells, (row, col));
      assert mid[row][col] == before[row][col];
      if modules[row, col] == None {
        var dark := false;
        if byteIndex < |data| {
          dark := (Val(data[byteIndex]) >> bitIndex) & 1 == 1;
        }
        DataBitIsShift(data, byteIndex, bitIndex);
        var mask := GetMask(maskPattern, row, col);
        if mask.Throw? {
          NothingPlaced(before, mid, moduleCount, filled, data, maskPattern);
          return Throw(mask.error), byteIndex, bitIndex;
        }
        if mask.value {
          dark := !dark;
        }
        modules[row, col] := Some(dark);
        bitIndex' := bitIndex' - 1;
        if bitIndex' == -1 {
          byteIndex' := byteIndex' + 1;
          bitIndex' := 7;
        }
        PlacedMore(before, mid, Modules(), moduleCount, filled, data, maskPattern, (row, col));
      }
      return Ok(()), byteIndex', bitIndex';
    }

    /**
     * The zig-zag walk. It throws only on an unknown mask pattern, leaving the grid alone; otherwise it fills the null
     * cells outside column 6, in walk order, and touches nothing else.
     */
    method MapData(data: seq<Cell>, maskPattern: int) returns (r: Result<()>)
      requires Valid()
      modifies modules
      ensures var nulls := Nulls(old(Modules()), moduleCount, WholeWalk(moduleCount));
              && (r.Throw? <==> nulls != [] && !(0 <= maskPattern < 8))
              && (r.Throw? ==> Modules() == old(Modules()))
              && (r.Ok? ==> Placed(old(Modules()), Modules(), moduleCount, nulls, data, maskPattern))
    {
      hide Nulls, Placed, Progress, Walk, WholeWalk, PairCells, Visited, PairColumn, PairRow, PairStep, HeadColumn,
           Inside;
      ghost var n, before, p := moduleCount, Modules(), 0;
      var inc, row, bitIndex, byteIndex := -1, moduleCount - 1, 7, 0;
      var col := moduleCount - 1;
      WalkHead(n, 0);
      ProgressStart(before, n, data, maskPattern);
      while col > 0
        invariant 2 * p <= n - 1 && col == HeadColumn(n, p)
        invariant row == PairRow(n, p, 0) && inc == PairStep(p)
        invariant Inside(Walk(n, p), n)
        invariant Progress(before, Modules(), n, Walk(n, p), data, maskPattern, byteIndex, bitIndex)
        decreases n - p
      {
        WalkHead(n, p);
        if col == 6 {
          col := col - 1;
        }
        VisitedStart(n, p);
        ghost var j := 0;
        while true
          invariant j < n && row == PairRow(n, p, j)
          invariant Inside(Visited(n, p, j, 0), n)
          invariant Progress(before, Modules(), n, Visited(n, p, j, 0), data, maskPattern, byteIndex, bitIndex)
          decreases n - j
        {
          for c := 0 to 2
            invariant Inside(Visited(n, p, j, c), n)
            invariant Progress(before, Modules(), n, Visited(n, p, j, c), data, maskPattern, byteIndex, bitIndex)
          {
            VisitedNew(n, p, j, c);
            var visit;
            visit, byteIndex, bitIndex := Visit(row, col - c, data, maskPattern, byteIndex, bitIndex, before,
                                                Visited(n, p, j, c));
            if visit.Throw? {
              NullOnWalk(before, n, (row, col - c), p);
              return Throw(visit.error);
            }
          }
          VisitedRow(n, p, j);
          NextRow(n, p, j);
          j := j + 1;
          row := row + inc;
          if row < 0 || moduleCount <= row {
            row := row - inc;
            inc := -inc;
            break;
          }
        }
        p := p + 1;
        col := col - 2;
        WalkHead(n, p);
      }
      WalkEnd(n, p);
      ProgressDone(before, Modules(), n, data, maskPattern, byteIndex, bitIndex);
      return Ok(());
    }
  }

  // ----- the counters of the walk -----

  /** The column counter at the head of the outer loop, before it steps over column 6. */
  function HeadColumn(n: nat, p: nat): int {
    if n - 1 - 2 * p >= 6 then n - 1 - 2 * p else n - 2 - 2 * p
  }

  function PairStep(p: nat): int {
    if p % 2 == 0 then -1 else 1
  }

  lemma WalkHead(n: nat, p: nat)
    requires ValidSize(n) && 2 * p <= n - 1
    ensures HeadColumn(n, 0) == n - 1 && PairRow(n, 0, 0) == n - 1 && PairStep(0) == -1
    ensures HeadColumn(n, p) > 0 <==> 2 * p < n - 1
    ensures 2 * p < n - 1 ==> PairColumn(n, p) == if HeadColumn(n, p) == 6 then 5 else HeadColumn(n, p)
    ensures 2 * p < n - 1 ==> HeadColumn(n, p + 1) == PairColumn(n, p) - 2
  {
  }

  lemma NextRow(n: nat, p: nat, j: nat)
    requires ValidSize(n) && j < n
    ensures j + 1 < n ==> PairRow(n, p, j + 1) == PairRow(n, p, j) + PairStep(p) && 0 <= PairRow(n, p, j + 1) < n
    ensures j + 1 == n ==> !(0 <= PairRow(n, p, j) + PairStep(p) < n) && PairRow(n, p + 1, 0) == PairRow(n, p, j)
    ensures PairStep(p + 1) == -PairStep(p)
  {
  }

  lemma WalkEnd(n: nat, p: nat)
    requires ValidSize(n) && 2 * p <= n - 1 && HeadColumn(n, p) <= 0
    ensures Walk(n, p) == WholeWalk(n)
  {
  }

  lemma ProgressStart(before: Grid, n: nat, data: seq<Cell>, maskPattern: int)
    requires ValidGrid(before, n) && ValidSize(n)
    ensures Inside(Walk(n, 0), n) && Progress(before, before, n, Walk(n, 0), data, maskPattern, 0, 7)
  {
  }

  lemma ProgressDone(before: Grid, after: Grid, n: nat, data: seq<Cell>, maskPattern: int, byteIndex: int,
                     bitIndex: int)
    requires ValidGrid(before, n) && ValidGrid(after, n) && ValidSize(n)
    requires Progress(before, after, n, WholeWalk(n), data, maskPattern, byteIndex, bitIndex)
    ensures var nulls := Nulls(before, n, WholeWalk(n));
            Placed(before, after, n, nulls, data, maskPattern) && (nulls != [] ==> 0 <= maskPattern < 8)
  {
  }

  lemma NullOnWalk(before: Grid, n: nat, x: Position, p: nat)
    requires ValidGrid(before, n) && ValidSize(n) && 2 * p < n - 1
    requires x.0 < n && (x.1 == PairColumn(n, p) || x.1 == PairColumn(n, p) - 1) && before[x.0][x.1] == None
    ensures Nulls(before, n, WholeWalk(n)) != []
  {
    hide Nulls, PairColumn, WholeWalk;
    PairColumnOf(n, p);
    WholeWalkVisits(n);
    assert x == (x.0, x.1);
    NullsMember(before, n, WholeWalk(n), x);
  }

  lemma NullsMember(before: Grid, n: nat, cells: seq<Position>, x: Position)
    requires ValidGrid(before, n) && Inside(cells, n) && x in cells && before[x.0][x.1] == None
    ensures x in Nulls(before, n, cells)
  {
  }

  lemma NotFilled(before: Grid, n: nat, cells: seq<Position>, x: Position)
    requires ValidGrid(before, n) && Inside(cells, n) && x !in cells
    ensures x !in Nulls(before, n, cells)
  {
  }

  lemma NothingPlaced(before: Grid, after: Grid, n: nat, filled: seq<Position>, data: seq<Cell>, maskPattern: int)
    requires ValidGrid(before, n) && ValidGrid(after, n) && Inside(filled, n)
    requires Placed(before, after, n, filled, data, maskPattern) && !(0 <= maskPattern < 8)
    ensures after == before
  {
    assert filled == [];
    forall r | 0 <= r < n
      ensures after[r] == before[r]
    {
      forall c | 0 <= c < n
        ensures after[r][c] == before[r][c]
      {
      }
    }
  }
}
