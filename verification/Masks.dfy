/** The eight data masks (ISO/IEC 18004, section 7.8.2), by the patterns they draw. */
module Masks {
  import opened JsValues
  import opened MapData

  /** Whether a mask flips a cell. */
  predicate Flips(maskPattern: nat, i: nat, j: nat) {
    GetMask(maskPattern, i, j) == Ok(true)
  }

  lemma PatternsExist(maskPattern: int, i: nat, j: nat)
    ensures GetMask(maskPattern, i, j).Ok? <==> 0 <= maskPattern <= 7
  {
  }

  /** A chessboard. */
  lemma Chessboard(i: nat, j: nat)
    ensures Flips(0, 0, 0)
    ensures Flips(0, i + 1, j) <==> !Flips(0, i, j)
    ensures Flips(0, i, j + 1) <==> !Flips(0, i, j)
  {
  }

  /** Every other row. */
  lemma Rows(i: nat, j: nat)
    ensures Flips(1, 0, j)
    ensures Flips(1, i + 1, j) <==> !Flips(1, i, j)
    ensures Flips(1, i, j + 1) <==> Flips(1, i, j)
  {
  }

  /** Every third column. */
  lemma Columns(i: nat, j: nat)
    ensures Flips(2, i, 0) && !Flips(2, i, 1) && !Flips(2, i, 2)
    ensures Flips(2, i, j + 3) <==> Flips(2, i, j)
    ensures Flips(2, i + 1, j) <==> Flips(2, i, j)
  {
  }

  /** Every third antidiagonal. */
  lemma Antidiagonals(i: nat, j: nat)
    ensures Flips(3, 0, 0) && !Flips(3, 0, 1) && !Flips(3, 0, 2)
    ensures Flips(3, i, j + 3) <==> Flips(3, i, j)
    ensures Flips(3, i + 1, j) <==> Flips(3, i, j + 1)
  {
  }

  // ----- the patterns that repeat in tiles -----

  const BLOCKS := ["###...", "###...", "...###", "...###"]
  const CROSSES := ["######", "#.....", "#..#..", "#.#.#.", "#..#..", "#....."]
  const DIAMONDS := ["######", "###...", "##.##.", "#.#.#.", "#.##.#", "#...##"]
  const WEAVE := ["#.#.#.", "...###", "#...##", ".#.#.#", "###...", ".###.."]

  /** The cell of a tile that lies over (i, j). */
  predicate Inked(tile: seq<string>, i: nat, j: nat)
    requires |tile| > 0 && forall r :: 0 <= r < |tile| ==> |tile[r]| == 6
  {
    tile[i % |tile|][j % 6] == '#'
  }

  lemma SameParity(a: nat, q: nat, r: nat)
    requires a == 2 * q + r
    ensures a % 2 == r % 2
  {
  }

  lemma SameThird(a: nat, q: nat, r: nat)
    requires a == 3 * q + r
    ensures a % 3 == r % 3
  {
  }

  /** Products repeat with period six in both factors, modulo two and three. */
  lemma ProductRepeats(i: nat, j: nat)
    ensures (i * j) % 2 == ((i % 6) * (j % 6)) % 2
    ensures (i * j) % 3 == ((i % 6) * (j % 6)) % 3
  {
    var a, u, b, v := i / 6, i % 6, j / 6, j % 6;
    Expanded(a, u, b, v);
    var q := a * (6 * b + v) + u * b;
    assert i == 6 * a + u && j == 6 * b + v;
    SixFold(i * j, q, u * v);
  }

  lemma SixFold(a: nat, q: nat, r: nat)
    requires a == 6 * q + r
    ensures a % 2 == r % 2 && a % 3 == r % 3
  {
    SameParity(a, 3 * q, r);
    SameThird(a, 2 * q, r);
  }

  lemma Expanded(a: nat, u: nat, b: nat, v: nat)
    ensures (6 * a + u) * (6 * b + v) == 6 * (a * (6 * b + v) + u * b) + u * v
  {
    var t := 6 * b + v;
    SumTimes(6 * a, u, t);
    assert 6 * a * t == 6 * (a * t);
    SumTimes(6 * b, v, u);
    assert u * t == t * u;
    assert 6 * b * u == 6 * (u * b);
  }

  lemma SumTimes(x: nat, y: nat, z: nat)
    ensures (x + y) * z == x * z + y * z
  {
  }

  /** Blocks of two by three. */
  lemma Blocks(i: nat, j: nat)
    ensures Flips(4, i, j) <==> Inked(BLOCKS, i, j)
  {
    HalfRow(i);
    ThirdColumn(j);
    SameParity(i / 2 + j / 3, i / 4 + j / 6, i % 4 / 2 + j % 6 / 3);
    BlockTile(i % 4, j % 6);
  }

  lemma HalfRow(i: nat)
    ensures i / 2 == 2 * (i / 4) + i % 4 / 2
  {
  }

  lemma ThirdColumn(j: nat)
    ensures j / 3 == 2 * (j / 6) + j % 6 / 3
  {
  }

  lemma BlockTile(u: nat, v: nat)
    requires u < 4 && v < 6
    ensures (u / 2 + v / 3) % 2 == 0 <==> BLOCKS[u][v] == '#'
  {
  }

  lemma Crosses(i: nat, j: nat)
    ensures Flips(5, i, j) <==> Inked(CROSSES, i, j)
  {
    ProductRepeats(i, j);
    CrossTile(i % 6, j % 6);
  }

  lemma CrossTile(u: nat, v: nat)
    requires u < 6 && v < 6
    ensures (u * v) % 2 + (u * v) % 3 == 0 <==> CROSSES[u][v] == '#'
  {
    assert u == 0 || u == 1 || u == 2 || u == 3 || u == 4 || u == 5;
  }

  lemma Diamonds(i: nat, j: nat)
    ensures Flips(6, i, j) <==> Inked(DIAMONDS, i, j)
  {
    ProductRepeats(i, j);
    DiamondTile(i % 6, j % 6);
  }

  lemma DiamondTile(u: nat, v: nat)
    requires u < 6 && v < 6
    ensures ((u * v) % 2 + (u * v) % 3) % 2 == 0 <==> DIAMONDS[u][v] == '#'
  {
    assert u == 0 || u == 1 || u == 2 || u == 3 || u == 4 || u == 5;
  }

  lemma Weave(i: nat, j: nat)
    ensures Flips(7, i, j) <==> Inked(WEAVE, i, j)
  {
    ProductRepeats(i, j);
    SumRepeats(i, j);
    WeaveTile(i % 6, j % 6);
  }

  lemma SumRepeats(i: nat, j: nat)
    ensures (i + j) % 2 == (i % 6 + j % 6) % 2
  {
    SameParity(i + j, 3 * (i / 6) + 3 * (j / 6), i % 6 + j % 6);
  }

  lemma WeaveTile(u: nat, v: nat)
    requires u < 6 && v < 6
    ensures ((u * v) % 3 + (u + v) % 2) % 2 == 0 <==> WEAVE[u][v] == '#'
  {
    assert u == 0 || u == 1 || u == 2 || u == 3 || u == 4 || u == 5;
  }
}
