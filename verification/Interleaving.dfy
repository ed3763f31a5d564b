/**
 Column-wise interleaving of rows of unequal length (ISO/IEC 18004, section 7.6),
 and its inverse.
 */
module Interleaving {

  /** The entries in column `i` of the first `r` rows; shorter rows are skipped. */
  function Column<T>(rows: seq<seq<T>>, i: nat, r: nat): seq<T>
    requires r <= |rows|
  {
    if r == 0 then []
    else Column(rows, i, r - 1) + if i < |rows[r - 1]| then [rows[r - 1][i]] else []
  }

  /** The first `m` columns, one after the other. */
  function Interleave<T>(rows: seq<seq<T>>, m: nat): seq<T> {
    if m == 0 then [] else Interleave(rows, m - 1) + Column(rows, m - 1, |rows|)
  }

  function Lengths<T>(rows: seq<seq<T>>): (lens: seq<nat>)
    ensures |lens| == |rows|
    ensures forall r :: 0 <= r < |rows| ==> lens[r] == |rows[r]|
  {
    seq(|rows|, r requires 0 <= r < |rows| => |rows[r]|)
  }

  /** How many of the first `r` rows reach column `i`. */
  function Count(lens: seq<nat>, i: nat, r: nat): nat
    requires r <= |lens|
  {
    if r == 0 then 0 else Count(lens, i, r - 1) + if i < lens[r - 1] then 1 else 0
  }

  /** Where column `i` starts. */
  function Start(lens: seq<nat>, i: nat): nat {
    if i == 0 then 0 else Start(lens, i - 1) + Count(lens, i - 1, |lens|)
  }

  function Total(lens: seq<nat>): nat {
    if lens == [] then 0 else Total(lens[..|lens| - 1]) + lens[|lens| - 1]
  }

  /** Where entry `i` of row `r` goes. */
  function Position(lens: seq<nat>, i: nat, r: nat): nat
    requires r <= |lens|
  {
    Start(lens, i) + Count(lens, i, r)
  }

  ghost predicate Reaches(lens: seq<nat>, m: nat) {
    forall r :: 0 <= r < |lens| ==> lens[r] <= m
  }

  /** The rows read back from the positions their entries went to. */
  function Deinterleave<T>(lens: seq<nat>, s: seq<T>): (rows: seq<seq<T>>)
    requires |s| == Total(lens)
    ensures Lengths(rows) == lens
  {
    PositionsInRange(lens);
    seq(|lens|, r requires 0 <= r < |lens| =>
      seq(lens[r], i requires 0 <= i < lens[r] => s[Position(lens, i, r)]))
  }

  // ----- sizes -----

  function Min(a: nat, b: nat): nat {
    if a < b then a else b
  }

  function Capped(lens: seq<nat>, m: nat, r: nat): nat
    requires r <= |lens|
  {
    if r == 0 then 0 else Capped(lens, m, r - 1) + Min(m, lens[r - 1])
  }

  lemma {:induction false} CappedNext(lens: seq<nat>, m: nat, r: nat)
    requires r <= |lens|
    ensures Capped(lens, m + 1, r) == Capped(lens, m, r) + Count(lens, m, r)
  {
    if r > 0 {
      CappedNext(lens, m, r - 1);
    }
  }

  lemma {:induction false} CappedZero(lens: seq<nat>, r: nat)
    requires r <= |lens|
    ensures Capped(lens, 0, r) == 0
  {
    if r > 0 {
      CappedZero(lens, r - 1);
    }
  }

  lemma {:induction false} StartIsCapped(lens: seq<nat>, m: nat)
    ensures Start(lens, m) == Capped(lens, m, |lens|)
  {
    if m == 0 {
      CappedZero(lens, |lens|);
    } else {
      StartIsCapped(lens, m - 1);
      CappedNext(lens, m - 1, |lens|);
    }
  }

  lemma {:induction false} CappedTotal(lens: seq<nat>, m: nat, r: nat)
    requires r <= |lens| && Reaches(lens, m)
    ensures Capped(lens, m, r) == Total(lens[..r])
  {
    if r > 0 {
      CappedTotal(lens, m, r - 1);
      assert lens[..r][..r - 1] == lens[..r - 1];
    }
  }

  /** Once every row is exhausted, all entries have been placed. */
  lemma StartTotal(lens: seq<nat>, m: nat)
    requires Reaches(lens, m)
    ensures Start(lens, m) == Total(lens)
  {
    StartIsCapped(lens, m);
    CappedTotal(lens, m, |lens|);
    assert lens[..|lens|] == lens;
  }

  lemma {:induction false} StartMonotonic(lens: seq<nat>, i: nat, m: nat)
    requires i <= m
    ensures Start(lens, i) <= Start(lens, m)
  {
    if i < m {
      StartMonotonic(lens, i, m - 1);
    }
  }

  lemma {:induction false} CountMonotonic(lens: seq<nat>, i: nat, r: nat, n: nat)
    requires r <= n <= |lens|
    ensures Count(lens, i, r) <= Count(lens, i, n)
  {
    if r < n {
      CountMonotonic(lens, i, r, n - 1);
    }
  }

  /** The entry (i, r) has its own slot within the columns up to `m`. */
  lemma PositionBound(lens: seq<nat>, i: nat, r: nat, m: nat)
    requires r < |lens| && i < lens[r] && i < m
    ensures Position(lens, i, r) < Start(lens, m)
  {
    CountMonotonic(lens, i, r + 1, |lens|);
    StartMonotonic(lens, i + 1, m);
  }

  /** Entries go column by column, and within a column row by row. */
  lemma PositionOrder(lens: seq<nat>, i: nat, r: nat, j: nat, q: nat)
    requires r < |lens| && i < lens[r] && q < |lens| && j < lens[q]
    ensures Position(lens, i, r) < Position(lens, j, q) <==> i < j || (i == j && r < q)
  {
    hide Start;
    if i < j {
      PositionBefore(lens, i, r, j, q);
    } else if j < i || q < r {
      PositionBefore(lens, j, q, i, r);
    } else if r < q {
      PositionBefore(lens, i, r, j, q);
    }
  }

  lemma PositionBefore(lens: seq<nat>, i: nat, r: nat, j: nat, q: nat)
    requires r < |lens| && i < lens[r] && q <= |lens| && (i < j || (i == j && r < q))
    ensures Position(lens, i, r) < Position(lens, j, q)
  {
    if i < j {
      PositionBound(lens, i, r, j);
    } else {
      CountMonotonic(lens, i, r + 1, q);
    }
  }

  lemma {:induction false} ReachExists(lens: seq<nat>) returns (m: nat)
    ensures Reaches(lens, m)
  {
    if lens == [] {
      m := 0;
    } else {
      var n := |lens| - 1;
      var k := ReachExists(lens[..n]);
      m := if k < lens[n] then lens[n] else k;
      forall r | 0 <= r < |lens|
        ensures lens[r] <= m
      {
        assert r < n ==> lens[r] == lens[..n][r];
      }
    }
  }

  lemma PositionsInRange(lens: seq<nat>)
    ensures forall r, i: nat :: 0 <= r < |lens| && i < lens[r] ==> Position(lens, i, r) < Total(lens)
  {
    var m := ReachExists(lens);
    StartTotal(lens, m);
    forall r, i: nat | 0 <= r < |lens| && i < lens[r]
      ensures Position(lens, i, r) < Total(lens)
    {
      PositionBound(lens, i, r, m);
    }
  }

  // ----- every entry is where Position says -----

  lemma {:induction false} ColumnCount<T>(rows: seq<seq<T>>, i: nat, r: nat)
    requires r <= |rows|
    ensures |Column(rows, i, r)| == Count(Lengths(rows), i, r)
  {
    if r > 0 {
      ColumnCount(rows, i, r - 1);
    }
  }

  lemma {:induction false} InterleaveLength<T>(rows: seq<seq<T>>, m: nat)
    ensures |Interleave(rows, m)| == Start(Lengths(rows), m)
  {
    hide Column, Count, Lengths;
    if m > 0 {
      InterleaveLength(rows, m - 1);
      ColumnCount(rows, m - 1, |rows|);
    }
  }

  lemma {:induction false} ColumnEntry<T>(rows: seq<seq<T>>, i: nat, r: nat, n: nat)
    requires r < n <= |rows| && i < |rows[r]|
    ensures var p := Count(Lengths(rows), i, r);
            p < |Column(rows, i, n)| && Column(rows, i, n)[p] == rows[r][i]
  {
    ColumnCount(rows, i, n - 1);
    if r < n - 1 {
      ColumnEntry(rows, i, r, n - 1);
    }
  }

  lemma {:induction false} InterleaveEntry<T>(rows: seq<seq<T>>, m: nat, i: nat, r: nat)
    requires r < |rows| && i < |rows[r]| && i < m
    ensures var p := Position(Lengths(rows), i, r);
            p < |Interleave(rows, m)| && Interleave(rows, m)[p] == rows[r][i]
  {
    hide Count, Column, Lengths;
    var before, last := Interleave(rows, m - 1), Column(rows, m - 1, |rows|);
    assert Interleave(rows, m) == before + last;
    if i < m - 1 {
      InterleaveEntry(rows, m - 1, i, r);
      assert (before + last)[Position(Lengths(rows), i, r)] == rows[r][i];
    } else {
      InterleaveLength(rows, m - 1);
      ColumnEntry(rows, i, r, |rows|);
      assert (before + last)[|before| + Count(Lengths(rows), i, r)] == rows[r][i];
    }
  }

  /** De-interleaving recovers every row in order. */
  lemma DeinterleaveInterleave<T>(rows: seq<seq<T>>, m: nat)
    requires Reaches(Lengths(rows), m)
    ensures |Interleave(rows, m)| == Total(Lengths(rows))
    ensures Deinterleave(Lengths(rows), Interleave(rows, m)) == rows
  {
    hide Interleave, Start, Count;
    var lens, s := Lengths(rows), Interleave(rows, m);
    InterleaveLength(rows, m);
    StartTotal(lens, m);
    forall r | 0 <= r < |rows|
      ensures Deinterleave(lens, s)[r] == rows[r]
    {
      forall i | 0 <= i < |rows[r]|
        ensures Deinterleave(lens, s)[r][i] == rows[r][i]
      {
        InterleaveEntry(rows, m, i, r);
      }
    }
  }

  // ----- no slot is left over -----

  lemma {:induction false} FindInColumn(lens: seq<nat>, i: nat, n: nat, p: nat) returns (r: nat)
    requires n <= |lens| && p < Count(lens, i, n)
    ensures r < n && i < lens[r] && Count(lens, i, r) == p
  {
    if p < Count(lens, i, n - 1) {
      r := FindInColumn(lens, i, n - 1, p);
    } else {
      r := n - 1;
    }
  }

  lemma {:induction false} FindEntry(lens: seq<nat>, m: nat, p: nat) returns (i: nat, r: nat)
    requires p < Start(lens, m)
    ensures i < m && r < |lens| && i < lens[r] && Position(lens, i, r) == p
  {
    if p < Start(lens, m - 1) {
      i, r := FindEntry(lens, m - 1, p);
    } else {
      i := m - 1;
      r := FindInColumn(lens, i, |lens|, p - Start(lens, m - 1));
    }
  }

  /** Interleaving is onto: whatever sequence is de-interleaved, interleaving gives it back. */
  lemma InterleaveDeinterleave<T>(lens: seq<nat>, s: seq<T>, m: nat)
    requires |s| == Total(lens) && Reaches(lens, m)
    ensures Interleave(Deinterleave(lens, s), m) == s
  {
    hide Interleave, Start, Count;
    var rows := Deinterleave(lens, s);
    InterleaveLength(rows, m);
    StartTotal(lens, m);
    forall p | 0 <= p < |s|
      ensures Interleave(rows, m)[p] == s[p]
    {
      var i, r := FindEntry(lens, m, p);
      InterleaveEntry(rows, m, i, r);
    }
  }

  // ----- one row alone -----

  lemma {:induction false} OneStart(lens: seq<nat>, i: nat)
    requires |lens| == 1 && i <= lens[0]
    ensures Start(lens, i) == i
  {
    if i > 0 {
      OneStart(lens, i - 1);
      assert Count(lens, i - 1, 0) == 0;
    }
  }

  /** One row alone stays as it is. */
  lemma OneRow<T>(lens: seq<nat>, s: seq<T>)
    requires |lens| == 1 && |s| == lens[0]
    ensures Total(lens) == lens[0] && Deinterleave(lens, s) == [s]
  {
    assert Total(lens[..0]) == 0;
    var rows := Deinterleave(lens, s);
    assert |rows| == 1 && |rows[0]| == |s|;
    forall i | 0 <= i < |s|
      ensures rows[0][i] == s[i]
    {
      OneStart(lens, i);
    }
    assert rows[0] == s;
  }
}
