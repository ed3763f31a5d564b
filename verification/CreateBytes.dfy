/**
 `QRCodeModel.createBytes`: the data bytes split into blocks, check bytes for each
 block, and both interleaved into the final message (ISO/IEC 18004, sections 7.5.2 and 7.6).
 */
module CreateBytes {
  import opened Gf256
  import opened Interleaving
  import opened JsValues
  import opened Polynomials
  import opened QRMath
  import opened QRPolynomial
  import opened ReedSolomon

  datatype QRRSBlock = QRRSBlock(totalCount: nat, dataCount: nat) {
    function EcCount(): int {
      totalCount - dataCount
    }
  }

  function DataCounts(blocks: seq<QRRSBlock>): (lens: seq<nat>)
    ensures |lens| == |blocks|
  {
    seq(|blocks|, k requires 0 <= k < |blocks| => blocks[k].dataCount)
  }

  ghost predicate ValidBlocks(blocks: seq<QRRSBlock>) {
    forall k :: 0 <= k < |blocks| ==> blocks[k].dataCount <= blocks[k].totalCount
  }

  function EcCounts(blocks: seq<QRRSBlock>): (lens: seq<nat>)
    requires ValidBlocks(blocks)
    ensures |lens| == |blocks|
  {
    seq(|blocks|, k requires 0 <= k < |blocks| => blocks[k].totalCount - blocks[k].dataCount)
  }

  /** `n` bytes of the buffer from `offset` on; bytes past its end read as zero. */
  function Slice(buffer: Poly, offset: nat, n: nat): (block: Poly)
    ensures |block| == n
  {
    seq(n, i requires 0 <= i < n => At(buffer, offset + i))
  }

  /** The data blocks: consecutive slices of the buffer. */
  function DataBlocks(buffer: Poly, lens: seq<nat>): (rows: seq<Poly>)
    ensures |rows| == |lens|
    ensures forall k :: 0 <= k < |lens| ==> |rows[k]| == lens[k]
  {
    seq(|lens|, k requires 0 <= k < |lens| => Slice(buffer, Total(lens[..k]), lens[k]))
  }

  function Flatten(rows: seq<Poly>): Poly {
    if rows == [] then [] else Flatten(rows[..|rows| - 1]) + rows[|rows| - 1]
  }

  lemma SliceInside(buffer: Poly, offset: nat, n: nat)
    requires offset + n <= |buffer|
    ensures Slice(buffer, offset, n) == buffer[offset..offset + n]
  {
    forall i | 0 <= i < n
      ensures Slice(buffer, offset, n)[i] == buffer[offset..offset + n][i]
    {
      assert Slice(buffer, offset, n)[i] == At(buffer, offset + i);
    }
  }

  lemma BlocksPrefix(buffer: Poly, lens: seq<nat>, k: nat)
    requires k <= |lens|
    ensures DataBlocks(buffer, lens)[..k] == DataBlocks(buffer, lens[..k])
  {
    hide Slice;
    forall i | 0 <= i < k
      ensures DataBlocks(buffer, lens)[i] == DataBlocks(buffer, lens[..k])[i]
    {
      assert lens[..k][..i] == lens[..i];
    }
  }

  /** No data byte is lost or repeated by the split. */
  lemma {:induction false} FlattenBlocks(buffer: Poly, lens: seq<nat>)
    requires Total(lens) <= |buffer|
    ensures Flatten(DataBlocks(buffer, lens)) == buffer[..Total(lens)]
  {
    hide Slice;
    if lens != [] {
      var k := |lens| - 1;
      FlattenBlocks(buffer, lens[..k]);
      BlocksPrefix(buffer, lens, k);
      SliceInside(buffer, Total(lens[..k]), lens[k]);
      assert DataBlocks(buffer, lens)[k] == Slice(buffer, Total(lens[..k]), lens[k]);
    }
  }

  ghost function ValRows(rows: seq<seq<Cell>>): (r: seq<Poly>)
    ensures |r| == |rows|
    ensures forall k :: 0 <= k < |rows| ==> r[k] == Vals(rows[k])
  {
    seq(|rows|, k requires 0 <= k < |rows| => Vals(rows[k]))
  }

  lemma {:induction false} ValColumn(rows: seq<seq<Cell>>, i: nat, r: nat)
    requires r <= |rows|
    ensures Vals(Column(rows, i, r)) == Column(ValRows(rows), i, r)
  {
    if r > 0 {
      ValColumn(rows, i, r - 1);
    }
  }

  lemma {:induction false} ValInterleave(rows: seq<seq<Cell>>, m: nat)
    ensures Vals(Interleave(rows, m)) == Interleave(ValRows(rows), m)
  {
    hide Column;
    if m > 0 {
      ValInterleave(rows, m - 1);
      ValColumn(rows, m - 1, |rows|);
      assert Vals(Interleave(rows, m - 1) + Column(rows, m - 1, |rows|))
          == Vals(Interleave(rows, m - 1)) + Vals(Column(rows, m - 1, |rows|));
    }
  }

  /** What a reader of the final message gets back. */
  ghost predicate Message(buffer: Poly, blocks: seq<QRRSBlock>, data: Poly)
    requires ValidBlocks(blocks)
  {
    var d, e := DataCounts(blocks), EcCounts(blocks);
    && |data| == Total(d) + Total(e)
    && Deinterleave(d, data[..Total(d)]) == DataBlocks(buffer, d)
    && forall k :: 0 <= k < |blocks| ==>
      Codeword(DataBlocks(buffer, d)[k] + Deinterleave(e, data[Total(d)..])[k], e[k])
  }

  ghost predicate AnyThrows(buffer: Poly, blocks: seq<QRRSBlock>, n: nat)
    requires n <= |blocks|
  {
    exists k :: 0 <= k < n && BlockThrows(DataBlocks(buffer, DataCounts(blocks))[k], blocks[k].EcCount())
  }

  method TakeBlock(buffer: Poly, offset: nat, dcCount: nat) returns (dcdata: seq<Cell>)
    ensures NoHole(dcdata) && Vals(dcdata) == Slice(buffer, offset, dcCount)
  {
    var row := new Cell[dcCount](_ => Hole);
    for i := 0 to dcCount
      invariant forall k :: 0 <= k < i ==> row[k] == Num(At(buffer, offset + k))
    {
      row[i] := Num(if i + offset < |buffer| then buffer[i + offset] else 0);
    }
    return row[..];
  }

  /** What the nested loops have written when they reach row `r` of column `i`. */
  ghost function Written<T>(rows: seq<seq<T>>, i: nat, r: nat): seq<T>
    requires r <= |rows|
  {
    Interleave(rows, i) + Column(rows, i, r)
  }

  lemma WrittenStart<T>(rows: seq<seq<T>>, i: nat)
    ensures Written(rows, i, 0) == Interleave(rows, i)
    ensures Interleave(rows, 0) == []
    ensures Written(rows, i, |rows|) == Interleave(rows, i + 1)
  {
  }

  lemma WrittenStep<T>(rows: seq<seq<T>>, i: nat, r: nat, max: nat)
    requires r < |rows| && i < max && Reaches(Lengths(rows), max)
    ensures Written(rows, i, r + 1) == Written(rows, i, r) + if i < |rows[r]| then [rows[r][i]] else []
    ensures i < |rows[r]| ==> |Written(rows, i, r)| < Total(Lengths(rows))
  {
    if i < |rows[r]| {
      InterleaveLength(rows, i);
      ColumnCount(rows, i, r);
      PositionBound(Lengths(rows), i, r, max);
      StartTotal(Lengths(rows), max);
    }
  }

  /** The two nested loops that write one kind of rows column by column: they fill their part of the message exactly. */
  method WriteColumns(rows: seq<seq<Cell>>, max: nat, data: array<Cell>, start: nat) returns (index: nat)
    requires Reaches(Lengths(rows), max)
    requires start + Total(Lengths(rows)) <= data.Length
    modifies data
    ensures index == start + Total(Lengths(rows))
    ensures data[start..index] == Interleave(rows, max)
    ensures data[..start] == old(data[..start])
  {
    hide Interleave, Written, Lengths, Total, Column, Reaches;
    index := start;
    WrittenStart(rows, 0);
    for i := 0 to max
      invariant start <= index <= start + Total(Lengths(rows))
      invariant data[start..index] == Interleave(rows, i)
      invariant data[..start] == old(data[..start])
    {
      WrittenStart(rows, i);
      for r := 0 to |rows|
        invariant start <= index <= start + Total(Lengths(rows))
        invariant data[start..index] == Written(rows, i, r)
        invariant data[..start] == old(data[..start])
      {
        WrittenStep(rows, i, r, max);
        if i < |rows[r]| {
          data[index] := rows[r][i];
          index := index + 1;
        }
      }
    }
    InterleaveLength(rows, max);
    StartTotal(Lengths(rows), max);
  }

  /** The rows of the first `n` blocks: data as sliced, checks completing a codeword. */
  ghost predicate Rows(buffer: Poly, blocks: seq<QRRSBlock>, n: nat, dcdata: seq<seq<Cell>>, ecdata: seq<seq<Cell>>)
    requires ValidBlocks(blocks) && n <= |blocks|
  {
    && |dcdata| == |ecdata| == n
    && forall k :: 0 <= k < n ==>
      && Vals(dcdata[k]) == DataBlocks(buffer, DataCounts(blocks))[k]
      && |ecdata[k]| == EcCounts(blocks)[k]
      && Codeword(Vals(dcdata[k]) + Vals(ecdata[k]), EcCounts(blocks)[k])
  }

  lemma NoRows(buffer: Poly, blocks: seq<QRRSBlock>)
    requires ValidBlocks(blocks)
    ensures Rows(buffer, blocks, 0, [], []) && !AnyThrows(buffer, blocks, 0)
    ensures Total(DataCounts(blocks)[..0]) == 0
  {
  }

  lemma NextRow(buffer: Poly, blocks: seq<QRRSBlock>, n: nat, dcdata: seq<seq<Cell>>, ecdata: seq<seq<Cell>>,
                dc: seq<Cell>, ec: seq<Cell>)
    requires ValidBlocks(blocks) && n < |blocks| && Rows(buffer, blocks, n, dcdata, ecdata)
    requires Vals(dc) == Slice(buffer, Total(DataCounts(blocks)[..n]), blocks[n].dataCount)
    requires |ec| == EcCounts(blocks)[n] && Codeword(Vals(dc) + Vals(ec), |ec|)
    ensures Rows(buffer, blocks, n + 1, dcdata + [dc], ecdata + [ec])
  {
    hide Codeword, Vals, Slice;
  }

  lemma NextBlock(buffer: Poly, blocks: seq<QRRSBlock>, n: nat)
    requires ValidBlocks(blocks) && n < |blocks|
    ensures blocks[n].EcCount() == EcCounts(blocks)[n] && blocks[n].dataCount == DataCounts(blocks)[n]
    ensures Total(DataCounts(blocks)[..n + 1]) == Total(DataCounts(blocks)[..n]) + blocks[n].dataCount
    ensures AnyThrows(buffer, blocks, n + 1) <==>
            AnyThrows(buffer, blocks, n)
              || BlockThrows(Slice(buffer, Total(DataCounts(blocks)[..n]), blocks[n].dataCount), EcCounts(blocks)[n])
    ensures AnyThrows(buffer, blocks, n + 1) ==> AnyThrows(buffer, blocks, |blocks|)
  {
    hide BlockThrows, Slice;
    var d := DataCounts(blocks);
    assert d[..n + 1][..n] == d[..n];
    assert DataBlocks(buffer, d)[n] == Slice(buffer, Total(d[..n]), d[n]);
  }

  lemma ReachesMore(rows: seq<seq<Cell>>, max: nat, row: seq<Cell>)
    requires Reaches(Lengths(rows), max)
    ensures Reaches(Lengths(rows + [row]), Max(max, |row|))
  {
    var more := rows + [row];
    forall r | 0 <= r < |more|
      ensures Lengths(more)[r] <= Max(max, |row|)
    {
      assert r < |rows| ==> more[r] == rows[r] && Lengths(rows)[r] == |rows[r]|;
    }
  }

  function Max(a: int, b: int): int {
    if a < b then b else a
  }

  /** The first loop: data row and check row of every block, and the two longest row lengths. */
  method BuildRows(math: QRMath, buffer: Poly, blocks: seq<QRRSBlock>)
    returns (r: Result<()>, dcdata: seq<seq<Cell>>, ecdata: seq<seq<Cell>>, maxDcCount: nat, maxEcCount: nat)
    requires math.Valid() && ValidBlocks(blocks)
    ensures r.Throw? <==> AnyThrows(buffer, blocks, |blocks|)
    ensures r.Ok? ==> Rows(buffer, blocks, |blocks|, dcdata, ecdata)
    ensures r.Ok? ==> Reaches(Lengths(dcdata), maxDcCount) && Reaches(Lengths(ecdata), maxEcCount)
  {
    hide Rows, AnyThrows, Codeword, BlockThrows, Slice, Total, Lengths, Reaches, Vals, DataCounts, EcCounts, NoHole;
    var offset := 0;
    maxDcCount, maxEcCount := 0, 0;
    dcdata, ecdata := [], [];
    NoRows(buffer, blocks);
    NothingReaches();
    for k := 0 to |blocks|
      invariant offset == Total(DataCounts(blocks)[..k])
      invariant Rows(buffer, blocks, k, dcdata, ecdata)
      invariant Reaches(Lengths(dcdata), maxDcCount) && Reaches(Lengths(ecdata), maxEcCount)
      invariant !AnyThrows(buffer, blocks, k)
    {
      NextBlock(buffer, blocks, k);
      var dcCount, ecCount := blocks[k].dataCount, blocks[k].EcCount();
      ghost var m, n := maxDcCount, maxEcCount;
      maxDcCount := Max(maxDcCount, dcCount);
      maxEcCount := Max(maxEcCount, ecCount);
      var dc := TakeBlock(buffer, offset, dcCount);
      var ec := CheckBytes(math, dc, ecCount);
      if ec.Throw? {
        return Throw(ec.error), [], [], 0, 0;
      }
      offset := offset + dcCount;
      NextRow(buffer, blocks, k, dcdata, ecdata, dc, ec.value);
      ReachesMore(dcdata, m, dc);
      ReachesMore(ecdata, n, ec.value);
      dcdata, ecdata := dcdata + [dc], ecdata + [ec.value];
    }
    return Ok(()), dcdata, ecdata, maxDcCount, maxEcCount;
  }

  lemma NothingReaches()
    ensures Reaches(Lengths<Cell>([]), 0)
  {
  }

  /**
   * It throws exactly when some block asks for more check bytes than the field allows; otherwise a reader of the
   * message gets every block back, completed to a codeword.
   */
  method CreateBytes(math: QRMath, buffer: Poly, blocks: seq<QRRSBlock>) returns (r: Result<seq<Cell>>)
    requires math.Valid() && ValidBlocks(blocks)
    ensures r.Throw? <==> AnyThrows(buffer, blocks, |blocks|)
    ensures r.Ok? ==> Message(buffer, blocks, Vals(r.value))
  {
    hide Rows, AnyThrows, Total, Lengths, Reaches, Vals, Message, Interleave;
    var rows, dcdata, ecdata, maxDcCount, maxEcCount := BuildRows(math, buffer, blocks);
    if rows.Throw? {
      return Throw(rows.error);
    }
    RowTotals(buffer, blocks, dcdata, ecdata);
    NoTotal(blocks);
    var totalCodeCount := 0;
    for i := 0 to |blocks|
      invariant totalCodeCount == Total(DataCounts(blocks)[..i]) + Total(EcCounts(blocks)[..i])
    {
      TotalNext(blocks, i);
      totalCodeCount := totalCodeCount + blocks[i].totalCount;
    }
    assert DataCounts(blocks)[..|blocks|] == DataCounts(blocks);
    assert EcCounts(blocks)[..|blocks|] == EcCounts(blocks);
    var data := new Cell[totalCodeCount](_ => Hole);
    var index := WriteColumns(dcdata, maxDcCount, data, 0);
    ghost var first := data[..index];
    ghost var mid := index;
    index := WriteColumns(ecdata, maxEcCount, data, index);
    assert index == totalCodeCount;
    assert data[..] == first + data[mid..index];
    MessageDone(buffer, blocks, dcdata, ecdata, maxDcCount, maxEcCount, data[..]);
    return Ok(data[..]);
  }

  lemma NoTotal(blocks: seq<QRRSBlock>)
    requires ValidBlocks(blocks)
    ensures Total(DataCounts(blocks)[..0]) == 0 && Total(EcCounts(blocks)[..0]) == 0
  {
  }

  lemma TotalNext(blocks: seq<QRRSBlock>, i: nat)
    requires ValidBlocks(blocks) && i < |blocks|
    ensures Total(DataCounts(blocks)[..i + 1]) + Total(EcCounts(blocks)[..i + 1])
         == Total(DataCounts(blocks)[..i]) + Total(EcCounts(blocks)[..i]) + blocks[i].totalCount
  {
    assert DataCounts(blocks)[..i + 1][..i] == DataCounts(blocks)[..i];
    assert EcCounts(blocks)[..i + 1][..i] == EcCounts(blocks)[..i];
  }

  lemma RowTotals(buffer: Poly, blocks: seq<QRRSBlock>, dcdata: seq<seq<Cell>>, ecdata: seq<seq<Cell>>)
    requires ValidBlocks(blocks) && Rows(buffer, blocks, |blocks|, dcdata, ecdata)
    ensures Lengths(dcdata) == DataCounts(blocks) && Lengths(ecdata) == EcCounts(blocks)
  {
    hide Codeword;
    forall k | 0 <= k < |blocks|
      ensures |dcdata[k]| == DataCounts(blocks)[k]
    {
      assert |Vals(dcdata[k])| == |dcdata[k]|;
    }
  }

  lemma MessageDone(buffer: Poly, blocks: seq<QRRSBlock>, dcdata: seq<seq<Cell>>, ecdata: seq<seq<Cell>>, m: nat,
                    n: nat, data: seq<Cell>)
    requires ValidBlocks(blocks) && Rows(buffer, blocks, |blocks|, dcdata, ecdata)
    requires Reaches(Lengths(dcdata), m) && Reaches(Lengths(ecdata), n)
    requires data == Interleave(dcdata, m) + Interleave(ecdata, n)
    ensures Message(buffer, blocks, Vals(data))
  {
    hide Codeword, Interleave, Deinterleave, Reaches, DataBlocks, Total;
    var d, e := DataCounts(blocks), EcCounts(blocks);
    RowTotals(buffer, blocks, dcdata, ecdata);
    ValInterleave(dcdata, m);
    ValInterleave(ecdata, n);
    var dc, ec := ValRows(dcdata), ValRows(ecdata);
    assert Lengths(dc) == d && Lengths(ec) == e;
    DeinterleaveInterleave(dc, m);
    DeinterleaveInterleave(ec, n);
    assert Vals(data) == Interleave(dc, m) + Interleave(ec, n);
    assert Vals(data)[..Total(d)] == Interleave(dc, m);
    assert Vals(data)[Total(d)..] == Interleave(ec, n);
    assert dc == DataBlocks(buffer, d);
  }

  /** A message in one block is the data followed by its check bytes. */
  lemma SingleBlock(buffer: Poly, block: QRRSBlock, data: Poly)
    requires ValidBlocks([block]) && Message(buffer, [block], data) && |buffer| == block.dataCount
    ensures |data| == block.totalCount && data[..block.dataCount] == buffer
    ensures Codeword(data, block.totalCount - block.dataCount)
  {
    hide Codeword, Deinterleave, Total, Slice;
    var d, e, n := DataCounts([block]), EcCounts([block]), block.dataCount;
    NothingBefore(d);
    NothingBefore(e);
    assert |data| == block.totalCount;
    OneRow(d, data[..n]);
    OneRow(e, data[n..]);
    SliceInside(buffer, 0, n);
    assert buffer[0..0 + n] == buffer;
    assert DataBlocks(buffer, d)[0] == buffer;
    assert data == data[..n] + data[n..];
  }

  lemma NothingBefore(lens: seq<nat>)
    requires |lens| == 1
    ensures Total(lens[..0]) == 0 && Total(lens) == lens[0]
  {
    assert Total(lens[..0]) == 0;
  }
}
