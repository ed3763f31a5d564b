/** `QRRSBlock`: the block table of the encoder, what it lists, and what every row of it keeps to. */
module RSBlocks {
  import opened BitStream
  import opened Bits
  import opened CreateBytes
  import opened CreateData
  import opened Interleaving
  import opened JsValues

  const LEVEL_L := 1
  const LEVEL_M := 0
  const LEVEL_Q := 3
  const LEVEL_H := 2

  function Rows1To5(k: nat): seq<nat> {
    match k
    case 0 => [1, 26, 19]
    case 1 => [1, 26, 16]
    case 2 => [1, 26, 13]
    case 3 => [1, 26, 9]
    case 4 => [1, 44, 34]
    case 5 => [1, 44, 28]
    case 6 => [1, 44, 22]
    case 7 => [1, 44, 16]
    case 8 => [1, 70, 55]
    case 9 => [1, 70, 44]
    case 10 => [2, 35, 17]
    case 11 => [2, 35, 13]
    case 12 => [1, 100, 80]
    case 13 => [2, 50, 32]
    case 14 => [2, 50, 24]
    case 15 => [4, 25, 9]
    case 16 => [1, 134, 108]
    case 17 => [2, 67, 43]
    case 18 => [2, 33, 15, 2, 34, 16]
    case _ => [2, 33, 11, 2, 34, 12]
  }

  function Rows6To10(k: nat): seq<nat> {
    match k
    case 0 => [2, 86, 68]
    case 1 => [4, 43, 27]
    case 2 => [4, 43, 19]
    case 3 => [4, 43, 15]
    case 4 => [2, 98, 78]
    case 5 => [4, 49, 31]
    case 6 => [2, 32, 14, 4, 33, 15]
    case 7 => [4, 39, 13, 1, 40, 14]
    case 8 => [2, 121, 97]
    case 9 => [2, 60, 38, 2, 61, 39]
    case 10 => [4, 40, 18, 2, 41, 19]
    case 11 => [4, 40, 14, 2, 41, 15]
    case 12 => [2, 146, 116]
    case 13 => [3, 58, 36, 2, 59, 37]
    case 14 => [4, 36, 16, 4, 37, 17]
    case 15 => [4, 36, 12, 4, 37, 13]
    case 16 => [2, 86, 68, 2, 87, 69]
    case 17 => [4, 69, 43, 1, 70, 44]
    case 18 => [6, 43, 19, 2, 44, 20]
    case _ => [6, 43, 15, 2, 44, 16]
  }

  function Rows11To15(k: nat): seq<nat> {
    match k
    case 0 => [4, 101, 81]
    case 1 => [1, 80, 50, 4, 81, 51]
    case 2 => [4, 50, 22, 4, 51, 23]
    case 3 => [3, 36, 12, 8, 37, 13]
    case 4 => [2, 116, 92, 2, 117, 93]
    case 5 => [6, 58, 36, 2, 59, 37]
    case 6 => [4, 46, 20, 6, 47, 21]
    case 7 => [7, 42, 14, 4, 43, 15]
    case 8 => [4, 133, 107]
    case 9 => [8, 59, 37, 1, 60, 38]
    case 10 => [8, 44, 20, 4, 45, 21]
    case 11 => [12, 33, 11, 4, 34, 12]
    case 12 => [3, 145, 115, 1, 146, 116]
    case 13 => [4, 64, 40, 5, 65, 41]
    case 14 => [11, 36, 16, 5, 37, 17]
    case 15 => [11, 36, 12, 5, 37, 13]
    case 16 => [5, 109, 87, 1, 110, 88]
    case 17 => [5, 65, 41, 5, 66, 42]
    case 18 => [5, 54, 24, 7, 55, 25]
    case _ => [11, 36, 12]
  }

  function Rows16To20(k: nat): seq<nat> {
    match k
    case 0 => [5, 122, 98, 1, 123, 99]
    case 1 => [7, 73, 45, 3, 74, 46]
    case 2 => [15, 43, 19, 2, 44, 20]
    case 3 => [3, 45, 15, 13, 46, 16]
    case 4 => [1, 135, 107, 5, 136, 108]
    case 5 => [10, 74, 46, 1, 75, 47]
    case 6 => [1, 50, 22, 15, 51, 23]
    case 7 => [2, 42, 14, 17, 43, 15]
    case 8 => [5, 150, 120, 1, 151, 121]
    case 9 => [9, 69, 43, 4, 70, 44]
    case 10 => [17, 50, 22, 1, 51, 23]
    case 11 => [2, 42, 14, 19, 43, 15]
    case 12 => [3, 141, 113, 4, 142, 114]
    case 13 => [3, 70, 44, 11, 71, 45]
    case 14 => [17, 47, 21, 4, 48, 22]
    case 15 => [9, 39, 13, 16, 40, 14]
    case 16 => [3, 135, 107, 5, 136, 108]
    case 17 => [3, 67, 41, 13, 68, 42]
    case 18 => [15, 54, 24, 5, 55, 25]
    case _ => [15, 43, 15, 10, 44, 16]
  }

  function Rows21To25(k: nat): seq<nat> {
    match k
    case 0 => [4, 144, 116, 4, 145, 117]
    case 1 => [17, 68, 42]
    case 2 => [17, 50, 22, 6, 51, 23]
    case 3 => [19, 46, 16, 6, 47, 17]
    case 4 => [2, 139, 111, 7, 140, 112]
    case 5 => [17, 74, 46]
    case 6 => [7, 54, 24, 16, 55, 25]
    case 7 => [34, 37, 13]
    case 8 => [4, 151, 121, 5, 152, 122]
    case 9 => [4, 75, 47, 14, 76, 48]
    case 10 => [11, 54, 24, 14, 55, 25]
    case 11 => [16, 45, 15, 14, 46, 16]
    case 12 => [6, 147, 117, 4, 148, 118]
    case 13 => [6, 73, 45, 14, 74, 46]
    case 14 => [11, 54, 24, 16, 55, 25]
    case 15 => [30, 46, 16, 2, 47, 17]
    case 16 => [8, 132, 106, 4, 133, 107]
    case 17 => [8, 75, 47, 13, 76, 48]
    case 18 => [7, 54, 24, 22, 55, 25]
    case _ => [22, 45, 15, 13, 46, 16]
  }

  function Rows26To30(k: nat): seq<nat> {
    match k
    case 0 => [10, 142, 114, 2, 143, 115]
    case 1 => [19, 74, 46, 4, 75, 47]
    case 2 => [28, 50, 22, 6, 51, 23]
    case 3 => [33, 46, 16, 4, 47, 17]
    case 4 => [8, 152, 122, 4, 153, 123]
    case 5 => [22, 73, 45, 3, 74, 46]
    case 6 => [8, 53, 23, 26, 54, 24]
    case 7 => [12, 45, 15, 28, 46, 16]
    case 8 => [3, 147, 117, 10, 148, 118]
    case 9 => [3, 73, 45, 23, 74, 46]
    case 10 => [4, 54, 24, 31, 55, 25]
    case 11 => [11, 45, 15, 31, 46, 16]
    case 12 => [7, 146, 116, 7, 147, 117]
    case 13 => [21, 73, 45, 7, 74, 46]
    case 14 => [1, 53, 23, 37, 54, 24]
    case 15 => [19, 45, 15, 26, 46, 16]
    case 16 => [5, 145, 115, 10, 146, 116]
    case 17 => [19, 75, 47, 10, 76, 48]
    case 18 => [15, 54, 24, 25, 55, 25]
    case _ => [23, 45, 15, 25, 46, 16]
  }

  function Rows31To35(k: nat): seq<nat> {
    match k
    case 0 => [13, 145, 115, 3, 146, 116]
    case 1 => [2, 74, 46, 29, 75, 47]
    case 2 => [42, 54, 24, 1, 55, 25]
    case 3 => [23, 45, 15, 28, 46, 16]
    case 4 => [17, 145, 115]
    case 5 => [10, 74, 46, 23, 75, 47]
    case 6 => [10, 54, 24, 35, 55, 25]
    case 7 => [19, 45, 15, 35, 46, 16]
    case 8 => [17, 145, 115, 1, 146, 116]
    case 9 => [14, 74, 46, 21, 75, 47]
    case 10 => [29, 54, 24, 19, 55, 25]
    case 11 => [11, 45, 15, 46, 46, 16]
    case 12 => [13, 145, 115, 6, 146, 116]
    case 13 => [14, 74, 46, 23, 75, 47]
    case 14 => [44, 54, 24, 7, 55, 25]
    case 15 => [59, 46, 16, 1, 47, 17]
    case 16 => [12, 151, 121, 7, 152, 122]
    case 17 => [12, 75, 47, 26, 76, 48]
    case 18 => [39, 54, 24, 14, 55, 25]
    case _ => [22, 45, 15, 41, 46, 16]
  }

  function Rows36To40(k: nat): seq<nat> {
    match k
    case 0 => [6, 151, 121, 14, 152, 122]
    case 1 => [6, 75, 47, 34, 76, 48]
    case 2 => [46, 54, 24, 10, 55, 25]
    case 3 => [2, 45, 15, 64, 46, 16]
    case 4 => [17, 152, 122, 4, 153, 123]
    case 5 => [29, 74, 46, 14, 75, 47]
    case 6 => [49, 54, 24, 10, 55, 25]
    case 7 => [24, 45, 15, 46, 46, 16]
    case 8 => [4, 152, 122, 18, 153, 123]
    case 9 => [13, 74, 46, 32, 75, 47]
    case 10 => [48, 54, 24, 14, 55, 25]
    case 11 => [42, 45, 15, 32, 46, 16]
    case 12 => [20, 147, 117, 4, 148, 118]
    case 13 => [40, 75, 47, 7, 76, 48]
    case 14 => [43, 54, 24, 22, 55, 25]
    case 15 => [10, 45, 15, 67, 46, 16]
    case 16 => [19, 148, 118, 6, 149, 119]
    case 17 => [18, 75, 47, 31, 76, 48]
    case 18 => [34, 54, 24, 34, 55, 25]
    case _ => [20, 45, 15, 61, 46, 16]
  }

  /** The table: four rows for each version, each row in groups of count, total count and data count. */
  function TableRow(k: nat): seq<nat>
    requires k < 160
  {
    if k < 20 then Rows1To5(k)
    else if k < 40 then Rows6To10(k - 20)
    else if k < 60 then Rows11To15(k - 40)
    else if k < 80 then Rows16To20(k - 60)
    else if k < 100 then Rows21To25(k - 80)
    else if k < 120 then Rows26To30(k - 100)
    else if k < 140 then Rows31To35(k - 120)
    else Rows36To40(k - 140)
  }

  /** Where a level is among the four rows of a version. */
  function LevelRow(errorCorrectLevel: int): Option<nat> {
    if errorCorrectLevel == LEVEL_L then Some(0)
    else if errorCorrectLevel == LEVEL_M then Some(1)
    else if errorCorrectLevel == LEVEL_Q then Some(2)
    else if errorCorrectLevel == LEVEL_H then Some(3)
    else None
  }

  function GetRsBlockTable(typeNumber: int, errorCorrectLevel: int): Option<seq<nat>> {
    if 1 <= typeNumber <= 40 && LevelRow(errorCorrectLevel).Some?
    then Some(TableRow((typeNumber - 1) * 4 + LevelRow(errorCorrectLevel).value))
    else None
  }

  /** The blocks of the first `m` groups of a row. */
  function Groups(row: seq<nat>, m: nat): seq<QRRSBlock>
    requires 3 * m <= |row|
  {
    if m == 0 then []
    else Groups(row, m - 1) + Repeated(QRRSBlock(row[3 * m - 2], row[3 * m - 1]), row[3 * m - 3])
  }

  function Repeated(block: QRRSBlock, count: nat): (blocks: seq<QRRSBlock>)
    ensures |blocks| == count && forall k :: 0 <= k < count ==> blocks[k] == block
  {
    seq(count, _ => block)
  }

  function BlocksOf(row: seq<nat>): seq<QRRSBlock> {
    Groups(row, |row| / 3)
  }

  method GetRSBlocks(typeNumber: int, errorCorrectLevel: int) returns (r: Result<seq<QRRSBlock>>)
    ensures r.Ok? <==> 1 <= typeNumber <= 40 && 0 <= errorCorrectLevel < 4
    ensures r.Ok? ==> r.value == BlocksOf(GetRsBlockTable(typeNumber, errorCorrectLevel).value)
  {
    hide TableRow;
    var rsBlock := GetRsBlockTable(typeNumber, errorCorrectLevel);
    if rsBlock.None? {
      return Throw(BadRsBlock);
    }
    var row := rsBlock.value;
    var list := [];
    for i := 0 to |row| / 3
      invariant list == Groups(row, i)
    {
      var count, totalCount, dataCount := row[i * 3 + 0], row[i * 3 + 1], row[i * 3 + 2];
      for j := 0 to count
        invariant list == Groups(row, i) + Repeated(QRRSBlock(totalCount, dataCount), j)
      {
        list := list + [QRRSBlock(totalCount, dataCount)];
      }
    }
    return Ok(list);
  }

  // ----- what the rows add up to -----

  /** The sum of count times total count, and of count times data count, over the first `m` groups. */
  function CodeCount(row: seq<nat>, m: nat): nat
    requires 3 * m <= |row|
  {
    if m == 0 then 0 else CodeCount(row, m - 1) + row[3 * m - 3] * row[3 * m - 2]
  }

  function DataCount(row: seq<nat>, m: nat): nat
    requires 3 * m <= |row|
  {
    if m == 0 then 0 else DataCount(row, m - 1) + row[3 * m - 3] * row[3 * m - 1]
  }

  /** One group or two, of blocks with at most 30 check bytes. */
  ghost predicate GoodRow(row: seq<nat>) {
    && (|row| == 3 || |row| == 6)
    && row[2] <= row[1] <= row[2] + 30
    && (|row| == 6 ==> row[5] <= row[4] <= row[5] + 30)
  }

  lemma {:induction false} GroupTotals(row: seq<nat>, m: nat)
    requires GoodRow(row) && 3 * m <= |row|
    ensures ValidBlocks(Groups(row, m)) && FewChecks(Groups(row, m))
    ensures Total(DataCounts(Groups(row, m))) == DataCount(row, m)
    ensures Total(DataCounts(Groups(row, m))) + Total(EcCounts(Groups(row, m))) == CodeCount(row, m)
  {
    if m > 0 {
      GroupTotals(row, m - 1);
      var block := QRRSBlock(row[3 * m - 2], row[3 * m - 1]);
      RepeatedTotals(Groups(row, m - 1), block, row[3 * m - 3]);
    }
  }

  ghost predicate FewChecks(blocks: seq<QRRSBlock>) {
    forall k :: 0 <= k < |blocks| ==> blocks[k].EcCount() <= 30
  }

  lemma {:induction false} RepeatedTotals(blocks: seq<QRRSBlock>, block: QRRSBlock, count: nat)
    requires ValidBlocks(blocks) && FewChecks(blocks) && block.dataCount <= block.totalCount <= block.dataCount + 30
    ensures var more := blocks + Repeated(block, count);
            && ValidBlocks(more) && FewChecks(more)
            && Total(DataCounts(more)) == Total(DataCounts(blocks)) + count * block.dataCount
            && Total(DataCounts(more)) + Total(EcCounts(more))
               == Total(DataCounts(blocks)) + Total(EcCounts(blocks)) + count * block.totalCount
  {
    if count == 0 {
      assert blocks + Repeated(block, 0) == blocks;
    } else {
      RepeatedTotals(blocks, block, count - 1);
      var less := blocks + Repeated(block, count - 1);
      assert blocks + Repeated(block, count) == less + [block];
      OneMore(less, block);
      assert count * block.dataCount == (count - 1) * block.dataCount + block.dataCount;
      assert count * block.totalCount == (count - 1) * block.totalCount + block.totalCount;
    }
  }

  lemma OneMore(blocks: seq<QRRSBlock>, block: QRRSBlock)
    requires ValidBlocks(blocks) && block.dataCount <= block.totalCount
    ensures ValidBlocks(blocks + [block])
    ensures Total(DataCounts(blocks + [block])) == Total(DataCounts(blocks)) + block.dataCount
    ensures Total(EcCounts(blocks + [block])) == Total(EcCounts(blocks)) + block.totalCount - block.dataCount
  {
    var more := blocks + [block];
    assert DataCounts(more)[..|blocks|] == DataCounts(blocks);
    assert EcCounts(more)[..|blocks|] == EcCounts(blocks);
  }

  // ----- every row fits its version -----

  /** Groups of alignment patterns along one side. */
  function AlignmentCount(typeNumber: nat): nat {
    if typeNumber <= 1 then 0 else typeNumber / 7 + 2
  }

  /**
   * The cells of a version that its fixed patterns leave for the message: all outside column 6, without the three
   * corners, the timing row, the version information and the alignment patterns.
   */
  function FreeCellCount(typeNumber: nat): int {
    var n, k := typeNumber * 4 + 17, AlignmentCount(typeNumber);
    n * (n - 1) - 208 - (n - 17) - (if typeNumber >= 7 then 36 else 0)
    - (if k < 2 then 0 else 25 * (k - 1) * (k - 1) + 40 * (k - 2))
  }

  function RowCodes(row: seq<nat>): nat
    requires GoodRow(row)
  {
    row[0] * row[1] + if |row| == 6 then row[3] * row[4] else 0
  }

  function RowData(row: seq<nat>): nat
    requires GoodRow(row)
  {
    row[0] * row[2] + if |row| == 6 then row[3] * row[5] else 0
  }

  /** The message fits the free cells of the version, and its data bytes can be counted in the length field. */
  ghost predicate RowFits(row: seq<nat>, typeNumber: nat) {
    && GoodRow(row)
    && 8 * RowCodes(row) <= FreeCellCount(typeNumber)
    && RowData(row) < if typeNumber < 10 then 256 else 65536
  }

  /** Less than a byte of the free cells is left, and from version 10 on the data bytes need a longer length field. */
  ghost predicate RowFills(row: seq<nat>, typeNumber: nat) {
    && GoodRow(row)
    && FreeCellCount(typeNumber) < 8 * RowCodes(row) + 8
    && (typeNumber < 10 || RowData(row) >= 256)
  }

  /** From one level to the next the data falls and the total stays, but for one row. */
  ghost predicate RowFalls(row: seq<nat>, next: seq<nat>) {
    && GoodRow(row) && GoodRow(next)
    && RowData(next) < RowData(row)
    && (RowCodes(next) == RowCodes(row) || (next == [11, 36, 12] && RowCodes(row) == 655))
  }

  lemma Fits1To5(v: nat)
    requires v < 5
    ensures RowFits(Rows1To5(4 * v), v + 1) && RowFills(Rows1To5(4 * v), v + 1)
  {
    assert v == 0 || v == 1 || v == 2 || v == 3 || v == 4;
  }

  lemma Fits6To10(v: nat)
    requires v < 5
    ensures RowFits(Rows6To10(4 * v), v + 6) && RowFills(Rows6To10(4 * v), v + 6)
  {
    assert v == 0 || v == 1 || v == 2 || v == 3 || v == 4;
  }

  lemma Fits11To15(v: nat)
    requires v < 5
    ensures RowFits(Rows11To15(4 * v), v + 11) && RowFills(Rows11To15(4 * v), v + 11)
  {
    assert v == 0 || v == 1 || v == 2 || v == 3 || v == 4;
  }

  lemma Fits16To20(v: nat)
    requires v < 5
    ensures RowFits(Rows16To20(4 * v), v + 16) && RowFills(Rows16To20(4 * v), v + 16)
  {
    assert v == 0 || v == 1 || v == 2 || v == 3 || v == 4;
  }

  lemma Fits21To25(v: nat)
    requires v < 5
    ensures RowFits(Rows21To25(4 * v), v + 21) && RowFills(Rows21To25(4 * v), v + 21)
  {
    assert v == 0 || v == 1 || v == 2 || v == 3 || v == 4;
  }

  lemma Fits26To30(v: nat)
    requires v < 5
    ensures RowFits(Rows26To30(4 * v), v + 26) && RowFills(Rows26To30(4 * v), v + 26)
  {
    assert v == 0 || v == 1 || v == 2 || v == 3 || v == 4;
  }

  lemma Fits31To35(v: nat)
    requires v < 5
    ensures RowFits(Rows31To35(4 * v), v + 31) && RowFills(Rows31To35(4 * v), v + 31)
  {
    assert v == 0 || v == 1 || v == 2 || v == 3 || v == 4;
  }

  lemma Fits36To40(v: nat)
    requires v < 5
    ensures RowFits(Rows36To40(4 * v), v + 36) && RowFills(Rows36To40(4 * v), v + 36)
  {
    assert v == 0 || v == 1 || v == 2 || v == 3 || v == 4;
  }

  lemma Falls1To5(k: nat, v: nat)
    requires 4 * v <= k < 4 * v + 3 < 20
    ensures RowFalls(Rows1To5(k), Rows1To5(k + 1))
  {
  }

  lemma Falls6To10(k: nat, v: nat)
    requires 4 * v <= k < 4 * v + 3 < 20
    ensures RowFalls(Rows6To10(k), Rows6To10(k + 1))
  {
  }

  lemma Falls11To15(k: nat, v: nat)
    requires 4 * v <= k < 4 * v + 3 < 20
    ensures RowFalls(Rows11To15(k), Rows11To15(k + 1))
  {
  }

  lemma Falls16To20(k: nat, v: nat)
    requires 4 * v <= k < 4 * v + 3 < 20
    ensures RowFalls(Rows16To20(k), Rows16To20(k + 1))
  {
  }

  lemma Falls21To25(k: nat, v: nat)
    requires 4 * v <= k < 4 * v + 3 < 20
    ensures RowFalls(Rows21To25(k), Rows21To25(k + 1))
  {
  }

  lemma Falls26To30(k: nat, v: nat)
    requires 4 * v <= k < 4 * v + 3 < 20
    ensures RowFalls(Rows26To30(k), Rows26To30(k + 1))
  {
  }

  lemma Falls31To35(k: nat, v: nat)
    requires 4 * v <= k < 4 * v + 3 < 20
    ensures RowFalls(Rows31To35(k), Rows31To35(k + 1))
  {
  }

  lemma Falls36To40(k: nat, v: nat)
    requires 4 * v <= k < 4 * v + 3 < 20
    ensures RowFalls(Rows36To40(k), Rows36To40(k + 1))
  {
  }

  lemma FirstRow(typeNumber: nat)
    requires 1 <= typeNumber <= 40
    ensures RowFits(TableRow((typeNumber - 1) * 4), typeNumber) && RowFills(TableRow((typeNumber - 1) * 4), typeNumber)
  {
    hide RowFits, RowFills, Rows1To5, Rows6To10, Rows11To15, Rows16To20, Rows21To25, Rows26To30, Rows31To35, Rows36To40;
    if typeNumber <= 5 {
      Fits1To5(typeNumber - 1);
    } else if typeNumber <= 10 {
      Fits6To10(typeNumber - 6);
    } else if typeNumber <= 15 {
      Fits11To15(typeNumber - 11);
    } else if typeNumber <= 20 {
      Fits16To20(typeNumber - 16);
    } else if typeNumber <= 25 {
      Fits21To25(typeNumber - 21);
    } else if typeNumber <= 30 {
      Fits26To30(typeNumber - 26);
    } else if typeNumber <= 35 {
      Fits31To35(typeNumber - 31);
    } else {
      Fits36To40(typeNumber - 36);
    }
  }

  lemma NextRow(typeNumber: nat, level: nat)
    requires 1 <= typeNumber <= 40 && level < 3
    ensures RowFalls(TableRow((typeNumber - 1) * 4 + level), TableRow((typeNumber - 1) * 4 + level + 1))
  {
    hide RowFalls, Rows1To5, Rows6To10, Rows11To15, Rows16To20, Rows21To25, Rows26To30, Rows31To35, Rows36To40;
    if typeNumber <= 5 {
      Falls1To5(4 * (typeNumber - 1) + level, typeNumber - 1);
    } else if typeNumber <= 10 {
      Falls6To10(4 * (typeNumber - 6) + level, typeNumber - 6);
    } else if typeNumber <= 15 {
      Falls11To15(4 * (typeNumber - 11) + level, typeNumber - 11);
    } else if typeNumber <= 20 {
      Falls16To20(4 * (typeNumber - 16) + level, typeNumber - 16);
    } else if typeNumber <= 25 {
      Falls21To25(4 * (typeNumber - 21) + level, typeNumber - 21);
    } else if typeNumber <= 30 {
      Falls26To30(4 * (typeNumber - 26) + level, typeNumber - 26);
    } else if typeNumber <= 35 {
      Falls31To35(4 * (typeNumber - 31) + level, typeNumber - 31);
    } else {
      Falls36To40(4 * (typeNumber - 36) + level, typeNumber - 36);
    }
  }

  lemma {:induction false} RowOfVersion(typeNumber: nat, level: nat)
    requires 1 <= typeNumber <= 40 && level < 4
    ensures RowFits(TableRow((typeNumber - 1) * 4 + level), typeNumber)
  {
    hide TableRow, FreeCellCount, RowData;
    if level == 0 {
      FirstRow(typeNumber);
    } else {
      RowOfVersion(typeNumber, level - 1);
      NextRow(typeNumber, level - 1);
    }
  }

  /** Only one row has a total of its own, which leaves more than a byte. */
  lemma OwnTotal(typeNumber: nat, level: nat)
    requires 1 <= typeNumber <= 40 && level < 4
    ensures TableRow((typeNumber - 1) * 4 + level) == [11, 36, 12] <==> typeNumber == 15 && level == 3
    ensures RowCodes([11, 36, 12]) == 396 && FreeCellCount(15) == 5243
  {
    assert typeNumber == 15 && level == 3 ==> TableRow(59) == Rows11To15(19);
  }

  lemma RowSums(row: seq<nat>)
    requires GoodRow(row)
    ensures CodeCount(row, |row| / 3) == RowCodes(row) && DataCount(row, |row| / 3) == RowData(row)
  {
    assert CodeCount(row, 0) == 0 && DataCount(row, 0) == 0;
    assert CodeCount(row, 1) == CodeCount(row, 0) + row[0] * row[1];
    assert DataCount(row, 1) == DataCount(row, 0) + row[0] * row[2];
    if |row| == 6 {
      assert CodeCount(row, 2) == CodeCount(row, 1) + row[3] * row[4];
      assert DataCount(row, 2) == DataCount(row, 1) + row[3] * row[5];
    }
  }

  lemma RowTotals(typeNumber: nat, level: nat)
    requires 1 <= typeNumber <= 40 && level < 4
    ensures var row := TableRow((typeNumber - 1) * 4 + level);
            && RowFits(row, typeNumber)
            && ValidBlocks(BlocksOf(row)) && FewChecks(BlocksOf(row))
            && Total(DataCounts(BlocksOf(row))) == RowData(row)
            && Total(DataCounts(BlocksOf(row))) + Total(EcCounts(BlocksOf(row))) == RowCodes(row)
  {
    hide TableRow, Groups, Total, RowCodes, RowData, FreeCellCount;
    var row := TableRow((typeNumber - 1) * 4 + level);
    RowOfVersion(typeNumber, level);
    RowSums(row);
    GroupTotals(row, |row| / 3);
  }

  /** The blocks of a version and level. */
  function VersionBlocks(typeNumber: int, errorCorrectLevel: int): seq<QRRSBlock>
    requires 1 <= typeNumber <= 40 && 0 <= errorCorrectLevel < 4
  {
    BlocksOf(GetRsBlockTable(typeNumber, errorCorrectLevel).value)
  }

  /**
   * For every version and level: the message fits the free cells, no block has more than 30 check bytes, and the number
   * of data bytes fits the length field.
   */
  lemma VersionFits(typeNumber: int, errorCorrectLevel: int)
    requires 1 <= typeNumber <= 40 && 0 <= errorCorrectLevel < 4
    ensures var blocks := VersionBlocks(typeNumber, errorCorrectLevel);
            && ValidBlocks(blocks) && FewChecks(blocks)
            && 8 * (Total(DataCounts(blocks)) + Total(EcCounts(blocks))) <= FreeCellCount(typeNumber)
            && Total(DataCounts(blocks)) < Pow2(LengthBits(typeNumber))
  {
    hide TableRow, FreeCellCount, BlocksOf, Total, RowCodes, RowData;
    RowTotals(typeNumber, LevelRow(errorCorrectLevel).value);
    LengthFields();
  }

  /** The data bytes of a version and level. */
  function VersionData(typeNumber: int, errorCorrectLevel: int): nat
    requires 1 <= typeNumber <= 40 && 0 <= errorCorrectLevel < 4
  {
    Total(DataCounts(VersionBlocks(typeNumber, errorCorrectLevel)))
  }

  /** The levels are L, M, Q and H, from the one with the most data to the one with the fewest. */
  lemma LevelsFall(typeNumber: int)
    requires 1 <= typeNumber <= 40
    ensures VersionData(typeNumber, 1) > VersionData(typeNumber, 0) > VersionData(typeNumber, 3)
            > VersionData(typeNumber, 2)
  {
    hide TableRow, BlocksOf, Total, RowCodes, RowData;
    RowTotals(typeNumber, 0);
    RowTotals(typeNumber, 1);
    RowTotals(typeNumber, 2);
    RowTotals(typeNumber, 3);
    NextRow(typeNumber, 0);
    NextRow(typeNumber, 1);
    NextRow(typeNumber, 2);
  }

  /** The length field has 8 bits as long as level L, which has the most data, needs no more, and 16 otherwise. */
  lemma LengthFieldExactly(typeNumber: int)
    requires 1 <= typeNumber <= 40
    ensures LengthBits(typeNumber) == (if VersionData(typeNumber, 1) < 256 then 8 else 16)
  {
    hide TableRow, BlocksOf, Total, RowCodes, RowData, FreeCellCount;
    RowTotals(typeNumber, 0);
    FirstRow(typeNumber);
  }

  /** The blocks fill the free cells of their version up to the last byte, but for level H of version 15. */
  lemma VersionFills(typeNumber: int, errorCorrectLevel: int)
    requires 1 <= typeNumber <= 40 && 0 <= errorCorrectLevel < 4
    ensures var blocks := VersionBlocks(typeNumber, errorCorrectLevel);
            && ValidBlocks(blocks)
            && (FreeCellCount(typeNumber) < 8 * (Total(DataCounts(blocks)) + Total(EcCounts(blocks))) + 8
                <==> !(typeNumber == 15 && errorCorrectLevel == 2))
  {
    hide TableRow, BlocksOf, Total, RowCodes, RowData, FreeCellCount;
    RowTotals(typeNumber, LevelRow(errorCorrectLevel).value);
    FirstRow(typeNumber);
    NextRow(typeNumber, 0);
    NextRow(typeNumber, 1);
    NextRow(typeNumber, 2);
    OwnTotal(typeNumber, 1);
    OwnTotal(typeNumber, 2);
    OwnTotal(typeNumber, 3);
  }

  lemma LengthFields()
    ensures Pow2(8) == 256 && Pow2(16) == 65536
  {
    assert Pow2(4) == 16;
    assert Pow2(12) == 4096;
  }
}
