/** The encoder from payload to symbol, and a reader that goes all the way back. */
module Symbol {
  import opened Bch
  import BinaryPolynomials
  import opened BitStream
  import opened Bits
  import CreateBytes
  import opened CreateData
  import opened Information
  import opened Interleaving
  import opened JsValues
  import opened Layout
  import opened MapData
  import opened Patterns
  import opened Placement
  import opened QRMath
  import opened RSBlocks
  import ReedSolomon

  type Blocks = seq<CreateBytes.QRRSBlock>

  /** Number of data bytes of a symbol with the given blocks. */
  function TotalDataCount(blocks: Blocks): nat {
    Total(CreateBytes.DataCounts(blocks))
  }

  function TotalCodeCount(blocks: Blocks): nat
    requires CreateBytes.ValidBlocks(blocks)
  {
    TotalDataCount(blocks) + Total(CreateBytes.EcCounts(blocks))
  }

  // ----- the reader -----

  /** The bits under the mask, along the given cells. */
  function Unmask(g: Grid, n: nat, cells: seq<Position>, maskPattern: int): (bits: seq<bool>)
    requires ValidGrid(g, n) && Inside(cells, n) && 0 <= maskPattern < 8
    ensures |bits| == |cells|
  {
    seq(|cells|, k requires 0 <= k < |cells| =>
      (g[cells[k].0][cells[k].1] == Some(true)) != Masked(maskPattern, cells[k]))
  }

  /** From the bits of a symbol to its payload, without error correction: bytes, data blocks, bit stream, segments. */
  function ReadPayload(bits: seq<bool>, blocks: Blocks, lengthBits: nat): Option<seq<Bytes>>
    requires CreateBytes.ValidBlocks(blocks) && |bits| >= 8 * TotalCodeCount(blocks)
  {
    var total := TotalCodeCount(blocks);
    var bytes := Pack(bits[..8 * total], total);
    var rows := Deinterleave(CreateBytes.DataCounts(blocks), bytes[..TotalDataCount(blocks)]);
    Read(BytesBits(CreateBytes.Flatten(rows)), lengthBits)
  }

  // ----- reading undoes placing -----

  /** Re-reading along the walk gives the data bits, most significant first, cut off or continued with zeros. */
  lemma UnmaskPlaced(before: Grid, after: Grid, n: nat, filled: seq<Position>, data: seq<Cell>, maskPattern: int)
    requires ValidGrid(before, n) && ValidGrid(after, n) && Inside(filled, n) && 0 <= maskPattern < 8
    requires Placed(before, after, n, filled, data, maskPattern)
    ensures forall k :: 0 <= k < |filled| ==> Unmask(after, n, filled, maskPattern)[k] == DataBit(data, k)
  {
    hide DataBit, Masked;
  }

  /** If the timing column is filled beforehand, the walk leaves no null cell. */
  lemma NoNullLeft(before: Grid, after: Grid, n: nat, data: seq<Cell>, maskPattern: int)
    requires ValidGrid(before, n) && ValidGrid(after, n) && ValidSize(n)
    requires Placed(before, after, n, Nulls(before, n, WholeWalk(n)), data, maskPattern)
    requires forall r :: 0 <= r < n ==> before[r][6] != None
    ensures forall r: nat, c: nat :: r < n && c < n ==> after[r][c] != None
  {
    hide Nulls, WholeWalk, DataBit, Masked;
    WholeWalkVisits(n);
    var filled := Nulls(before, n, WholeWalk(n));
    forall r: nat, c: nat | r < n && c < n
      ensures after[r][c] != None
    {
      if (r, c) in filled {
        var k :| 0 <= k < |filled| && filled[k] == (r, c);
      } else if c != 6 {
        assert (r, c) in WholeWalk(n);
        NullsMemberInverse(before, n, r, c);
      }
    }
  }

  lemma NullsMemberInverse(before: Grid, n: nat, r: nat, c: nat)
    requires ValidGrid(before, n) && ValidSize(n) && r < n && c < n
    requires (r, c) in WholeWalk(n) && (r, c) !in Nulls(before, n, WholeWalk(n))
    ensures before[r][c] != None
  {
    hide WholeWalk;
  }

  lemma DataBits(data: seq<Cell>, bits: seq<bool>)
    requires |bits| >= 8 * |data|
    requires forall k :: 0 <= k < 8 * |data| ==> bits[k] == DataBit(data, k)
    ensures Pack(bits[..8 * |data|], |data|) == Vals(data)
  {
    hide BitOf, Val, Pack;
    assert bits[..8 * |data|] == BytesBits(Vals(data));
    PackBytesBits(Vals(data));
  }

  /** The reader recovers the segments from the bits of the message, whatever follows them. */
  lemma ReadMessage(bits: seq<bool>, buffer: Bytes, data: seq<Cell>, blocks: Blocks, typeNumber: int,
                    dataList: seq<Bytes>)
    requires CreateBytes.ValidBlocks(blocks) && CreateBytes.Message(buffer, blocks, Vals(data))
    requires |buffer| == TotalDataCount(blocks) < Pow2(LengthBits(typeNumber))
    requires |AllSegments(typeNumber, dataList)| <= 8 * |buffer|
    requires BytesBits(buffer) == Stream(AllSegments(typeNumber, dataList), |buffer|)
    requires |bits| >= 8 * |data| && forall k :: 0 <= k < 8 * |data| ==> bits[k] == DataBit(data, k)
    ensures |data| == TotalCodeCount(blocks)
    ensures ReadPayload(bits, blocks, LengthBits(typeNumber)) == Some(dataList)
  {
    hide Read, Stream, Segments, Deinterleave, BytesBits, Pack, DataBit, CreateBytes.DataBlocks, CreateBytes.Flatten;
    hide Total, ReedSolomon.Codeword, Pow2;
    DataBits(data, bits);
    CreateBytes.FlattenBlocks(buffer, CreateBytes.DataCounts(blocks));
    assert buffer[..|buffer|] == buffer;
    ReadStream(dataList, LengthBits(typeNumber), |buffer|);
  }

  // ----- the encoder -----

  /** The version exists and its data bytes have room for the segments. */
  ghost predicate Fits(typeNumber: int, dataList: seq<Bytes>, blocks: Blocks) {
    (dataList == [] || GetLengthInBits(typeNumber).Ok?)
      && |AllSegments(typeNumber, dataList)| <= 8 * TotalDataCount(blocks)
  }

  /** Every block has at most 254 check bytes; the standard never uses more than 30. */
  ghost predicate SmallChecks(blocks: Blocks) {
    forall k :: 0 <= k < |blocks| ==> blocks[k].EcCount() <= 254
  }

  /** `QRCodeModel.createData`. */
  method CreateMessage(math: QRMath, typeNumber: int, dataList: seq<Bytes>, blocks: Blocks)
    returns (r: Result<seq<Cell>>, buffer: Bytes)
    requires math.Valid() && CreateBytes.ValidBlocks(blocks)
    ensures SmallChecks(blocks) ==> (r.Ok? <==> Fits(typeNumber, dataList, blocks))
    ensures r.Ok? ==> Fits(typeNumber, dataList, blocks)
    ensures r.Ok? ==>
              && |buffer| == TotalDataCount(blocks)
              && BytesBits(buffer) == Stream(AllSegments(typeNumber, dataList), |buffer|)
    ensures r.Ok? ==> CreateBytes.Message(buffer, blocks, Vals(r.value))
  {
    hide AllSegments, Stream, Total, BytesBits, SmallChecks, CreateBytes.AnyThrows, CreateBytes.Message,
         CreateBytes.DataCounts, Vals;
    buffer := [];
    var totalDataCount := 0;
    NoData(blocks);
    for i := 0 to |blocks|
      invariant totalDataCount == Total(CreateBytes.DataCounts(blocks[..i]))
    {
      MoreData(blocks, i);
      totalDataCount := totalDataCount + blocks[i].dataCount;
    }
    assert blocks[..|blocks|] == blocks;
    var filled := CreateBuffer(typeNumber, dataList, totalDataCount);
    if filled.Throw? {
      return Throw(filled.error), [];
    }
    buffer := filled.value.buffer;
    r := CreateBytes.CreateBytes(math, buffer, blocks);
    if r.Throw? {
      TooManyChecks(buffer, blocks);
    }
  }

  lemma NoData(blocks: Blocks)
    ensures Total(CreateBytes.DataCounts(blocks[..0])) == 0
  {
  }

  lemma MoreData(blocks: Blocks, i: nat)
    requires i < |blocks|
    ensures Total(CreateBytes.DataCounts(blocks[..i + 1]))
            == Total(CreateBytes.DataCounts(blocks[..i])) + blocks[i].dataCount
  {
    assert CreateBytes.DataCounts(blocks[..i + 1])[..i] == CreateBytes.DataCounts(blocks[..i]);
  }

  lemma TooManyChecks(buffer: Bytes, blocks: Blocks)
    requires CreateBytes.AnyThrows(buffer, blocks, |blocks|)
    ensures !SmallChecks(blocks)
  {
    var k :| 0 <= k < |blocks|
      && ReedSolomon.BlockThrows(CreateBytes.DataBlocks(buffer, CreateBytes.DataCounts(blocks))[k],
                                 blocks[k].EcCount());
  }

  lemma MessageLength(buffer: Bytes, blocks: Blocks, data: seq<Cell>)
    requires CreateBytes.ValidBlocks(blocks) && CreateBytes.Message(buffer, blocks, Vals(data))
    ensures |data| == TotalCodeCount(blocks)
  {
    hide Deinterleave, CreateBytes.DataBlocks;
  }

  /** The payload fits the version and level. */
  ghost predicate VersionHolds(typeNumber: int, errorCorrectLevel: int, dataList: seq<Bytes>) {
    && 1 <= typeNumber <= 40 && 0 <= errorCorrectLevel < 4
    && |AllSegments(typeNumber, dataList)| <= 8 * TotalDataCount(VersionBlocks(typeNumber, errorCorrectLevel))
  }

  /** The message of a payload: its codewords, from a full buffer that holds the bit stream. */
  ghost predicate MessageOf(typeNumber: int, errorCorrectLevel: int, dataList: seq<Bytes>, buffer: Bytes,
                            data: seq<Cell>)
    requires VersionHolds(typeNumber, errorCorrectLevel, dataList)
  {
    var blocks := VersionBlocks(typeNumber, errorCorrectLevel);
    && CreateBytes.ValidBlocks(blocks) && CreateBytes.Message(buffer, blocks, Vals(data))
    && |buffer| == TotalDataCount(blocks) && BytesBits(buffer) == Stream(AllSegments(typeNumber, dataList), |buffer|)
  }

  /** `QRCodeModel.createData`: throws exactly if there is no such version or level, or if the payload does not fit. */
  method CreateCodewords(math: QRMath, typeNumber: int, errorCorrectLevel: int, dataList: seq<Bytes>)
    returns (r: Result<seq<Cell>>, ghost buffer: Bytes)
    requires math.Valid()
    ensures r.Ok? <==> VersionHolds(typeNumber, errorCorrectLevel, dataList)
    ensures r.Ok? ==> MessageOf(typeNumber, errorCorrectLevel, dataList, buffer, r.value)
  {
    hide AllSegments, Stream, Total, BytesBits, CreateBytes.Message, CreateBytes.DataCounts, Vals, BlocksOf,
         GetRsBlockTable;
    var rsBlocks := GetRSBlocks(typeNumber, errorCorrectLevel);
    if rsBlocks.Throw? {
      return Throw(rsBlocks.error), [];
    }
    VersionFits(typeNumber, errorCorrectLevel);
    FewChecksAreSmall(rsBlocks.value);
    r, buffer := CreateMessage(math, typeNumber, dataList, rsBlocks.value);
  }

  lemma FewChecksAreSmall(blocks: Blocks)
    requires FewChecks(blocks)
    ensures SmallChecks(blocks)
  {
  }

  // ----- a reader that sees only the symbol -----

  /**
   * From a symbol to its payload: version from the size, level and mask from the format information, then the free
   * cells. Both copies of the format information must agree, and any version information must tell the version.
   */
  ghost function ReadSymbol(g: Grid): Option<seq<Bytes>> {
    var n := |g|;
    var typeNumber := (n - 17) / 4;
    if !(ValidGrid(g, n) && 1 <= typeNumber <= 40 && n == typeNumber * 4 + 17) then None
    else if !(CopiesAgree(g, n, typeNumber) && FormatData(g, n) < 32) then None
    else
      var data := FormatData(g, n);
      var blocks := VersionBlocks(typeNumber, data / 8);
      VersionFits(typeNumber, data / 8);
      FreeCellsCount(typeNumber);
      ReadPayload(Unmask(g, n, FreeCells(typeNumber), data % 8), blocks, LengthBits(typeNumber))
  }

  /** The grid shows the function patterns of a version, and nothing else. */
  ghost predicate Patterned(g: Grid, typeNumber: nat, bits: nat, versionBits: nat, test: bool)
    requires 1 <= typeNumber <= 40
  {
    var n := typeNumber * 4 + 17;
    ValidGrid(g, n) && forall r, c :: 0 <= r < n && 0 <= c < n ==>
      g[r][c] == PatternCell(typeNumber, bits, versionBits, test, r, c)
  }

  lemma PatternedPrepared(g: Grid, typeNumber: nat, bits: nat, versionBits: nat, test: bool)
    requires 1 <= typeNumber <= 40 && Patterned(g, typeNumber, bits, versionBits, test)
    ensures Prepared(typeNumber, g)
  {
    hide PatternCell, FunctionCell;
    var n := typeNumber * 4 + 17;
    forall r: nat, c: nat | r < n && c < n
      ensures g[r][c] == None <==> !FunctionCell(typeNumber, r, c)
    {
      PatternsCover(typeNumber, bits, versionBits, test, r, c);
    }
  }

  /** What a finished symbol shows: its patterns as they were, and the message under the mask in the free cells. */
  ghost predicate Finished(g: Grid, typeNumber: nat, bits: nat, versionBits: nat, test: bool, data: seq<Cell>,
                           maskPattern: nat)
    requires 1 <= typeNumber <= 40 && maskPattern < 8
  {
    var n, cells := typeNumber * 4 + 17, FreeCells(typeNumber);
    && Shows(g, typeNumber, bits, versionBits, test)
    && (forall k :: 0 <= k < |cells| ==> Unmask(g, n, cells, maskPattern)[k] == DataBit(data, k))
    && (forall r: nat, c: nat :: r < n && c < n ==> g[r][c] != None)
  }

  lemma PlacedFinished(before: Grid, after: Grid, typeNumber: nat, bits: nat, versionBits: nat, test: bool,
                       data: seq<Cell>, maskPattern: nat)
    requires 1 <= typeNumber <= 40 && maskPattern < 8
    requires Patterned(before, typeNumber, bits, versionBits, test) && ValidGrid(after, typeNumber * 4 + 17)
    requires ValidSize(typeNumber * 4 + 17)
    requires var n := typeNumber * 4 + 17; Placed(before, after, n, Nulls(before, n, WholeWalk(n)), data, maskPattern)
    ensures Finished(after, typeNumber, bits, versionBits, test, data, maskPattern)
  {
    hide PatternCell, FunctionCell, DataBit, WholeWalk, Nulls, Free, Masked, Unmask;
    var n := typeNumber * 4 + 17;
    PatternedPrepared(before, typeNumber, bits, versionBits, test);
    NullsAreFree(typeNumber, before, WholeWalk(n));
    UnmaskPlaced(before, after, n, FreeCells(typeNumber), data, maskPattern);
    forall r | 0 <= r < n
      ensures before[r][6] != None
    {
      TimingColumn(typeNumber, r);
    }
    NoNullLeft(before, after, n, data, maskPattern);
    forall r: nat, c: nat | r < n && c < n && FunctionCell(typeNumber, r, c)
      ensures after[r][c] == before[r][c]
    {
      OnlyNulls(before, n, r, c);
    }
  }

  lemma TimingColumn(typeNumber: nat, r: nat)
    requires 1 <= typeNumber <= 40
    ensures FunctionCell(typeNumber, r, 6)
  {
  }

  lemma OnlyNulls(before: Grid, n: nat, r: nat, c: nat)
    requires ValidGrid(before, n) && ValidSize(n) && r < n && c < n
    ensures (r, c) in Nulls(before, n, WholeWalk(n)) ==> before[r][c] == None
  {
    hide WholeWalk;
  }

  /** Reading a finished symbol gives the payload of its message. */
  lemma ReadFinished(g: Grid, typeNumber: nat, level: nat, mask: nat, bits: nat, versionBits: nat,
                     dataList: seq<Bytes>, buffer: Bytes, data: seq<Cell>)
    requires VersionHolds(typeNumber, level, dataList) && mask < 8
             && MessageOf(typeNumber, level, dataList, buffer, data)
    requires CodeWord(BinaryPolynomials.Xor(bits, G15_MASK), (level * 8 + mask) % 0x40_0000, G15, 10)
    requires typeNumber >= 7 ==> CodeWord(versionBits, typeNumber % 0x10_0000, G18, 12)
    requires Finished(g, typeNumber, bits, versionBits, false, data, mask)
    ensures ReadSymbol(g) == Some(dataList)
  {
    hide CodeWord, BinaryPolynomials.Xor, FunctionCell, PatternCell, Stream, AllSegments, BytesBits, DataBit, Unmask,
         FreeCells;
    hide CreateBytes.Message, VersionBlocks, TotalDataCount, TotalCodeCount, Pow2, FormatData, ReadNumber, ReadPayload,
         LengthBits;
    FormatReads(g, typeNumber, bits, versionBits, level, mask);
    if typeNumber >= 7 {
      VersionReads(g, typeNumber, bits, versionBits);
    }
    LevelAndMask(level, mask);
    var blocks := VersionBlocks(typeNumber, level);
    CountsAre(typeNumber, level);
    FreeCellsCount(typeNumber);
    MessageLength(buffer, blocks, data);
    ReadMessage(Unmask(g, typeNumber * 4 + 17, FreeCells(typeNumber), mask), buffer, data, blocks, typeNumber,
                dataList);
  }

  lemma LevelAndMask(level: nat, mask: nat)
    requires mask < 8
    ensures (level * 8 + mask) / 8 == level && (level * 8 + mask) % 8 == mask
  {
  }

  lemma CountsAre(typeNumber: int, level: int)
    requires 1 <= typeNumber <= 40 && 0 <= level < 4
    ensures var blocks := VersionBlocks(typeNumber, level);
            && CreateBytes.ValidBlocks(blocks) && 8 * TotalCodeCount(blocks) <= FreeCellCount(typeNumber)
            && TotalDataCount(blocks) < Pow2(LengthBits(typeNumber))
  {
    VersionFits(typeNumber, level);
  }

  // ----- making a symbol -----

  /** All function patterns, in the order in which they are drawn over each other. */
  method SetupPatterns(model: QRCodeModel, typeNumber: nat, errorCorrectLevel: nat, test: bool, maskPattern: nat)
    returns (bits: nat, ghost versionBits: nat)
    requires 1 <= typeNumber <= 40 && maskPattern < 8 && model.Valid() && model.moduleCount == typeNumber * 4 + 17
    requires forall r, c :: 0 <= r < model.moduleCount && 0 <= c < model.moduleCount ==> model.modules[r, c] == None
    modifies model.modules
    ensures Patterned(model.Modules(), typeNumber, bits, versionBits, test)
    ensures CodeWord(BinaryPolynomials.Xor(bits, G15_MASK), (errorCorrectLevel * 8 + maskPattern) % 0x40_0000, G15, 10)
    ensures typeNumber >= 7 ==> CodeWord(versionBits, typeNumber % 0x10_0000, G18, 12)
  {
    hide CodeWord, BinaryPolynomials.Xor, ProbeCell, AlignCell, TimingCell, FormatCell, VersionCell,
         GetPatternPosition, Spaced, CentresFree;
    var n := model.moduleCount;
    SetupPositionProbePattern(model, 0, 0);
    SetupPositionProbePattern(model, n - 7, 0);
    SetupPositionProbePattern(model, 0, n - 7);
    CentresProbed(typeNumber, model.Modules());
    SetupPositionAdjustPattern(model, GetPatternPosition(typeNumber));
    SetupTimingPattern(model);
    bits := SetupTypeInfo(model, errorCorrectLevel, test, maskPattern);
    versionBits := 0;
    if typeNumber >= 7 {
      versionBits := SetupTypeNumber(model, typeNumber, test);
    }
  }

  /**
   * Payload to symbol and back: for every version, level, mask and payload, making the symbol succeeds exactly if the
   * payload fits, and a reader that sees nothing but the symbol then recovers the payload.
   */
  method MakeImpl(math: QRMath, typeNumber: nat, errorCorrectLevel: nat, dataList: seq<Bytes>, test: bool,
                  maskPattern: nat)
    returns (r: Result<()>, model: QRCodeModel)
    requires math.Valid() && typeNumber >= 1 && maskPattern < 8
    ensures fresh(model) && fresh(model.modules) && model.Valid() && model.moduleCount == typeNumber * 4 + 17
    ensures r.Ok? <==> VersionHolds(typeNumber, errorCorrectLevel, dataList)
    ensures r.Ok? && !test ==> ReadSymbol(model.Modules()) == Some(dataList)
    ensures r.Ok? ==> forall i, j :: 0 <= i < model.moduleCount && 0 <= j < model.moduleCount ==>
            model.modules[i, j] != None
  {
    hide CodeWord, BinaryPolynomials.Xor, Patterned, Finished, MessageOf, ReadSymbol, Nulls, WholeWalk, Placed,
         PatternCell;
    model := new QRCodeModel(typeNumber);
    if typeNumber > 40 {
      return Throw(NoPatternPosition), model;
    }
    var bits, versionBits := SetupPatterns(model, typeNumber, errorCorrectLevel, test, maskPattern);
    ghost var before := model.Modules();
    var data, buffer := CreateCodewords(math, typeNumber, errorCorrectLevel, dataList);
    if data.Throw? {
      return Throw(data.error), model;
    }
    r := model.MapData(data.value, maskPattern);
    PlacedFinished(before, model.Modules(), typeNumber, bits, versionBits, test, data.value, maskPattern);
    NothingNull(model.Modules(), typeNumber, bits, versionBits, test, data.value, maskPattern);
    if !test {
      ReadFinished(model.Modules(), typeNumber, errorCorrectLevel, maskPattern, bits, versionBits, dataList, buffer,
                   data.value);
    }
  }

  lemma NothingNull(g: Grid, typeNumber: nat, bits: nat, versionBits: nat, test: bool, data: seq<Cell>,
                    maskPattern: nat)
    requires 1 <= typeNumber <= 40 && maskPattern < 8
             && Finished(g, typeNumber, bits, versionBits, test, data, maskPattern)
    ensures var n := typeNumber * 4 + 17; forall r: nat, c: nat :: r < n && c < n ==> g[r][c] != None
  {
    hide Unmask, PatternCell, FunctionCell, FreeCells;
  }
}
