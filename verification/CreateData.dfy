/**
 The bit stream of a symbol (ISO/IEC 18004, sections 7.4.5 and 7.4.10): byte-mode
 segments, terminator, alternating pad bytes; and a reader for it.
 */
module BitStream {
  import opened Bits
  import opened Gf256
  import opened JsValues

  type Bytes = seq<bv8>

  const MODE_8BIT_BYTE: nat := 4
  const PAD0: bv8 := 0xEC
  const PAD1: bv8 := 0x11

  function Falses(n: nat): (bits: seq<bool>)
    ensures |bits| == n
  {
    seq(n, _ => false)
  }

  /** Mode indicator, character count, payload. */
  function Segment(data: Bytes, lengthBits: nat): (bits: seq<bool>)
    ensures |bits| == 4 + lengthBits + 8 * |data|
  {
    [false, true, false, false] + ToBits(|data|, lengthBits) + BytesBits(data)
  }

  function Segments(dataList: seq<Bytes>, lengthBits: nat): seq<bool> {
    if dataList == [] then []
    else Segments(dataList[..|dataList| - 1], lengthBits) + Segment(dataList[|dataList| - 1], lengthBits)
  }

  function Pads(n: nat): (bytes: Bytes)
    ensures |bytes| == n
  {
    seq(n, i requires 0 <= i < n => if i % 2 == 0 then PAD0 else PAD1)
  }

  /** The pad bytes alternate between 11101100 and 00010001. */
  lemma PadBits(n: nat, i: nat, k: nat)
    requires i < n && k < 8
    ensures |BytesBits(Pads(n))| == 8 * n
    ensures BytesBits(Pads(n))[8 * i + k] <==> (if i % 2 == 0 then "11101100" else "00010001")[k] == '1'
  {
    assert k == 0 || k == 1 || k == 2 || k == 3 || k == 4 || k == 5 || k == 6 || k == 7;
  }

  /** The number of bytes up to the first pad byte, for `n` bits of segments. */
  function DataBytes(n: nat, totalDataCount: nat): (p: nat)
    requires n <= 8 * totalDataCount
    ensures p <= totalDataCount && 8 * p >= n
  {
    ((if n + 4 <= 8 * totalDataCount then n + 4 else n) + 7) / 8
  }

  /** The whole stream: segments, terminator and zero bits to a byte boundary, pad bytes. */
  function Stream(bits: seq<bool>, totalDataCount: nat): (r: seq<bool>)
    requires |bits| <= 8 * totalDataCount
    ensures |r| == 8 * totalDataCount
  {
    var p := DataBytes(|bits|, totalDataCount);
    bits + Falses(8 * p - |bits|) + BytesBits(Pads(totalDataCount - p))
  }

  /** A reader: segments until a terminator, or until fewer than four bits are left. */
  function Read(bits: seq<bool>, lengthBits: nat): Option<seq<Bytes>>
    decreases |bits|
  {
    if |bits| < 4 || bits[..4] == Falses(4) then Some([])
    else if bits[..4] != [false, true, false, false] || |bits| < 4 + lengthBits then None
    else
      var n := FromBits(bits[4..4 + lengthBits]);
      var rest := bits[4 + lengthBits..];
      if |rest| < 8 * n then None
      else
        match Read(rest[8 * n..], lengthBits)
        case None => None
        case Some(tail) => Some([Pack(rest[..8 * n], n)] + tail)
  }

  /** The bytes with the given bits. */
  function Pack(bits: seq<bool>, n: nat): (bytes: Bytes)
    requires |bits| == 8 * n
    ensures |bytes| == n
  {
    seq(n, i requires 0 <= i < n => PackByte(bits, 8 * i))
  }

  function PackByte(bits: seq<bool>, i: nat): bv8
    requires i + 8 <= |bits|
  {
    (if bits[i] then 0x80 else 0) | (if bits[i + 1] then 0x40 else 0)
    | (if bits[i + 2] then 0x20 else 0) | (if bits[i + 3] then 0x10 else 0)
    | (if bits[i + 4] then 0x08 else 0) | (if bits[i + 5] then 0x04 else 0)
    | (if bits[i + 6] then 0x02 else 0) | (if bits[i + 7] then 0x01 else 0)
  }

  lemma PackByteBits(b: bv8, bits: seq<bool>, i: nat)
    requires i + 8 <= |bits|
    requires forall k :: 0 <= k < 8 ==> bits[i + k] == BitOf(b, k)
    ensures PackByte(bits, i) == b
  {
    assert bits[i + 0] == BitOf(b, 0) && bits[i + 1] == BitOf(b, 1) && bits[i + 2] == BitOf(b, 2);
    assert bits[i + 3] == BitOf(b, 3) && bits[i + 4] == BitOf(b, 4) && bits[i + 5] == BitOf(b, 5);
    assert bits[i + 6] == BitOf(b, 6) && bits[i + 7] == BitOf(b, 7);
    AllBits(b);
  }

  lemma AllBits(b: bv8)
    ensures (b & 0x80) | (b & 0x40) | (b & 0x20) | (b & 0x10) | (b & 0x08) | (b & 0x04) | (b & 0x02) | (b & 0x01) == b
    ensures (b & 0x80 == 0 || b & 0x80 == 0x80) && (b & 0x40 == 0 || b & 0x40 == 0x40)
    ensures (b & 0x20 == 0 || b & 0x20 == 0x20) && (b & 0x10 == 0 || b & 0x10 == 0x10)
    ensures (b & 0x08 == 0 || b & 0x08 == 0x08) && (b & 0x04 == 0 || b & 0x04 == 0x04)
    ensures (b & 0x02 == 0 || b & 0x02 == 0x02) && (b & 0x01 == 0 || b & 0x01 == 0x01)
  {
  }

  lemma PackBytesBits(data: Bytes)
    ensures Pack(BytesBits(data), |data|) == data
  {
    hide BitOf, PackByte;
    var bits := BytesBits(data);
    forall i | 0 <= i < |data|
      ensures PackByte(bits, 8 * i) == data[i]
    {
      PackByteBits(data[i], bits, 8 * i);
    }
  }

  lemma {:induction false} SegmentsFront(dataList: seq<Bytes>, lengthBits: nat)
    requires dataList != []
    ensures Segments(dataList, lengthBits) == Segment(dataList[0], lengthBits) + Segments(dataList[1..], lengthBits)
  {
    hide Segment;
    var n := |dataList| - 1;
    if n > 0 {
      SegmentsFront(dataList[..n], lengthBits);
      assert dataList[..n][1..] == dataList[1..][..n - 1];
    } else {
      assert dataList[..n] == [];
    }
  }

  ghost predicate LengthsFit(dataList: seq<Bytes>, lengthBits: nat) {
    forall i :: 0 <= i < |dataList| ==> |dataList[i]| < Pow2(lengthBits)
  }

  /** Reading one segment: it comes back whole when its length fits the length field, and shortened otherwise. */
  lemma ReadSegment(data: Bytes, lengthBits: nat, tail: seq<bool>)
    ensures var r := Read(Segment(data, lengthBits) + tail, lengthBits);
            if |data| < Pow2(lengthBits) then
              match Read(tail, lengthBits)
              case None => r == None
              case Some(rest) => r == Some([data] + rest)
            else r.Some? ==> r.value != [] && |r.value[0]| < |data|
  {
    hide Pack, BytesBits;
    var bits := Segment(data, lengthBits) + tail;
    assert bits[..4] == [false, true, false, false];
    assert bits[1] && !Falses(4)[1];
    var count := ToBits(|data|, lengthBits);
    assert bits[4..4 + lengthBits] == count;
    var rest := bits[4 + lengthBits..];
    assert rest == BytesBits(data) + tail;
    if |data| < Pow2(lengthBits) {
      FromToBits(|data|, lengthBits);
      assert rest[..8 * |data|] == BytesBits(data) && rest[8 * |data|..] == tail;
      PackBytesBits(data);
    } else {
      FromBitsBound(count);
    }
  }

  /** Reading back segments that are followed by a terminator, or by fewer than four bits. */
  lemma {:induction false} ReadSegments(dataList: seq<Bytes>, lengthBits: nat, tail: seq<bool>)
    requires |tail| < 4 || tail[..4] == Falses(4)
    ensures Read(Segments(dataList, lengthBits) + tail, lengthBits) == Some(dataList) <==>
            LengthsFit(dataList, lengthBits)
    decreases |dataList|
  {
    hide Segment;
    if dataList == [] {
      assert Segments(dataList, lengthBits) + tail == tail;
    } else {
      var rest := Segments(dataList[1..], lengthBits) + tail;
      SegmentsFront(dataList, lengthBits);
      assert Segments(dataList, lengthBits) + tail == Segment(dataList[0], lengthBits) + rest;
      ReadSegment(dataList[0], lengthBits, rest);
      ReadSegments(dataList[1..], lengthBits, tail);
      assert LengthsFit(dataList, lengthBits) <==>
             |dataList[0]| < Pow2(lengthBits) && LengthsFit(dataList[1..], lengthBits) by {
        FitsFront(dataList, lengthBits);
      }
      assert dataList == [dataList[0]] + dataList[1..];
    }
  }

  lemma FitsFront(dataList: seq<Bytes>, lengthBits: nat)
    requires dataList != []
    ensures LengthsFit(dataList, lengthBits) <==>
            |dataList[0]| < Pow2(lengthBits) && LengthsFit(dataList[1..], lengthBits)
  {
    if LengthsFit(dataList[1..], lengthBits) && |dataList[0]| < Pow2(lengthBits) {
      forall i | 0 <= i < |dataList|
        ensures |dataList[i]| < Pow2(lengthBits)
      {
        assert i > 0 ==> dataList[i] == dataList[1..][i - 1];
      }
    }
  }

  /** A stream of any size gives back its segments exactly when every length fits the length field. */
  lemma StreamReads(dataList: seq<Bytes>, lengthBits: nat, totalDataCount: nat)
    requires |Segments(dataList, lengthBits)| <= 8 * totalDataCount
    ensures Read(Stream(Segments(dataList, lengthBits), totalDataCount), lengthBits) == Some(dataList)
            <==> LengthsFit(dataList, lengthBits)
  {
    hide Read, Segments, Segment;
    var bits := Segments(dataList, lengthBits);
    var p := DataBytes(|bits|, totalDataCount);
    var tail := Falses(8 * p - |bits|) + BytesBits(Pads(totalDataCount - p));
    assert Stream(bits, totalDataCount) == bits + tail;
    if |tail| >= 4 {
      assert 8 * p - |bits| >= 4;
      assert tail[..4] == Falses(4);
    }
    ReadSegments(dataList, lengthBits, tail);
  }

  lemma {:induction false} SegmentsLength(dataList: seq<Bytes>, lengthBits: nat, i: nat)
    requires i < |dataList|
    ensures |Segments(dataList, lengthBits)| >= 4 + lengthBits + 8 * |dataList[i]|
  {
    hide Segment;
    var n := |dataList| - 1;
    if i < n {
      SegmentsLength(dataList[..n], lengthBits, i);
    }
  }

  /** Whatever fits into a symbol whose byte count fits the length field has only segments whose lengths fit. */
  lemma FittingLengthsFit(dataList: seq<Bytes>, lengthBits: nat, totalDataCount: nat)
    requires |Segments(dataList, lengthBits)| <= 8 * totalDataCount && totalDataCount < Pow2(lengthBits)
    ensures LengthsFit(dataList, lengthBits)
  {
    forall i | 0 <= i < |dataList|
      ensures |dataList[i]| < Pow2(lengthBits)
    {
      SegmentsLength(dataList, lengthBits, i);
    }
  }

  /** The round trip: whatever fits is read back. */
  lemma ReadStream(dataList: seq<Bytes>, lengthBits: nat, totalDataCount: nat)
    requires |Segments(dataList, lengthBits)| <= 8 * totalDataCount && totalDataCount < Pow2(lengthBits)
    ensures Read(Stream(Segments(dataList, lengthBits), totalDataCount), lengthBits) == Some(dataList)
  {
    FittingLengthsFit(dataList, lengthBits, totalDataCount);
    StreamReads(dataList, lengthBits, totalDataCount);
  }
}

/** The encoder's side: `QR8bitByte.write` and the first half of `QRCodeModel.createData`. */
module CreateData {
  import opened BitStream
  import opened Bits
  import opened Gf256
  import opened JsValues
  import opened QRBitBuffer

  /** Width of the length field of a byte-mode segment; only versions up to 40 exist. */
  function GetLengthInBits(typeNumber: int): Result<nat> {
    if 1 <= typeNumber < 10 then Ok(8)
    else if typeNumber < 27 then Ok(16)
    else if typeNumber < 41 then Ok(16)
    else Throw(BadType)
  }

  method Write(data: Bytes, buffer: QRBitBuffer)
    requires buffer.Valid()
    modifies buffer
    ensures buffer.Valid() && buffer.Contents() == old(buffer.Contents()) + BytesBits(data)
  {
    hide Value, BitOf, ToBits;
    for i := 0 to |data|
      invariant buffer.Valid() && buffer.Contents() == old(buffer.Contents()) + BytesBits(data[..i])
    {
      buffer.Put(Value(data[i]), 8);
      ToBitsOfByte(data[i]);
      BytesBitsConcat(data[..i], [data[i]]);
      assert data[..i + 1] == data[..i] + [data[i]];
    }
    assert data[..|data|] == data;
  }

  /** The width used for every segment of a symbol; irrelevant when there is none. */
  function LengthBits(typeNumber: int): nat {
    if GetLengthInBits(typeNumber).Ok? then GetLengthInBits(typeNumber).value else 0
  }

  /** All segments of a symbol, one after the other. */
  function AllSegments(typeNumber: int, dataList: seq<Bytes>): seq<bool> {
    Segments(dataList, LengthBits(typeNumber))
  }

  method PutSegments(typeNumber: int, dataList: seq<Bytes>, buffer: QRBitBuffer) returns (r: Result<()>)
    requires buffer.Valid() && buffer.Contents() == []
    modifies buffer
    ensures r.Throw? <==> dataList != [] && GetLengthInBits(typeNumber).Throw?
    ensures r.Ok? ==> buffer.Valid() && buffer.Contents() == AllSegments(typeNumber, dataList)
  {
    hide ToBits, BytesBits;
    var n := LengthBits(typeNumber);
    assert dataList[..0] == [];
    for i := 0 to |dataList|
      invariant buffer.Valid() && buffer.Contents() == Segments(dataList[..i], n)
      invariant i > 0 ==> GetLengthInBits(typeNumber).Ok?
    {
      var data := dataList[i];
      buffer.Put(MODE_8BIT_BYTE, 4);
      var lengthBits := GetLengthInBits(typeNumber);
      if lengthBits.Throw? {
        return Throw(lengthBits.error);
      }
      buffer.Put(|data|, lengthBits.value);
      Write(data, buffer);
      ModeBits();
      assert dataList[..i + 1][..i] == dataList[..i];
      assert buffer.Contents() == Segments(dataList[..i], n) + Segment(data, n);
    }
    assert dataList[..|dataList|] == dataList;
    return Ok(());
  }

  lemma ModeBits()
    ensures ToBits(MODE_8BIT_BYTE, 4) == [false, true, false, false]
  {
    assert ToBits(4, 2) == [false, false];
    assert ToBits(MODE_8BIT_BYTE, 4) == ToBits(1, 2) + [false] + [false];
  }

  lemma {:induction false} ZeroBits(n: nat)
    ensures ToBits(0, n) == Falses(n)
  {
    if n > 0 {
      ZeroBits(n - 1);
    }
  }

  /** Appends the terminator when there is room for it, then zero bits up to a byte boundary. */
  method Terminate(buffer: QRBitBuffer, totalDataCount: nat)
    requires buffer.Valid() && buffer.length <= 8 * totalDataCount
    modifies buffer
    ensures buffer.Valid()
    ensures var bits := old(buffer.Contents());
            buffer.Contents() == bits + Falses(8 * DataBytes(|bits|, totalDataCount) - |bits|)
  {
    hide ToBits, BytesBits, WordBits;
    ghost var bits := buffer.Contents();
    ghost var p := DataBytes(|bits|, totalDataCount);
    if buffer.length + 4 <= totalDataCount * 8 {
      buffer.Put(0, 4);
      ZeroBits(4);
    }
    assert buffer.Contents() == bits + Falses(buffer.length - |bits|);
    PadToByte(buffer, p);
  }

  /** The zero bits up to a byte boundary. */
  method PadToByte(buffer: QRBitBuffer, ghost p: nat)
    requires buffer.Valid() && 8 * p >= buffer.length > 8 * p - 8
    modifies buffer
    ensures buffer.Valid() && buffer.Contents() == old(buffer.Contents()) + Falses(8 * p - old(buffer.length))
  {
    hide BytesBits;
    while buffer.length % 8 != 0
      invariant buffer.Valid() && old(buffer.length) <= buffer.length <= 8 * p
      invariant buffer.Contents() == old(buffer.Contents()) + Falses(buffer.length - old(buffer.length))
      decreases 8 * p - buffer.length
    {
      buffer.PutBit(false);
    }
  }

  ghost function WithPads(bits: seq<bool>, n: nat): (r: seq<bool>)
    ensures |r| == |bits| + 8 * n
  {
    bits + BytesBits(Pads(n))
  }

  lemma PadStep(bits: seq<bool>, n: nat)
    ensures WithPads(bits, n) + BytesBits([if n % 2 == 0 then PAD0 else PAD1]) == WithPads(bits, n + 1)
    ensures WithPads(bits, 0) == bits
  {
    var pad := if n % 2 == 0 then PAD0 else PAD1;
    BytesBitsConcat(Pads(n), [pad]);
    assert Pads(n + 1) == Pads(n) + [pad];
  }

  /** Appends the pad bytes, alternating, until the buffer is full. */
  method Fill(buffer: QRBitBuffer, totalDataCount: nat)
    requires buffer.Valid() && buffer.length % 8 == 0 && buffer.length <= 8 * totalDataCount
    modifies buffer
    ensures buffer.Valid()
    ensures buffer.Contents() == old(buffer.Contents()) + BytesBits(Pads(totalDataCount - old(buffer.length) / 8))
  {
    hide WithPads, BytesBits, BitOf, Pads;
    ghost var bits, n := buffer.Contents(), 0;
    PadStep(bits, 0);
    while true
      invariant buffer.Valid() && n % 2 == 0
      invariant buffer.Contents() == WithPads(bits, n) && buffer.length == |bits| + 8 * n <= 8 * totalDataCount
      decreases 8 * totalDataCount - buffer.length
    {
      if buffer.length >= totalDataCount * 8 {
        break;
      }
      PutPad(buffer, PAD0);
      PadStep(bits, n);
      n := n + 1;
      if buffer.length >= totalDataCount * 8 {
        break;
      }
      PutPad(buffer, PAD1);
      PadStep(bits, n);
      n := n + 1;
    }
    assert n == totalDataCount - old(buffer.length) / 8;
    WithPadsIs(bits, n);
  }

  lemma WithPadsIs(bits: seq<bool>, n: nat)
    ensures WithPads(bits, n) == bits + BytesBits(Pads(n))
  {
  }

  lemma StreamIs(bits: seq<bool>, totalDataCount: nat)
    requires |bits| <= 8 * totalDataCount
    ensures var p := DataBytes(|bits|, totalDataCount);
            && |bits| <= 8 * p <= 8 * totalDataCount && |Falses(8 * p - |bits|)| == 8 * p - |bits|
            && Stream(bits, totalDataCount) == bits + Falses(8 * p - |bits|) + BytesBits(Pads(totalDataCount - p))
            && |Stream(bits, totalDataCount)| == 8 * totalDataCount
  {
  }

  /** A buffer that ends at a byte boundary holds the bits of its bytes. */
  lemma FullContents(buffer: QRBitBuffer, n: nat)
    requires buffer.Valid() && buffer.length == 8 * n
    ensures |buffer.buffer| == n && buffer.Contents() == BytesBits(buffer.buffer)
  {
    hide BitOf;
  }

  method PutPad(buffer: QRBitBuffer, pad: bv8)
    requires buffer.Valid()
    modifies buffer
    ensures buffer.Valid() && buffer.Contents() == old(buffer.Contents()) + BytesBits([pad])
    ensures buffer.length == old(buffer.length) + 8
  {
    hide BitOf, ToBits, WordBits;
    ToBitsOfByte(pad);
    buffer.Put(Value(pad), 8);
  }

  /**
   * Throws exactly on an unknown version or when the segments do not fit; otherwise fills the buffer to its last byte.
   */
  method CreateBuffer(typeNumber: int, dataList: seq<Bytes>, totalDataCount: nat) returns (r: Result<QRBitBuffer>)
    ensures r.Ok? <==>
            && (dataList == [] || GetLengthInBits(typeNumber).Ok?)
            && |AllSegments(typeNumber, dataList)| <= 8 * totalDataCount
    ensures r.Ok? ==> fresh(r.value) && r.value.Valid() && |r.value.buffer| == totalDataCount
    ensures r.Ok? ==> BytesBits(r.value.buffer) == Stream(AllSegments(typeNumber, dataList), totalDataCount)
  {
    hide AllSegments, BytesBits, Stream, Pads, Falses, DataBytes;
    var buffer := new QRBitBuffer();
    var put := PutSegments(typeNumber, dataList, buffer);
    if put.Throw? {
      return Throw(put.error);
    }
    if buffer.length > totalDataCount * 8 {
      return Throw(CodeLengthOverflow);
    }
    Terminate(buffer, totalDataCount);
    Fill(buffer, totalDataCount);
    StreamIs(AllSegments(typeNumber, dataList), totalDataCount);
    assert buffer.Contents() == Stream(AllSegments(typeNumber, dataList), totalDataCount);
    FullContents(buffer, totalDataCount);
    return Ok(buffer);
  }
}
