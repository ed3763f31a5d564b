/**
 The few JavaScript values the encoder and the parsers rely on: results of code
 that may throw, and array entries that were never assigned.
 */
module JsValues {
  datatype Option<+T> = None | Some(value: T)

  datatype Error =
    | GlogOfZero           // QRMath.glog(0)
    | NegativeArrayLength  // new Array(-1)
    | CodeLengthOverflow   // QRCodeModel.createData
    | BadType              // QRUtil.getLengthInBits
    | BadMaskPattern       // QRUtil.getMask
    | BadRsBlock           // QRRSBlock.getRSBlocks
    | NoPatternPosition    // reading the length of a missing row of PATTERN_POSITION_TABLE

  datatype Result<+T> = Ok(value: T) | Throw(error: Error)

  /**
   * An entry of a JavaScript array of bytes. A hole is `undefined`: it is not equal to 0, but `^` and `>>>` read it as
   * 0.
   */
  datatype Cell = Hole | Num(byte: bv8)

  function Val(c: Cell): bv8 {
    if c.Hole? then 0 else c.byte
  }

  function Vals(cells: seq<Cell>): (bytes: seq<bv8>)
    ensures |bytes| == |cells|
    ensures forall k :: 0 <= k < |cells| ==> bytes[k] == Val(cells[k])
  {
    seq(|cells|, k requires 0 <= k < |cells| => Val(cells[k]))
  }
}
