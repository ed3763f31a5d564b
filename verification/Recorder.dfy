/** The audio recorder's worker: the buffers it keeps over a run of messages. Samples are reals. */
module RecorderRuns {
  type Chunk = seq<real>

  datatype State = State(recLength: nat, sampleRate: nat, numChannels: nat, recBuffers: seq<seq<Chunk>>)

  datatype Event =
    | Init(sampleRate: nat, numChannels: nat)
    | Record(inputBuffer: seq<Chunk>)
    | Clear

  const START := State(0, 0, 0, [])

  /** At least all channels that are recorded. */
  ghost predicate Fits(s: State, event: Event) {
    event.Record? ==> 0 < |event.inputBuffer| && s.numChannels <= |event.inputBuffer|
  }

  /** Channels are recorded equally long, as the audio interface delivers them. */
  ghost predicate Equal(events: seq<Event>) {
    forall i :: 0 <= i < |events| && events[i].Record? ==>
      forall c :: 0 <= c < |events[i].inputBuffer| ==> |events[i].inputBuffer[c]| == |events[i].inputBuffer[0]|
  }

  /** `recBuffers` with the first `n` channels emptied, and any others left as they are. */
  function Emptied(recBuffers: seq<seq<Chunk>>, n: nat): (r: seq<seq<Chunk>>)
    ensures |r| == if n < |recBuffers| then |recBuffers| else n
    ensures forall c :: 0 <= c < |r| ==> r[c] == if c < n then [] else recBuffers[c]
  {
    seq(n, _ => []) + if n < |recBuffers| then recBuffers[n..] else []
  }

  function Extended(recBuffers: seq<seq<Chunk>>, inputBuffer: seq<Chunk>, n: nat): (r: seq<seq<Chunk>>)
    requires n <= |recBuffers| && n <= |inputBuffer|
    ensures |r| == |recBuffers|
    ensures forall c :: 0 <= c < |r| ==> r[c] == if c < n then recBuffers[c] + [inputBuffer[c]] else recBuffers[c]
  {
    seq(|recBuffers|, c requires 0 <= c < |recBuffers| =>
      if c < n then recBuffers[c] + [inputBuffer[c]] else recBuffers[c])
  }

  ghost function Next(s: State, event: Event): (r: State)
    requires s.numChannels <= |s.recBuffers| && Fits(s, event)
    ensures r.numChannels <= |r.recBuffers|
  {
    match event
    case Init(sampleRate, n) => State(s.recLength, sampleRate, n, Emptied(s.recBuffers, n))
    case Record(inputBuffer) =>
      s.(recLength := s.recLength + |inputBuffer[0]|, recBuffers := Extended(s.recBuffers, inputBuffer, s.numChannels))
    case Clear => s.(recLength := 0, recBuffers := Emptied([], s.numChannels))
  }

  /** The state after a run, unless a message does not fit. */
  ghost function After(events: seq<Event>): (s: State)
    requires Run(events)
    ensures s.numChannels <= |s.recBuffers|
    decreases |events|, 1
  {
    if events == [] then START else Next(After(events[..|events| - 1]), events[|events| - 1])
  }

  ghost predicate Run(events: seq<Event>)
    decreases |events|, 0
  {
    events != [] ==>
      var n := |events| - 1;
      Run(events[..n]) && Fits(After(events[..n]), events[n])
  }

  // ----- what a run records, from its messages alone -----

  function Concat(chunks: seq<Chunk>): Chunk {
    if chunks == [] then [] else Concat(chunks[..|chunks| - 1]) + chunks[|chunks| - 1]
  }

  /** The samples of a channel since the buffers were last emptied. */
  function Recorded(events: seq<Event>, c: nat): Chunk {
    if events == [] then []
    else
      var n := |events| - 1;
      match events[n]
      case Record(inputBuffer) => Recorded(events[..n], c) + if c < |inputBuffer| then inputBuffer[c] else []
      case _ => []
  }

  /** How many samples were recorded since the last `clear`. */
  function SinceClear(events: seq<Event>): nat {
    if events == [] then 0
    else
      var n := |events| - 1;
      match events[n]
      case Init(_, _) => SinceClear(events[..n])
      case Record(inputBuffer) => SinceClear(events[..n]) + if inputBuffer == [] then 0 else |inputBuffer[0]|
      case Clear => 0
  }

  /** How many of those were recorded before the last `init`, which drops them. */
  function Dropped(events: seq<Event>): nat {
    if events == [] then 0
    else
      var n := |events| - 1;
      match events[n]
      case Init(_, _) => SinceClear(events[..n])
      case Record(_) => Dropped(events[..n])
      case Clear => 0
  }

  /** In every run, each channel holds what was recorded on it since its buffers were emptied. */
  lemma {:induction false} RunRecords(events: seq<Event>, c: nat)
    requires Run(events) && c < After(events).numChannels
    ensures Concat(After(events).recBuffers[c]) == Recorded(events, c)
  {
    var n := |events| - 1;
    match events[n]
    case Init(_, _) =>
    case Clear =>
    case Record(inputBuffer) =>
      RunRecords(events[..n], c);
      var chunks := After(events[..n]).recBuffers[c];
      assert (chunks + [inputBuffer[c]])[..|chunks|] == chunks;
  }

  lemma {:induction false} RunLength(events: seq<Event>)
    requires Run(events)
    ensures After(events).recLength == SinceClear(events)
  {
    if events != [] {
      RunLength(events[..|events| - 1]);
    }
  }

  /** With equally long channels, the length also counts what was dropped. */
  lemma {:induction false} EqualLength(events: seq<Event>, c: nat)
    requires Run(events) && Equal(events) && c < After(events).numChannels
    ensures SinceClear(events) == |Recorded(events, c)| + Dropped(events)
  {
    var n := |events| - 1;
    match events[n]
    case Init(_, _) =>
    case Clear =>
    case Record(inputBuffer) =>
      assert Equal(events[..n]);
      EqualLength(events[..n], c);
      assert |inputBuffer[c]| == |inputBuffer[0]|;
  }

  /**
   * Then merging never overruns, and the length is exact if and only if no `init` came after samples that were not
   * cleared.
   */
  lemma LengthExactly(events: seq<Event>, c: nat)
    requires Run(events) && Equal(events) && c < After(events).numChannels
    ensures |Concat(After(events).recBuffers[c])| <= After(events).recLength
    ensures After(events).recLength == |Concat(After(events).recBuffers[c])| <==> Dropped(events) == 0
  {
    RunRecords(events, c);
    RunLength(events);
    EqualLength(events, c);
  }

  /** Some channel holds more than the length. */
  ghost predicate Overruns(s: State) {
    exists c :: 0 <= c < s.numChannels && c < |s.recBuffers| && |Concat(s.recBuffers[c])| > s.recLength
  }

  lemma EqualNeverOverruns(events: seq<Event>)
    requires Run(events) && Equal(events)
    ensures !Overruns(After(events))
  {
    forall c | 0 <= c < After(events).numChannels
      ensures |Concat(After(events).recBuffers[c])| <= After(events).recLength
    {
      LengthExactly(events, c);
    }
  }

  /** Rate and channels are those of the last `init`. */
  lemma {:induction false} RunConfigured(events: seq<Event>, more: seq<Event>, sampleRate: nat, numChannels: nat)
    requires Run(events + [Init(sampleRate, numChannels)] + more)
    requires forall i :: 0 <= i < |more| ==> !more[i].Init?
    ensures var s := After(events + [Init(sampleRate, numChannels)] + more);
            s.sampleRate == sampleRate && s.numChannels == numChannels
  {
    var all := events + [Init(sampleRate, numChannels)] + more;
    var n := |all| - 1;
    if more != [] {
      assert all[..n] == events + [Init(sampleRate, numChannels)] + more[..|more| - 1];
      RunConfigured(events, more[..|more| - 1], sampleRate, numChannels);
    }
  }

  /** A second `init` empties the buffers and keeps the length. */
  lemma InitKeepsLength()
    ensures var events := [Init(48000, 1), Record([[0.5]]), Init(48000, 1)];
            Run(events) && After(events).recLength == 1 && After(events).recBuffers == [[]]
  {
    var one := [Init(48000, 1)];
    var two := one + [Record([[0.5]])];
    var three := two + [Init(48000, 1)];
    assert one[..0] == [] && two[..1] == one && three[..2] == two;
    assert Run(one) && After(one) == State(0, 48000, 1, [[]]);
    assert Run(two) && After(two).recLength == 1;
    assert three == [Init(48000, 1), Record([[0.5]]), Init(48000, 1)];
  }

  /** What a channel is exported as: what it holds, and silence up to the length. */
  function Padded(chunks: seq<Chunk>, length: nat): (r: Chunk)
    requires |Concat(chunks)| <= length
    ensures |r| == length && r[..|Concat(chunks)|] == Concat(chunks)
  {
    Concat(chunks) + seq(length - |Concat(chunks)|, _ => 0.0)
  }

  lemma ConcatNext(chunks: seq<Chunk>, i: nat)
    requires i < |chunks|
    ensures Concat(chunks[..i + 1]) == Concat(chunks[..i]) + chunks[i]
  {
    assert chunks[..i + 1][..i] == chunks[..i];
  }

  lemma {:induction false} ConcatPrefix(chunks: seq<Chunk>, i: nat)
    requires i <= |chunks|
    ensures |Concat(chunks[..i])| <= |Concat(chunks)|
    decreases |chunks| - i
  {
    if i < |chunks| {
      ConcatNext(chunks, i);
      ConcatPrefix(chunks, i + 1);
    } else {
      assert chunks[..i] == chunks;
    }
  }
}

/** 16-bit samples, and the bytes of a WAV file. */
module Wav {
  type byte = x: int | 0 <= x < 256

  function Clamp(s: real): real {
    if s > 1.0 then 1.0 else if s < -1.0 then -1.0 else s
  }

  /** Rounding toward zero. */
  function Trunc(x: real): int {
    if x < 0.0 then -(-x).Floor else x.Floor
  }

  function Pcm(input: real): (v: int)
    ensures -0x8000 <= v <= 0x7FFF
  {
    var s := Clamp(input);
    if s < 0.0 then Trunc(s * 32768.0) else Trunc(s * 32767.0)
  }

  function FromPcm(v: int): real {
    if v < 0 then v as real / 32768.0 else v as real / 32767.0
  }

  /** Reading a sample back gives the clamped input, within one quantisation step. */
  lemma PcmWithinOneStep(input: real)
    ensures var d := FromPcm(Pcm(input)) - Clamp(input); -1.0 / 32767.0 < d < 1.0 / 32767.0
  {
    var s := Clamp(input);
    if s < 0.0 {
      var x := -(s * 32768.0);
      assert x.Floor as real <= x < x.Floor as real + 1.0;
      Scaled(Pcm(input), s, 32768.0);
    } else {
      var x := s * 32767.0;
      assert x.Floor as real <= x < x.Floor as real + 1.0;
      Scaled(Pcm(input), s, 32767.0);
    }
  }

  lemma Scaled(v: int, s: real, scale: real)
    requires scale > 0.0 && -1.0 < v as real - s * scale < 1.0
    ensures -1.0 / scale < v as real / scale - s < 1.0 / scale
  {
    var d := v as real / scale - s;
    assert d * scale == v as real - s * scale;
    assert (1.0 / scale) * scale == 1.0;
  }

  /** What is stored is never louder than the clamped input: the fraction is dropped toward silence. */
  lemma PcmTowardZero(input: real)
    ensures Clamp(input) < 0.0 ==> Clamp(input) <= FromPcm(Pcm(input)) <= 0.0
    ensures Clamp(input) >= 0.0 ==> 0.0 <= FromPcm(Pcm(input)) <= Clamp(input)
  {
    var s, v := Clamp(input), Pcm(input);
    if s < 0.0 {
      assert s * 32768.0 <= v as real <= 0.0;
      DividedAbove(s, v as real, 32768.0);
    } else {
      assert 0.0 <= v as real <= s * 32767.0;
      DividedBelow(s, v as real, 32767.0);
    }
  }

  lemma DividedAbove(s: real, v: real, scale: real)
    requires scale > 0.0 && s * scale <= v <= 0.0
    ensures s <= v / scale <= 0.0
  {
    assert v / scale * scale == v;
  }

  lemma DividedBelow(s: real, v: real, scale: real)
    requires scale > 0.0 && 0.0 <= v <= s * scale
    ensures 0.0 <= v / scale <= s
  {
    assert v / scale * scale == v;
  }

  /** Louder stays louder, and every 16-bit value is reached. */
  lemma PcmMonotone(a: real, b: real)
    requires a <= b
    ensures Pcm(a) <= Pcm(b)
  {
  }

  lemma PcmOnto(v: int)
    requires -0x8000 <= v <= 0x7FFF
    ensures Pcm(FromPcm(v)) == v
  {
    var s := FromPcm(v);
    if v < 0 {
      assert s * 32768.0 == v as real;
    } else {
      assert s * 32767.0 == v as real;
    }
  }

  // ----- little-endian fields -----

  function Uint16(v: int): (bytes: seq<byte>)
    ensures |bytes| == 2
  {
    [v % 0x100, v / 0x100 % 0x100]
  }

  function Uint32(v: int): (bytes: seq<byte>)
    ensures |bytes| == 4
  {
    Uint16(v) + Uint16(v / 0x1_0000)
  }

  function Ascii(text: string): (bytes: seq<byte>)
    ensures |bytes| == |text|
  {
    seq(|text|, i requires 0 <= i < |text| => text[i] as int % 0x100)
  }

  function Uint16At(bytes: seq<byte>, offset: nat): (v: int)
    requires offset + 2 <= |bytes|
    ensures 0 <= v < 0x1_0000
  {
    bytes[offset] as int + 0x100 * bytes[offset + 1] as int
  }

  function Uint32At(bytes: seq<byte>, offset: nat): int
    requires offset + 4 <= |bytes|
  {
    Uint16At(bytes, offset) + 0x1_0000 * Uint16At(bytes, offset + 2)
  }

  function Int16At(bytes: seq<byte>, offset: nat): int
    requires offset + 2 <= |bytes|
  {
    var v := Uint16At(bytes, offset);
    if v < 0x8000 then v else v - 0x1_0000
  }

  /** `bytes` has `piece` at `offset`. */
  ghost predicate Has(bytes: seq<byte>, offset: nat, piece: seq<byte>) {
    offset + |piece| <= |bytes| && bytes[offset..offset + |piece|] == piece
  }

  lemma Uint16Reads(bytes: seq<byte>, offset: nat, v: int)
    requires Has(bytes, offset, Uint16(v))
    ensures Uint16At(bytes, offset) == v % 0x1_0000
  {
    assert bytes[offset] == bytes[offset..offset + 2][0] && bytes[offset + 1] == bytes[offset..offset + 2][1];
  }

  lemma Uint32Reads(bytes: seq<byte>, offset: nat, v: int)
    requires Has(bytes, offset, Uint32(v))
    ensures Uint32At(bytes, offset) == v % 0x1_0000_0000
  {
    assert bytes[offset..offset + 2] == bytes[offset..offset + 4][..2] == Uint16(v);
    assert bytes[offset + 2..offset + 4] == bytes[offset..offset + 4][2..] == Uint16(v / 0x1_0000);
    Uint16Reads(bytes, offset, v);
    Uint16Reads(bytes, offset + 2, v / 0x1_0000);
  }

  /** Writing a field keeps what comes before it. */
  method Set(view: array<byte>, offset: nat, piece: seq<byte>)
    requires offset + |piece| <= view.Length
    modifies view
    ensures view[..offset + |piece|] == old(view[..offset]) + piece
  {
    for i := 0 to |piece|
      invariant view[..offset + i] == old(view[..offset]) + piece[..i]
    {
      view[offset + i] := piece[i];
    }
  }

  lemma HasLast(bytes: seq<byte>, before: seq<byte>, piece: seq<byte>)
    requires |before| + |piece| <= |bytes| && bytes[..|before| + |piece|] == before + piece
    ensures Has(bytes, |before|, piece) && bytes[..|before|] == before
  {
    assert bytes[|before|..|before| + |piece|] == bytes[..|before| + |piece|][|before|..] == piece;
    assert bytes[..|before|] == bytes[..|before| + |piece|][..|before|];
  }

  function RiffBytes(n: nat): seq<byte> {
    Ascii("RIFF") + Uint32(36 + n * 2) + Ascii("WAVE")
  }

  function FormatBytes(numChannels: nat, sampleRate: nat, n: nat): seq<byte> {
    RiffBytes(n) + Ascii("fmt ") + Uint32(16) + Uint16(1) + Uint16(numChannels) + Uint32(sampleRate)
    + Uint32(sampleRate * 4) + Uint16(numChannels * 2) + Uint16(16)
  }

  function HeaderBytes(numChannels: nat, sampleRate: nat, n: nat): seq<byte> {
    FormatBytes(numChannels, sampleRate, n) + Ascii("data") + Uint32(n * 2)
  }

  method FloatTo16BitPCM(output: array<byte>, offset: nat, input: seq<real>)
    requires offset + 2 * |input| <= output.Length
    modifies output
    ensures forall k :: 0 <= k < |input| ==> Int16At(output[..], offset + 2 * k) == Pcm(input[k])
    ensures output[..offset] == old(output[..offset])
  {
    hide Pcm, Uint16;
    for i := 0 to |input|
      invariant forall k :: 0 <= k < i ==> output[offset + 2 * k..offset + 2 * k + 2] == Uint16(Pcm(input[k]))
      invariant output[..offset] == old(output[..offset])
    {
      label before:
      var end := offset + 2 * i;
      Set(output, end, Uint16(Pcm(input[i])));
      assert output[..end] == output[..end + 2][..end] == old@before(output[..end]);
      assert output[end..end + 2] == output[..end + 2][end..];
      forall k | 0 <= k < i
        ensures output[offset + 2 * k..offset + 2 * k + 2] == Uint16(Pcm(input[k]))
      {
        assert output[offset + 2 * k..offset + 2 * k + 2] == output[..end][offset + 2 * k..offset + 2 * k + 2];
        assert old@before(output[offset + 2 * k..offset + 2 * k + 2])
               == old@before(output[..end])[offset + 2 * k..offset + 2 * k + 2];
      }
      assert output[..offset] == output[..end][..offset];
    }
    forall k | 0 <= k < |input|
      ensures Int16At(output[..], offset + 2 * k) == Pcm(input[k])
    {
      assert output[..][offset + 2 * k..offset + 2 * k + 2] == output[offset + 2 * k..offset + 2 * k + 2];
      Uint16Reads(output[..], offset + 2 * k, Pcm(input[k]));
    }
  }

  // The tags of the chunks, in ASCII.
  const RIFF: seq<byte> := [0x52, 0x49, 0x46, 0x46]
  const WAVE: seq<byte> := [0x57, 0x41, 0x56, 0x45]
  const FMT: seq<byte> := [0x66, 0x6D, 0x74, 0x20]
  const DATA: seq<byte> := [0x64, 0x61, 0x74, 0x61]

  lemma Tags()
    ensures Ascii("RIFF") == RIFF && Ascii("WAVE") == WAVE && Ascii("fmt ") == FMT && Ascii("data") == DATA
    ensures Uint32(16) == [16, 0, 0, 0] && Uint16(1) == [1, 0] && Uint16(16) == [16, 0]
  {
  }

  /** The header says how long the file and its data are, and in what format. */
  ghost predicate Header(bytes: seq<byte>, numChannels: nat, sampleRate: nat, n: nat) {
    && |bytes| == 44 + 2 * n
    && Has(bytes, 0, RIFF) && Uint32At(bytes, 4) == (|bytes| - 8) % 0x1_0000_0000
    && Has(bytes, 8, WAVE) && Has(bytes, 12, FMT) && Has(bytes, 16, [16, 0, 0, 0])
    && Has(bytes, 20, [1, 0]) && Uint16At(bytes, 22) == numChannels % 0x1_0000
    && Uint32At(bytes, 24) == sampleRate % 0x1_0000_0000 && Uint32At(bytes, 28) == sampleRate * 4 % 0x1_0000_0000
    && Uint16At(bytes, 32) == numChannels * 2 % 0x1_0000 && Has(bytes, 34, [16, 0])
    && Has(bytes, 36, DATA) && Uint32At(bytes, 40) == 2 * n % 0x1_0000_0000
  }

  lemma HeaderReads(bytes: seq<byte>, numChannels: nat, sampleRate: nat, n: nat)
    requires |bytes| == 44 + 2 * n && bytes[..44] == HeaderBytes(numChannels, sampleRate, n)
    ensures Header(bytes, numChannels, sampleRate, n)
  {
    hide Has, Uint16, Uint32, Uint16At, Uint32At, Ascii;
    var riff := Ascii("RIFF") + Uint32(36 + n * 2) + Ascii("WAVE");
    var format := riff + Ascii("fmt ") + Uint32(16) + Uint16(1);
    var channels := format + Uint16(numChannels) + Uint32(sampleRate) + Uint32(sampleRate * 4);
    HasLast(bytes, channels + Uint16(numChannels * 2) + Uint16(16) + Ascii("data"), Uint32(n * 2));
    HasLast(bytes, channels + Uint16(numChannels * 2) + Uint16(16), Ascii("data"));
    HasLast(bytes, channels + Uint16(numChannels * 2), Uint16(16));
    HasLast(bytes, channels, Uint16(numChannels * 2));
    HasLast(bytes, format + Uint16(numChannels) + Uint32(sampleRate), Uint32(sampleRate * 4));
    HasLast(bytes, format + Uint16(numChannels), Uint32(sampleRate));
    HasLast(bytes, format, Uint16(numChannels));
    HasLast(bytes, riff + Ascii("fmt ") + Uint32(16), Uint16(1));
    HasLast(bytes, riff + Ascii("fmt "), Uint32(16));
    HasLast(bytes, riff, Ascii("fmt "));
    HasLast(bytes, Ascii("RIFF") + Uint32(36 + n * 2), Ascii("WAVE"));
    HasLast(bytes, Ascii("RIFF"), Uint32(36 + n * 2));
    HasLast(bytes, [], Ascii("RIFF")) by {
      assert [] + Ascii("RIFF") == Ascii("RIFF");
    }
    Tags();
    Uint32Reads(bytes, 4, 36 + n * 2);
    Uint16Reads(bytes, 22, numChannels);
    Uint32Reads(bytes, 24, sampleRate);
    Uint32Reads(bytes, 28, sampleRate * 4);
    Uint16Reads(bytes, 32, numChannels * 2);
    Uint32Reads(bytes, 40, n * 2);
  }

  /** The byte rate is the rate times the size of a frame if and only if there are two channels. */
  lemma ByteRateExactly(bytes: seq<byte>, numChannels: nat, sampleRate: nat, n: nat)
    requires Header(bytes, numChannels, sampleRate, n)
    requires 0 < sampleRate < 0x4000_0000 && numChannels < 0x8000
    ensures Uint32At(bytes, 28) == Uint32At(bytes, 24) * Uint16At(bytes, 32) <==> numChannels == 2
  {
    hide Uint32At, Uint16At;
    if numChannels != 2 {
      assert sampleRate * (numChannels * 2 - 4) != 0;
    }
  }

  /** `bytes` holds the samples, each as a 16-bit value. */
  ghost predicate Holds(bytes: seq<byte>, samples: seq<real>) {
    && |bytes| == 44 + 2 * |samples|
    && forall k :: 0 <= k < |samples| ==> Int16At(bytes, 44 + 2 * k) == Pcm(samples[k])
  }

  /** The first twelve bytes. */
  method WriteRiff(view: array<byte>, n: nat)
    requires view.Length >= 44
    modifies view
    ensures view[..12] == RiffBytes(n)
  {
    hide Uint16, Uint32, Ascii;
    Set(view, 0, Ascii("RIFF"));
    assert view[..4] == Ascii("RIFF");
    Set(view, 4, Uint32(36 + n * 2));
    Set(view, 8, Ascii("WAVE"));
  }

  /** The format chunk. */
  method WriteFormat(view: array<byte>, numChannels: nat, sampleRate: nat, ghost n: nat)
    requires view.Length >= 44 && view[..12] == RiffBytes(n)
    modifies view
    ensures view[..36] == FormatBytes(numChannels, sampleRate, n)
  {
    hide Uint16, Uint32, Ascii, RiffBytes;
    Set(view, 12, Ascii("fmt "));
    Set(view, 16, Uint32(16));
    Set(view, 20, Uint16(1));
    Set(view, 22, Uint16(numChannels));
    Set(view, 24, Uint32(sampleRate));
    Set(view, 28, Uint32(sampleRate * 4));
    Set(view, 32, Uint16(numChannels * 2));
    Set(view, 34, Uint16(16));
  }

  method EncodeWAV(samples: seq<real>, numChannels: nat, sampleRate: nat) returns (view: array<byte>)
    ensures fresh(view)
    ensures Header(view[..], numChannels, sampleRate, |samples|)
    ensures Holds(view[..], samples)
  {
    hide Has, Uint16, Uint32, Ascii, Header, Int16At, Pcm, FormatBytes, RiffBytes;
    view := new byte[44 + |samples| * 2](_ => 0);
    WriteRiff(view, |samples|);
    WriteFormat(view, numChannels, sampleRate, |samples|);
    Set(view, 36, Ascii("data"));
    Set(view, 40, Uint32(|samples| * 2));
    FloatTo16BitPCM(view, 44, samples);
    HeaderReads(view[..], numChannels, sampleRate, |samples|);
  }
}

module Recorder {
  import opened JsValues
  import opened RecorderRuns
  import opened Wav

  /** The chunks in order, then silence; fails if they are longer than the length. */
  method MergeBuffers(recBuffers: seq<Chunk>, recLength: nat) returns (r: Option<array<real>>)
    ensures r.None? <==> |Concat(recBuffers)| > recLength
    ensures r.Some? ==> fresh(r.value) && r.value[..] == Padded(recBuffers, recLength)
  {
    var result := new real[recLength](_ => 0.0);
    var offset := 0;
    for i := 0 to |recBuffers|
      invariant offset == |Concat(recBuffers[..i])| <= recLength
      invariant result[..offset] == Concat(recBuffers[..i])
      invariant forall j :: offset <= j < recLength ==> result[j] == 0.0
    {
      ConcatNext(recBuffers, i);
      ConcatPrefix(recBuffers, i + 1);
      var chunk := recBuffers[i];
      if offset + |chunk| > recLength {
        return None;
      }
      forall j | 0 <= j < |chunk| {
        result[offset + j] := chunk[j];
      }
      assert result[..offset + |chunk|] == Concat(recBuffers[..i]) + chunk;
      offset := offset + |chunk|;
    }
    assert recBuffers[..|recBuffers|] == recBuffers;
    assert result[..] == result[..offset] + result[offset..];
    return Some(result);
  }

  /** An entry of a channel; past its end an assignment stores what `undefined` becomes. */
  function Entry<T>(input: seq<T>, k: nat, undefined: T): T {
    if k < |input| then input[k] else undefined
  }

  /** Left and right samples in turn, as many as both channels have together. */
  method Interleave<T(0)>(inputL: seq<T>, inputR: seq<T>, undefined: T) returns (result: array<T>)
    ensures fresh(result) && result.Length == |inputL| + |inputR|
    ensures forall i :: 0 <= i < result.Length ==>
            result[i] == Entry(if i % 2 == 0 then inputL else inputR, i / 2, undefined)
  {
    var length := |inputL| + |inputR|;
    result := new T[length](_ => undefined);
    var index, inputIndex := 0, 0;
    while index < length
      invariant index == 2 * inputIndex <= length + 1
      invariant forall i :: 0 <= i < index && i < length ==>
                  result[i] == Entry(if i % 2 == 0 then inputL else inputR, i / 2, undefined)
    {
      result[index] := Entry(inputL, inputIndex, undefined);
      index := index + 1;
      if index < length {
        result[index] := Entry(inputR, inputIndex, undefined);
      }
      index := index + 1;
      inputIndex := inputIndex + 1;
    }
  }

  class Worker {
    var recLength: nat
    var recBuffers: seq<seq<Chunk>>
    var sampleRate: nat
    var numChannels: nat

    function Contents(): State
      reads this
    {
      State(recLength, sampleRate, numChannels, recBuffers)
    }

    /** Every channel that is recorded has buffers. */
    ghost predicate Valid()
      reads this
    {
      numChannels <= |recBuffers|
    }

    constructor ()
      ensures Valid() && Contents() == START
    {
      recLength, recBuffers, sampleRate, numChannels := 0, [], 0, 0;
    }

    method InitBuffers()
      modifies this`recBuffers
      ensures recBuffers == Emptied(old(recBuffers), numChannels)
    {
      for channel := 0 to numChannels
        invariant recBuffers == Emptied(old(recBuffers), channel)
      {
        if channel < |recBuffers| {
          recBuffers := recBuffers[channel := []];
        } else {
          recBuffers := recBuffers + [[]];
        }
      }
    }

    method Init(sampleRate: nat, numChannels: nat)
      requires Valid()
      modifies this
      ensures Valid() && Contents() == Next(old(Contents()), Event.Init(sampleRate, numChannels))
    {
      this.sampleRate := sampleRate;
      this.numChannels := numChannels;
      InitBuffers();
    }

    method Record(inputBuffer: seq<Chunk>)
      requires Valid() && Fits(Contents(), Event.Record(inputBuffer))
      modifies this
      ensures Valid() && Contents() == Next(old(Contents()), Event.Record(inputBuffer))
    {
      for channel := 0 to numChannels
        invariant recBuffers == Extended(old(recBuffers), inputBuffer, channel)
        invariant numChannels == old(numChannels) && recLength == old(recLength) && sampleRate == old(sampleRate)
      {
        recBuffers := recBuffers[channel := recBuffers[channel] + [inputBuffer[channel]]];
      }
      recLength := recLength + |inputBuffer[0]|;
    }

    method Clear()
      requires Valid()
      modifies this
      ensures Valid() && Contents() == Next(old(Contents()), Event.Clear)
    {
      recLength := 0;
      recBuffers := [];
      InitBuffers();
    }

    /** All channels merged; fails if one of them overruns. */
    method MergeAll() returns (r: Option<seq<array<real>>>)
      requires Valid()
      ensures r.None? <==> Overruns(Contents())
      ensures r.Some? ==> |r.value| == numChannels
      ensures r.Some? ==> forall c :: 0 <= c < numChannels ==>
                |Concat(recBuffers[c])| <= recLength && r.value[c][..] == Padded(recBuffers[c], recLength)
    {
      hide Concat, Padded;
      var buffers := [];
      for channel := 0 to numChannels
        invariant |buffers| == channel
        invariant forall c :: 0 <= c < channel ==>
                    |Concat(recBuffers[c])| <= recLength && buffers[c][..] == Padded(recBuffers[c], recLength)
      {
        var merged := MergeBuffers(recBuffers[channel], recLength);
        if merged.None? {
          assert |Concat(Contents().recBuffers[channel])| > recLength;
          return None;
        }
        buffers := buffers + [merged.value];
      }
      return Some(buffers);
    }

    /**
     * Fails exactly if a channel overruns. Sample `k` of channel `c` is at 44 + 2 (k channels + c), for one channel or
     * two; with more, only the first is exported.
     */
    method ExportWAV() returns (r: Option<array<byte>>)
      requires Valid() && 0 < numChannels
      ensures r.None? <==> Overruns(Contents())
      ensures r.Some? ==> Exported(Contents(), r.value[..])
    {
      hide Header, SampleAt, Padded, Concat, Overruns, Wav.Holds;
      var merged := MergeAll();
      if merged.None? {
        return None;
      }
      var buffers := merged.value;
      var interleaved := buffers[0];
      if numChannels == 2 {
        interleaved := Interleave(buffers[0][..], buffers[1][..], 0.0);
      }
      var view := EncodeWAV(interleaved[..], numChannels, sampleRate);
      if numChannels == 2 {
        Stereo(view[..], buffers[0][..], buffers[1][..], interleaved[..]);
        ExportedStereo(Contents(), view[..]);
      } else {
        Mono(view[..], buffers[0][..]);
        ExportedMono(Contents(), view[..]);
      }
      return Some(view);
    }
  }

  /** The file that is exported for a state. */
  ghost predicate Exported(s: State, bytes: seq<byte>) {
    && 0 < s.numChannels <= |s.recBuffers|
    && (forall c :: 0 <= c < s.numChannels ==> |Concat(s.recBuffers[c])| <= s.recLength)
    && Header(bytes, s.numChannels, s.sampleRate, if s.numChannels == 2 then 2 * s.recLength else s.recLength)
    && (s.numChannels <= 2 ==> forall k, c :: 0 <= k < s.recLength && 0 <= c < s.numChannels ==>
      SampleAt(bytes, s.numChannels, k, c, Padded(s.recBuffers[c], s.recLength)[k]))
    && (s.numChannels > 2 ==> forall k :: 0 <= k < s.recLength ==>
      SampleAt(bytes, 1, k, 0, Padded(s.recBuffers[0], s.recLength)[k]))
  }

  lemma ExportedStereo(s: State, bytes: seq<byte>)
    requires s.numChannels == 2 <= |s.recBuffers|
    requires forall c :: 0 <= c < 2 ==> |Concat(s.recBuffers[c])| <= s.recLength
    requires Header(bytes, 2, s.sampleRate, 2 * s.recLength)
    requires forall k :: 0 <= k < s.recLength ==> SampleAt(bytes, 2, k, 0, Padded(s.recBuffers[0], s.recLength)[k])
    requires forall k :: 0 <= k < s.recLength ==> SampleAt(bytes, 2, k, 1, Padded(s.recBuffers[1], s.recLength)[k])
    ensures Exported(s, bytes)
  {
    hide Header, SampleAt, Padded, Concat;
  }

  lemma ExportedMono(s: State, bytes: seq<byte>)
    requires 0 < s.numChannels <= |s.recBuffers| && s.numChannels != 2
    requires forall c :: 0 <= c < s.numChannels ==> |Concat(s.recBuffers[c])| <= s.recLength
    requires Header(bytes, s.numChannels, s.sampleRate, s.recLength)
    requires forall k :: 0 <= k < s.recLength ==> SampleAt(bytes, 1, k, 0, Padded(s.recBuffers[0], s.recLength)[k])
    ensures Exported(s, bytes)
  {
    hide Header, SampleAt, Padded, Concat;
  }

  ghost predicate SampleAt(bytes: seq<byte>, channels: nat, k: nat, c: nat, sample: real) {
    var offset := 44 + 2 * (k * channels + c);
    offset + 2 <= |bytes| && Int16At(bytes, offset) == Pcm(sample)
  }

  lemma Mono(bytes: seq<byte>, left: seq<real>)
    requires Wav.Holds(bytes, left)
    ensures forall k :: 0 <= k < |left| ==> SampleAt(bytes, 1, k, 0, left[k])
  {
    hide Pcm, Int16At;
  }

  lemma Stereo(bytes: seq<byte>, left: seq<real>, right: seq<real>, samples: seq<real>)
    requires |left| == |right| && |samples| == |left| + |right| && Wav.Holds(bytes, samples)
    requires forall i :: 0 <= i < |samples| ==> samples[i] == Entry(if i % 2 == 0 then left else right, i / 2, 0.0)
    ensures forall k :: 0 <= k < |left| ==> SampleAt(bytes, 2, k, 0, left[k])
    ensures forall k :: 0 <= k < |left| ==> SampleAt(bytes, 2, k, 1, right[k])
  {
    hide Pcm, Int16At;
    forall k | 0 <= k < |left|
      ensures SampleAt(bytes, 2, k, 0, left[k]) && SampleAt(bytes, 2, k, 1, right[k])
    {
      assert Int16At(bytes, 44 + 2 * (2 * k)) == Pcm(samples[2 * k]);
      assert Int16At(bytes, 44 + 2 * (2 * k + 1)) == Pcm(samples[2 * k + 1]);
    }
  }
}
