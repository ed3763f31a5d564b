# Almond cloud: verified models of its protocols and encoders

This project models the parts of the Almond cloud service whose behaviour cannot be read off a single function, and
proves what they are for:

- **The QR encoder** (`public/javascripts/qrcode.js`). Payload bytes go through a bit buffer, pad bytes, Reed-Solomon
  check bytes over GF(256), interleaving of unequal blocks, the function patterns, a zig-zag walk over the symbol and a
  mask. The models prove each stage against an independent definition (field and ring laws, codewords and their minimum
  distance, the layout of a symbol, a reader for each format), and `Symbol.MakeImpl` joins them: for every version,
  level, mask and payload, making the symbol succeeds exactly if the payload fits, and a reader that sees nothing but the
  finished symbol, and insists that both copies of its format and version information agree with it, recovers the
  payload. What the symbol looks like is also stated apart from the code: patterns and masks as tiles, and the walk cell
  by cell. Array entries that JavaScript leaves unassigned are modelled as holes: they are not equal to zero, but read
  as zero by `^`.
- **The JSON parser** (`public/javascripts/jsonlint.js`). The 32-state LALR(1) table, the shift/reduce loop and the
  semantic actions. `JsonParser.Parse` returns a value if and only if the input starts with a document of the grammar,
  and then that document's value, after at most three reductions per token; printing any JSON value and parsing it gives
  its meaning back.
- **The last-writer-wins table** (`go/sql/sync_table.go`, `go/sql/user_device.go`). The operations as methods on the two
  tables; merging as a function of the set of records only; and the sync protocol as a state machine over an
  unreliable network (requests and responses may be lost, repeated, delayed and reordered), in which one round always
  brings both replicas to their join.
- **Smaller stateful cores.** The two websocket hand-overs, the audio recorder and its WAV writer, the like counter,
  and the weekly credits.

Assumptions of the sync protocol, all of them in `SyncProtocol`'s definitions: one peer per user, which keeps every
version it has not seen acknowledged; positive timestamps; equal timestamps on one key mean equal content (`Env.truth`);
live records have a non-empty state; a write that originates at the server is stamped past everything the server has
for that user (`ServerWrite`). `SyncProtocol.LearnsExactly` says why the last one is needed: a version stamped at or below
the peer's cursor does not reach it.

Places where the code does less than one would expect, each with its exact condition:

- `CloudSyncWebsocketDelegate` loses the order of messages exactly when one arrives before the buffered ones are relayed
  (`CloudSync.InOrderExactly`, `CloudSync.OrderIsLost`).
- The WAV header's byte rate is right exactly for two channels (`Wav.ByteRateExactly`).
- The block table fills every version and level but one, 15-H, which it leaves without its second group of blocks
  (`RSBlocks.VersionFills`).

Four more hold of single functions, while no caller in the repository reaches them:

- BCH encoding loses data bits beyond the 32-bit word (`Bch.StartsWithData`, `Bch.LongDataIsLost`); its callers pass at
  most 31 and 40.
- A generator polynomial of length 255 has zero coefficients, whose logarithm throws (`ReedSolomon.Generator255`); up to
  length 254 there are none, and the block table never asks for more than 30 check bytes (`RSBlocks.VersionFits`).
- The recorder's `init` empties the buffers but keeps the recorded length (`RecorderRuns.LengthExactly`,
  `RecorderRuns.InitKeepsLength`); the recorder posts `init` once per worker.
- `create` stores a like count that its caller passes, and then the counters are right only if it is 0
  (`Likes.Examples.Create`); its callers pass none, or 0.

Each file holds one stage with its helper modules, and `dafny verify dfyconfig.toml` verifies the whole project. Where
the source updates objects or arrays in place, so does the model, and the method's contract ties it to a function on
values about which the properties are proved. Polynomials are values, since the source never changes one after building
it.

## Model

| member | source | states |
|---|---|---|
| Gf256.MulAssoc | public/javascripts/qrcode.js:136-138 | multiplication modulo the field polynomial is associative |
| Gf256.MulComm | public/javascripts/qrcode.js:136-138 | multiplication is commutative |
| Gf256.DistributesLeft | public/javascripts/qrcode.js:136-138 | multiplication distributes over xor |
| Gf256.NoZeroDivisors | public/javascripts/qrcode.js:136-138 | a product is zero only if a factor is |
| Gf256.ExpNotOne | public/javascripts/qrcode.js:134-138 | no power of alpha below 255 is one: with `Exp255`, its order is exactly 255 |
| Gf256.Exp255 | public/javascripts/qrcode.js:134-138 | the 255th power of alpha is one, so reducing exponents by 255 is sound |
| Gf256.ExpInjective | public/javascripts/qrcode.js:138 | the 255 powers differ, so the loop that fills the logarithm table never overwrites an entry |
| Gf256.LogExists | public/javascripts/qrcode.js:133-138 | every non-zero byte is a power of alpha, so its logarithm is assigned |
| QRMath.SmallPowers | public/javascripts/qrcode.js:137 | alpha^8 is 0x1D, and the sum of the powers 4, 3, 2 and 0: the field polynomial is the one of the recurrence |
| QRMath.ShiftedOne | public/javascripts/qrcode.js:136 | the first eight powers are the single bits, from the lowest on |
| QRMath.ExpRecurrence | public/javascripts/qrcode.js:137 | the recurrence that fills the table computes powers of alpha in the field |
| QRMath.ExpTable | public/javascripts/qrcode.js:136-137 | the two loops fill the table with the powers of alpha |
| QRMath.LogTable | public/javascripts/qrcode.js:138 | the loop makes the logarithm table the inverse of the power table |
| QRMath.QRMath.constructor | public/javascripts/qrcode.js:136-138 | both tables are right, in fresh arrays |
| QRMath.QRMath.Glog | public/javascripts/qrcode.js:133-134 | throws on zero, passes holes through, and gives any other byte the one exponent below 255 whose power it is |
| QRMath.QRMath.Gexp | public/javascripts/qrcode.js:134-136 | the power of alpha for every integer exponent, negative ones included |
| QRMath.ExpZAdd | public/javascripts/qrcode.js:134-142 | adding exponents, of any sign, multiplies the powers |
| QRPolynomial.Construct | public/javascripts/qrcode.js:139-141 | drops leading zeros, stops at a hole, and appends holes |
| QRPolynomial.Product | public/javascripts/qrcode.js:142 | gexp of a sum of logarithms is the field product, and throws exactly on zero |
| QRPolynomial.AddRow | public/javascripts/qrcode.js:142 | the inner loop adds one coefficient's multiple of the other polynomial in place, and throws exactly on a zero coefficient |
| QRPolynomial.AddRows | public/javascripts/qrcode.js:142 | both loops together, in place |
| QRPolynomial.Multiply | public/javascripts/qrcode.js:142-143 | throws exactly if a coefficient is zero, or if both factors are empty; otherwise the ring product without its leading zeros, and only holes for an empty right factor |
| Polynomials.EvalTimes | public/javascripts/qrcode.js:142-143 | evaluating a product at any point gives the product of the values |
| QRPolynomial.Reduce | public/javascripts/qrcode.js:144-145 | one division step: the dividend with a multiple of the divisor added at the top; a leading hole has no logarithm and counts as zero |
| QRPolynomial.Mod | public/javascripts/qrcode.js:143-146 | Euclidean remainder for every polynomial that can be constructed and every divisor that leads with a number: dividend = quotient times divisor plus a shorter rest; throws exactly when it has to divide by a divisor with a zero coefficient; terminates on the stripped length |
| ReedSolomon.GetErrorCorrectPolynomial | public/javascripts/qrcode.js:123-124 | succeeds exactly up to length 255, and gives the generator |
| ReedSolomon.GeneratorMonic | public/javascripts/qrcode.js:123-124 | the generator is monic |
| ReedSolomon.GeneratorValue | public/javascripts/qrcode.js:123-124 | its value at any x is the product of (x + alpha^i), i below its length |
| ReedSolomon.GeneratorRoot | public/javascripts/qrcode.js:123-124 | it vanishes at alpha^0 to alpha^(n-1) |
| ReedSolomon.AllVanish | public/javascripts/qrcode.js:123-124 | the Vandermonde argument: n terms whose first n power sums vanish are all zero |
| ReedSolomon.GeneratorNoZero | public/javascripts/qrcode.js:123-124 | up to length 254 no coefficient is zero, so no logarithm of zero is taken |
| ReedSolomon.Generator255 | public/javascripts/qrcode.js:123-124 | the generator of length 255 is x^255 + 1 |
| ReedSolomon.CheckBytes | public/javascripts/qrcode.js:116 | data followed by the computed check bytes is a multiple of the generator; says exactly when it throws |
| ReedSolomon.CodewordVanishes | public/javascripts/qrcode.js:115-116 | a codeword vanishes at alpha^0 to alpha^(n-1) |
| ReedSolomon.CheckBytesUnique | public/javascripts/qrcode.js:115-116 | the check bytes are the only ones that complete the data to a codeword |
| ReedSolomon.MinimumDistance | public/javascripts/qrcode.js:115-116 | two codewords of the same length, at most 255, that differ in at most n places are equal |
| ReedSolomon.Correctable | public/javascripts/qrcode.js:115-116 | so up to n/2 damaged bytes leave only one codeword that close |
| Bits.BytesBitsInjective | public/javascripts/qrcode.js:149-152 | bytes are determined by their bits |
| Bits.FromToBits | public/javascripts/qrcode.js:150 | reading back a number written with enough bits gives the number |
| Bits.LeadingBit | public/javascripts/qrcode.js:150 | the first bit of a number has the highest place value |
| QRBitBuffer.PutBitDone | public/javascripts/qrcode.js:150-152 | growing the last byte and or-ing a bit into it appends one bit and leaves the rest of the byte clear |
| QRBitBuffer.QRBitBuffer.constructor | public/javascripts/qrcode.js:149 | an empty buffer |
| QRBitBuffer.QRBitBuffer.Get | public/javascripts/qrcode.js:150 | the bit at any index; false past the end |
| QRBitBuffer.QRBitBuffer.PutBit | public/javascripts/qrcode.js:150-152 | the contents with one more bit |
| QRBitBuffer.QRBitBuffer.Put | public/javascripts/qrcode.js:150 | the contents followed by the number's low bits, most significant first; beyond 32 bits, the repetition that the wrapping shift count gives |
| CreateData.Write | public/javascripts/qrcode.js:71-75 | appends the payload's bits |
| CreateData.PutSegments | public/javascripts/qrcode.js:103 | mode, length and payload of every segment; throws exactly on an unknown version |
| CreateData.Terminate | public/javascripts/qrcode.js:110-111 | terminator if there is room for it, then zero bits to a byte boundary |
| CreateData.Fill | public/javascripts/qrcode.js:112-114 | alternating pad bytes, starting with 0xEC, up to the last byte |
| BitStream.PadBits | public/javascripts/qrcode.js:103-114 | the pad bytes alternate between 11101100 and 00010001, bit by bit |
| CreateData.CreateBuffer | public/javascripts/qrcode.js:103-115 | throws exactly on an unknown version or too much data; otherwise a full buffer holding the stream |
| BitStream.ReadSegments | public/javascripts/qrcode.js:103-111 | a reader of segments stops at the terminator, or at the end without one, and has the segments back if and only if their lengths fit |
| BitStream.StreamReads | public/javascripts/qrcode.js:103-115 | a stream of any size gives back its segments if and only if every length fits the length field |
| BitStream.FittingLengthsFit | public/javascripts/qrcode.js:103-109 | whatever passes the overflow test of a symbol whose byte count fits the length field has only lengths that fit |
| BitStream.ReadStream | public/javascripts/qrcode.js:103-115 | round trip: so decoding the stream gives back whatever fits |
| Interleaving.DeinterleaveInterleave | public/javascripts/qrcode.js:117-119 | de-interleaving recovers every row in order, whatever the row lengths |
| Interleaving.InterleaveDeinterleave | public/javascripts/qrcode.js:117-119 | and the other way round: interleaving is a bijection |
| Interleaving.InterleaveEntry | public/javascripts/qrcode.js:118-119 | the slot of entry i of row r |
| Interleaving.PositionOrder | public/javascripts/qrcode.js:118-119 | entries go column by column, and within a column row by row |
| Interleaving.StartTotal | public/javascripts/qrcode.js:117-119 | after the last column exactly the total number of entries has been placed |
| CreateBytes.FlattenBlocks | public/javascripts/qrcode.js:115-116 | the blocks together are the buffer's bytes, none lost or repeated |
| CreateBytes.TakeBlock | public/javascripts/qrcode.js:115 | the data row of one block |
| CreateBytes.BuildRows | public/javascripts/qrcode.js:115-116 | data and check rows of all blocks, and their longest lengths; says exactly when it throws |
| CreateBytes.WriteColumns | public/javascripts/qrcode.js:118-119 | the nested loops fill their part of the message exactly, and nothing before it |
| CreateBytes.CreateBytes | public/javascripts/qrcode.js:115-120 | throws exactly if some block does; otherwise every block is read back from the message, completed to a codeword, and the index ends at the total |
| CreateBytes.SingleBlock | public/javascripts/qrcode.js:115-120 | a message in one block is the data followed by its check bytes |
| Placement.WholeWalkVisits | public/javascripts/qrcode.js:100-103 | the zig-zag walk visits every cell outside column 6 exactly once |
| Placement.WalkAt | public/javascripts/qrcode.js:100-103 | which cell is visited at which index: two columns at a time from the right edge, upwards and downwards in turn, column 6 skipped |
| MapData.QRCodeModel.constructor | public/javascripts/qrcode.js:88 | a grid of nulls of size 4t+17 |
| MapData.QRCodeModel.Visit | public/javascripts/qrcode.js:100-102 | one visit: a null cell takes the next data bit, any other cell is left alone |
| MapData.QRCodeModel.MapData | public/javascripts/qrcode.js:100-103 | terminates; fills exactly the null cells outside column 6, in walk order; throws exactly on an unknown mask with a null cell to fill, and then changes nothing |
| Masks.PatternsExist | public/javascripts/qrcode.js:123 | there are exactly the patterns 0 to 7 |
| Masks.Chessboard | public/javascripts/qrcode.js:123 | pattern 0 flips the first cell, and changes with every step in either direction |
| Masks.Rows | public/javascripts/qrcode.js:123 | pattern 1 flips the first row, changes with every row and ignores the column |
| Masks.Columns | public/javascripts/qrcode.js:123 | pattern 2 flips the first of every three columns and ignores the row |
| Masks.Antidiagonals | public/javascripts/qrcode.js:123 | pattern 3 is constant along antidiagonals and flips the first of every three |
| Masks.Blocks | public/javascripts/qrcode.js:123 | pattern 4 repeats a tile of four rows by six columns, blocks of two by three |
| Masks.Crosses | public/javascripts/qrcode.js:123 | pattern 5 repeats a tile of six by six |
| Masks.Diamonds | public/javascripts/qrcode.js:123 | pattern 6 repeats a tile of six by six |
| Masks.Weave | public/javascripts/qrcode.js:123 | pattern 7 repeats a tile of six by six |
| Symbol.NoNullLeft | public/javascripts/qrcode.js:93-103 | with column 6 filled beforehand, no cell stays null |
| Symbol.UnmaskPlaced | public/javascripts/qrcode.js:100-103 | re-reading along the walk with the mask taken off gives the data bits, truncated or continued with zeros |
| Symbol.ReadMessage | public/javascripts/qrcode.js:100-120 | a reader of the message has the segments back, whatever bits follow it |
| Symbol.CreateMessage | public/javascripts/qrcode.js:103-120 | bit stream and codewords together, for any block list; with at most 254 check bytes per block it fails only if the data does not fit |
| RSBlocks.GetRSBlocks | public/javascripts/qrcode.js:147-149 | the blocks of a row of the table; throws exactly without such a version or level |
| RSBlocks.VersionFits | public/javascripts/qrcode.js:147-149 | for all 160 rows: the message fits the free cells, no block has more than 30 check bytes, and the byte count fits the length field |
| RSBlocks.VersionFills | public/javascripts/qrcode.js:147-149 | less than a byte of the free cells is left over, for every version and level but 15-H |
| RSBlocks.LevelsFall | public/javascripts/qrcode.js:120-149 | for every version, levels 1 (L), 0 (M), 3 (Q) and 2 (H) hold fewer data bytes in turn |
| RSBlocks.LengthFieldExactly | public/javascripts/qrcode.js:124 | the length field is 8 bits wide exactly as long as no level of the version holds 256 bytes, and 16 otherwise |
| Symbol.CreateCodewords | public/javascripts/qrcode.js:103-120 | `createData` for every version and level: throws exactly if there is none or the payload does not fit; otherwise the message of the payload |
| Patterns.SetupPositionProbePattern | public/javascripts/qrcode.js:91 | the finder pattern with its separator, as far as it is inside, and nothing else |
| Patterns.FinderTile | public/javascripts/qrcode.js:91 | how it looks, cell by cell: the runs along the middle lines are 1:1:3:1:1 |
| Patterns.DrawSquare | public/javascripts/qrcode.js:97 | one alignment pattern, and nothing else |
| Patterns.AlignmentTile | public/javascripts/qrcode.js:97 | how it looks, cell by cell: the runs along the middle lines are 1:1:1:1:1 |
| Patterns.SetupPositionAdjustPattern | public/javascripts/qrcode.js:96-97 | an alignment pattern around every pair of positions that finder patterns do not occupy, and nothing else |
| Patterns.SetupTimingPattern | public/javascripts/qrcode.js:93-96 | the timing patterns where nothing is drawn yet |
| Patterns.TimingAlternates | public/javascripts/qrcode.js:93-96 | both are alike, dark at both ends and alternating |
| Patterns.SetupTypeInfo | public/javascripts/qrcode.js:98-100 | both copies of the format information and the dark module; the bits are the masked code word of level and mask |
| Patterns.SetupTypeNumber | public/javascripts/qrcode.js:97-98 | both copies of the version information; the bits are its code word |
| Patterns.NearOnly | public/javascripts/qrcode.js:96-97 | positions are far enough apart that a cell is near at most one |
| Layout.PositionsSpaced | public/javascripts/qrcode.js:120 | every row of the position table runs from 6 to the opposite finder pattern, at least 12 apart |
| Layout.PositionsEven | public/javascripts/qrcode.js:120 | every row has as many positions as its version asks for, evenly spaced from the second on |
| Layout.CentresProbed | public/javascripts/qrcode.js:88-97 | after the finder patterns exactly the centres they occupy are drawn |
| Layout.PatternsCover | public/javascripts/qrcode.js:88-100 | all patterns together are drawn exactly on the function cells |
| Layout.FreeCellsCount | public/javascripts/qrcode.js:88-103 | every version leaves at least the cells that its message needs |
| Symbol.SetupPatterns | public/javascripts/qrcode.js:88-89 | the grid shows the function patterns and is null everywhere else |
| Information.FormatReads | public/javascripts/qrcode.js:98-100 | level and mask are read back from the symbol, and both copies are the same word |
| Information.VersionReads | public/javascripts/qrcode.js:97-98 | from version 7 on, the version is read back from either block, bit i from row i / 3 and column n - 11 + i % 3 and from its transpose |
| Information.DarkModule | public/javascripts/qrcode.js:100 | the dark module is dark |
| Information.TrialIsLight | public/javascripts/qrcode.js:97-100 | a trial run draws all format and version information, and the dark module, light |
| Symbol.ReadFinished | public/javascripts/qrcode.js:88-103 | reading a finished symbol gives the payload of its message |
| Symbol.MakeImpl | public/javascripts/qrcode.js:88-91 | payload to symbol and back: for every version, level, mask and payload it succeeds exactly if the payload fits; then no cell is null, and a reader that sees nothing but the symbol finds the version and both copies of the format right and has the payload back |
| Bch.GetBCHDigit | public/javascripts/qrcode.js:122-123 | the number of binary digits |
| Bch.Remainder | public/javascripts/qrcode.js:120-122 | the shift-xor loop ends with a remainder shorter than the divisor, congruent to the data |
| Bch.CodeWordUnique | public/javascripts/qrcode.js:120-122 | only one multiple of the divisor starts with given data |
| Bch.Encode | public/javascripts/qrcode.js:120-122 | data and remainder form a multiple of the divisor that starts with the data's remaining bits |
| Bch.GetBCHTypeInfo | public/javascripts/qrcode.js:120-121 | format information: unmasked, the code word of the data for G15 |
| Bch.GetBCHTypeNumber | public/javascripts/qrcode.js:121-122 | version information: the code word of the data for G18 |
| Bch.FormatInfo | public/javascripts/qrcode.js:120-121 | the data is read back from the format information, which has 15 bits |
| Bch.VersionInfo | public/javascripts/qrcode.js:121-122 | the version is read back from the version information, which has 18 bits |
| Bch.FormatExample | public/javascripts/qrcode.js:120-121 | data 5 gives the word 0x40CE |
| Bch.VersionExample | public/javascripts/qrcode.js:121-122 | version 7 gives the word 0x7C94 |
| Bch.StartsWithData | public/javascripts/qrcode.js:120-121 | a word starts with the data it was made from if and only if the data has at most 22 bits |
| Bch.LongDataIsLost | public/javascripts/qrcode.js:120-121 | data 2^22 gives the word 0 |
| BinaryPolynomials.ClmulXor | public/javascripts/qrcode.js:120-122 | multiplication over GF(2) distributes over xor |
| BinaryPolynomials.DigitClmul | public/javascripts/qrcode.js:120-123 | digit counts of products add up, so a multiple shorter than the divisor is zero |
| JsonTable.Closure | public/javascripts/jsonlint.js:52-53 | wherever the table has a goto on a nonterminal, it can follow each of its productions, and then reduces on every token acceptable after the nonterminal |
| JsonTable.ReducesBy | public/javascripts/jsonlint.js:52-53 | the production each state reduces by |
| JsonTable.ShiftEnters | public/javascripts/jsonlint.js:52 | by which shifts each state is entered |
| JsonTable.GotoEnters | public/javascripts/jsonlint.js:52 | by which gotos each state is entered |
| JsonSoundness.Handle | public/javascripts/jsonlint.js:52-53 | when the table reduces, the right-hand side is on top of the stack and the goto exists |
| JsonSoundness.ActionValue | public/javascripts/jsonlint.js:8-51 | each semantic action computes the meaning of the node from those of its children |
| JsonSoundness.ShiftKeeps | public/javascripts/jsonlint.js:175-196 | a shift keeps the stacks justified by derivation trees of the tokens read |
| JsonSoundness.ReduceKeeps | public/javascripts/jsonlint.js:198-231 | so does a reduction |
| JsonSoundness.ReturnSound | public/javascripts/jsonlint.js:198-216 | at the end the tokens read are derived from the start symbol, and the value returned is that derivation's |
| JsonSoundness.NeverAccepts | public/javascripts/jsonlint.js:233-234 | the accept entry of the table is never reached: parsing ends by the first production's own return |
| JsonSoundness.NodesBound | public/javascripts/jsonlint.js:7 | a derivation has fewer than three reductions per token |
| JsonCompleteness.RunTree | public/javascripts/jsonlint.js:100-237 | where the automaton can move over a nonterminal, it reads any derivation of it and pushes its meaning |
| JsonCompleteness.RunDocument | public/javascripts/jsonlint.js:100-237 | on input starting with a document the machine returns its value, never reaching the error branch |
| JsonCompleteness.OneValue | public/javascripts/jsonlint.js:7-53 | one token sequence has one value |
| JsonParser.Parse | public/javascripts/jsonlint.js:100-237 | for every token sequence: a value if and only if the input starts with a document, and then its value; at most three reductions per token shifted, so it always halts |
| JsonPrinting.ValueTree | public/javascripts/jsonlint.js:7-51 | every JSON value has a derivation with its printed tokens and its meaning, later members replacing earlier ones |
| JsonPrinting.PrintedValue | public/javascripts/jsonlint.js:7-51 | a printed value, whatever follows its end token, is a document with that meaning |
| JsonPrinting.ParsePrinted | public/javascripts/jsonlint.js:100-237 | round trip: parsing a printed value returns its meaning |
| SyncMerge.MergeAllMerged | go/sql/sync_table.go:104-186 | after a batch every key holds its newest version, a row with exactly its state if that is not empty and none otherwise; keys without a newer one are as before |
| SyncMerge.OrderIndependent | go/sql/sync_table.go:104-186 | with equal content at equal timestamps, the outcome depends only on the set of records |
| SyncMerge.Splits | go/sql/sync_table.go:104-128 | splitting a batch changes nothing |
| SyncMerge.Idempotent | go/sql/sync_table.go:104-186 | merging a batch again changes nothing |
| SyncMerge.AppliedExactly | go/sql/sync_table.go:104-186 | a record is applied if and only if it has an id and is strictly newer than the journal and everything before it for its key |
| SyncMerge.AppliedNewest | go/sql/sync_table.go:104-186 | the same for each record of a batch: it is applied if and only if it is the newest so far |
| SyncMerge.MergeAllKeeps | go/sql/sync_table.go:104-186 | live rows stay journaled, other users untouched, timestamps never lowered |
| SyncTable.UserDeviceSyncRecord.constructor | go/sql/user_device.go:42-51 | a record of a row |
| SyncTable.UserDeviceSyncRecord.SetKey | go/sql/user_device.go:89-92 | rewrites the key and nothing else |
| SyncTable.SyncTable.constructor | go/sql/sync_table.go:31-34 | empty tables |
| SyncTable.SyncTable.Insert | go/sql/sync_table.go:149-157 | upserts row and journal entry |
| SyncTable.SyncTable.Delete | go/sql/sync_table.go:178-186 | removes the row and journals a tombstone |
| SyncTable.SyncTable.InsertIfRecent | go/sql/sync_table.go:130-147 | inserts if and only if the journal has nothing as new; never lowers a timestamp |
| SyncTable.SyncTable.DeleteIfRecent | go/sql/sync_table.go:159-176 | the same for deletion |
| SyncTable.SyncTable.HandleChange | go/sql/sync_table.go:106-125 | one record of a batch: applied if it has an id and is newer, as this user's; then its key has exactly its state, or no row if the state is missing or empty |
| SyncTable.SyncTable.HandleChanges | go/sql/sync_table.go:86-128 | after a batch every key holds its newest version, a live row or none; a record is reported as applied if and only if it was the newest so far; the records' keys afterwards |
| SyncTable.SyncTable.GetLastModified | go/sql/sync_table.go:216-229 | the newest timestamp of the user, 0 without any |
| SyncTable.SyncTable.SyncAt | go/sql/sync_table.go:189-214 | changes and newest timestamp as they were before the pushed records were merged, and the tables after it |
| SyncTable.SyncTable.ClearUser | go/sql/sync_table.go:238-245 | deletes rows and journal of one user |
| SyncTable.SyncTable.InsertAll | go/sql/sync_table.go:246-258 | inserts the live records with an id, the last one for a key last |
| SyncTable.SyncTable.ReplaceAll | go/sql/sync_table.go:231-266 | nothing for an empty list; otherwise exactly the last-wins map of the live records with an id, other users untouched |
| SyncTable.InsertKeptAt | go/sql/sync_table.go:231-266 | what replacing leaves at each key, without saying in which order |
| SyncTable.SyncTable.InsertRowIfRecent | go/sql/sync_table.go:268-282 | conditional insertion of one row |
| SyncTable.SyncTable.InsertOne | go/sql/sync_table.go:284-300 | unconditional insertion, stamped by the clock |
| SyncTable.SyncTable.DeleteRowIfRecent | go/sql/sync_table.go:302-316 | conditional deletion of one row |
| SyncTable.SyncTable.DeleteOne | go/sql/sync_table.go:317-332 | unconditional deletion, stamped by the clock |
| SyncProtocol.StepKeeps | go/sql/sync_table.go:69-229 | every step of every party keeps the protocol's invariant |
| SyncProtocol.ServerKeeps | go/sql/sync_table.go:189-229 | whatever the server does, if each new version is the peer's or past all it had, no request, response or cursor is invalidated |
| SyncProtocol.Answered | go/sql/sync_table.go:189-229 | a response covers everything up to the timestamp it carries, although that is read before the pushed records are merged |
| SyncProtocol.HandleRequest | go/dbproxy/sync_table.go:145-187 | running `SyncAt` on a request is a step of the protocol, and leaves the table as the protocol says |
| SyncProtocol.NothingMissed | go/sql/sync_table.go:69-229 | in every run, the peer dominates every server entry up to its cursor, and the server every acknowledged entry of the peer |
| SyncProtocol.RoundConverges | go/sql/sync_table.go:189-229 | after any run, one round leaves both replicas with the per-key join of what they had, and nothing pending |
| SyncProtocol.LearnsExactly | go/sql/sync_table.go:69-84 | a version that the server stores and the peer lacks reaches it in the next round if and only if its stamp is past the peer's cursor; otherwise the replicas differ |
| MyConversation.Conversation.constructor | src/routes/my_conversation.ts:117-136 | nothing opened, nothing queued |
| MyConversation.Conversation.OnMessage | src/routes/my_conversation.ts:137-153 | queued, handled or dropped, as the state says |
| MyConversation.Conversation.DrainOn | src/routes/my_conversation.ts:188-191 | the loop over the live queue up to its next wait |
| MyConversation.Conversation.OnWrapper | src/routes/my_conversation.ts:187-191 | the wrapper arrives and draining begins |
| MyConversation.Conversation.OnResume | src/routes/my_conversation.ts:188-191 | draining goes on |
| MyConversation.Conversation.OnClose | src/routes/my_conversation.ts:125-129 | closing begins to destroy the wrapper |
| MyConversation.Conversation.OnDestroyed | src/routes/my_conversation.ts:128-135 | and ends by dropping it |
| MyConversation.InOrderExactlyOnce | src/routes/my_conversation.ts:136-191 | however a run goes and ends, the handled messages are a prefix of those that arrived |
| MyConversation.OpenHandlesAll | src/routes/my_conversation.ts:136-191 | while open, everything that arrived has been handled |
| MyConversation.DrainOpens | src/routes/my_conversation.ts:187-191 | draining ends, and then everything has been handled |
| MyConversation.QueueOpens | src/routes/my_conversation.ts:187-191 | from the wrapper's arrival on, as many finished calls as messages were queued open the conversation with everything handled |
| MyConversation.CloseDestroys | src/routes/my_conversation.ts:125-135 | closing destroys the wrapper, whatever happens in between |
| MyConversation.NothingAfterDestroyed | src/routes/my_conversation.ts:125-153 | once the wrapper is gone, nothing is handled any more |
| MyConversation.NothingAfterFailure | src/routes/my_conversation.ts:187-196 | once the opening task has failed, nothing is handled any more |
| CloudSync.CloudSyncWebsocketDelegate.constructor | src/routes/cloud-sync.ts:34-38 | no remote, nothing buffered |
| CloudSync.CloudSyncWebsocketDelegate.OnMessage | src/routes/cloud-sync.ts:46-60 | relayed or buffered; binary data ignored |
| CloudSync.CloudSyncWebsocketDelegate.DrainOn | src/routes/cloud-sync.ts:73-74 | the loop over the buffer up to its next wait |
| CloudSync.CloudSyncWebsocketDelegate.OnRemote | src/routes/cloud-sync.ts:63-75 | the remote is set first, then the first buffered message relayed |
| CloudSync.CloudSyncWebsocketDelegate.OnResume | src/routes/cloud-sync.ts:73-74 | the next buffered message |
| CloudSync.ExactlyOnce | src/routes/cloud-sync.ts:46-76 | buffered and direct messages are each relayed in order and once, shuffled; none is lost |
| CloudSync.DrainFinishes | src/routes/cloud-sync.ts:73-74 | while relaying goes on, as many finished calls as messages are left relay the whole buffer, and then all that arrived is relayed |
| CloudSync.FailureStops | src/routes/cloud-sync.ts:46-76 | after a rejected call the rest of the buffer is never relayed, and messages that arrive still are |
| CloudSync.InOrderExactly | src/routes/cloud-sync.ts:46-76 | arrival order is kept if and only if no message arrives between setting the remote and relaying the buffer |
| CloudSync.OrderIsLost | src/routes/cloud-sync.ts:46-76 | three messages relayed as first, third, second |
| RecorderRuns.RunRecords | browser/deps/recorder.js:97-140 | in every run each channel holds the samples recorded since its buffers were emptied |
| RecorderRuns.RunLength | browser/deps/recorder.js:97-140 | the length is what the first channel got since the last `clear` |
| RecorderRuns.EqualLength | browser/deps/recorder.js:97-140 | with channels of equal length, it is what each channel got since its buffers were emptied, and what `init` dropped |
| RecorderRuns.RunConfigured | browser/deps/recorder.js:97-101 | rate and channel count are those of the last `init` |
| RecorderRuns.EqualNeverOverruns | browser/deps/recorder.js:97-150 | so no run with channels of equal length overruns |
| RecorderRuns.LengthExactly | browser/deps/recorder.js:97-150 | with channels of equal length merging never overruns, and the length is exact if and only if no `init` came after samples that were not cleared |
| RecorderRuns.InitKeepsLength | browser/deps/recorder.js:97-107 | a second `init` leaves length 1 with empty buffers |
| Recorder.Worker.constructor | browser/deps/recorder.js:72-75 | no channels, no samples |
| Recorder.Worker.InitBuffers | browser/deps/recorder.js:137-140 | the first channels emptied, any others left |
| Recorder.Worker.Init | browser/deps/recorder.js:97-101 | new rate and channel count, buffers emptied, length kept |
| Recorder.Worker.Record | browser/deps/recorder.js:103-107 | one chunk more on every channel, and the length of the first one more |
| Recorder.Worker.Clear | browser/deps/recorder.js:131-135 | no samples and length zero |
| Recorder.MergeBuffers | browser/deps/recorder.js:142-150 | the chunks in order, then silence up to the length; fails exactly if they are longer |
| Recorder.Interleave | browser/deps/recorder.js:152-165 | left and right samples alternate, as many as both channels have; past the end of one channel an undefined entry |
| Recorder.Worker.MergeAll | browser/deps/recorder.js:109-112 | all channels merged; fails exactly if one overruns |
| Recorder.Worker.ExportWAV | browser/deps/recorder.js:109-122 | fails exactly if a channel overruns; otherwise header and position of every sample of every channel; with more than two channels only the first is exported |
| Wav.Pcm | browser/deps/recorder.js:169-170 | always a 16-bit value |
| Wav.PcmWithinOneStep | browser/deps/recorder.js:167-172 | reading a sample back gives the clamped input within one quantisation step |
| Wav.PcmTowardZero | browser/deps/recorder.js:167-172 | what is stored is never louder than the clamped input, and never of the other sign |
| Wav.PcmMonotone | browser/deps/recorder.js:167-172 | order is kept |
| Wav.PcmOnto | browser/deps/recorder.js:167-172 | every 16-bit value survives a round trip |
| Wav.FloatTo16BitPCM | browser/deps/recorder.js:167-172 | writes every sample in place and nothing before them |
| Wav.EncodeWAV | browser/deps/recorder.js:174-213 | 44 + 2N bytes with every field of the header (RIFF size 36 + 2N and data size 2N modulo 2^32, tags, format, rates), then the samples |
| Wav.Tags | browser/deps/recorder.js:174-206 | the ASCII tags and constant fields byte by byte |
| Wav.ByteRateExactly | browser/deps/recorder.js:196-202 | the byte rate is the sample rate times the block size if and only if there are two channels |
| Likes.Examples.Create | src/model/example.ts:94-110 | one new example with the count it is given or 0; the counters stay right if and only if that is 0 |
| Likes.Examples.CreateMany | src/model/example.ts:63-92 | new examples, every count reset, so the counters stay right |
| Likes.Examples.InsertIgnore | src/model/example.ts:429 | inserts exactly a new like of an existing example |
| Likes.Examples.Like | src/model/example.ts:428-433 | one like and one count more, or no effect; the counter stays the number of likers |
| Likes.Examples.Unlike | src/model/example.ts:435-440 | one like and one count less, or no effect; the counter stays the number of likers |
| Likes.Examples.DeleteById | src/model/example.ts:446-448 | the example goes with its likes |
| Likes.Examples.DeleteAllLikesFromUser | src/model/example.ts:450-454 | the bulk decrement keeps every counter the number of likers |
| Likes.LikersPlus | src/model/example.ts:428-433 | how one like changes the number of likers of every example |
| Credits.Organization.ApplyWeeklyCreditUpdate | src/model/organization.ts:71-83 | credits and date advance by the same number of whole weeks |
| Credits.ScheduleIndependent | src/model/organization.ts:71-83 | for every non-decreasing list of update times the result is that of the last update alone: rate times whole weeks elapsed, less than a week outstanding |
| Credits.OneMoreDevice | src/model/organization.ts:71-83 | what one more device of each kind adds to a week's credits; each device counts once |
| Credits.OneWeek | src/model/organization.ts:71-83 | a week is 604800 seconds: nothing accrues one second earlier, in either direction |

## Left out

- QR rendering, mask scoring and the choice of version: version, level and mask are parameters, and `MakeImpl` is proved for all of them.
- `QRCodeModel.dataCache`: the message of a payload is computed for every trial mask again, with the same outcome.
- `QRCodeLimitLength`, which chooses the version, is not modelled: the block table's row for version 15, level H has one group only and holds less than it says, and `createData` then throws.
- QR text encoding (`public/javascripts/qrcode.js:35-65`): the payload is a list of byte strings.
- QR modes other than bytes: the encoder never creates them.
- QR decoding with error correction: `Symbol.ReadSymbol` reads undamaged symbols; `ReedSolomon.Correctable` says that damage can be undone, not how.
- QRPolynomial.Mod: a divisor whose leading entry was never assigned, for which the source's recursion does not end, is excluded.
- Bch.Encode: 32-bit patterns are unsigned numbers; JavaScript's signed results differ only in how bit 31 is printed.
- jsonlint's lexer, source locations and string unescaping: the parser starts from tokens, and unescaping and number conversion are arbitrary functions (the chained replacements do not invert JSON escaping).
- jsonlint's error recovery: no state has an error entry and `parseError` throws, so it never runs.
- jsonlint's single stack of states and symbols is kept as two lists; objects that actions extend in place are values, so aliasing between stack entries and a member called `__proto__` are not modelled.
- SQL, gorm, HTTP and authentication: the two tables are maps, each transaction is atomic, and database errors do not occur.
- The sync peer's own code is not part of this model: the protocol states what it must do (`Send`, `Receive`, `PeerEdit`).
- `ReplaceAll` and conditional writes with old timestamps are not steps of the protocol: they can go behind a peer's cursor.
- 64-bit overflow of timestamps, and clocks: the current time is a parameter.
- Other tables that share `SyncTable`: the record's state stands for all columns of a row.
- Handlers run one at a time between waits, and messages are handed to them in the order of arrival; what a failing call does beyond ending the opening task is not modelled.
- Recorder sample values are reals: rounding to 32-bit floats, NaN and infinities are not modelled; recording on fewer channels than were announced is excluded.
- Recorder.Worker.ExportWAV: requires an initialised worker; before `init` the source fails on a missing buffer.
- The recorder's `getBuffer` sends what `Recorder.Worker.MergeAll` returns.
- Likes of users that do not exist, and the update of an existing example's text by `create` and `createMany`, which leaves its counter alone.
- Credits of organizations without a statistics row, daylight saving and fractions of a second: time is in whole seconds.
- `src/almond/enginemanager.ts`, device, schema and training code: process management and queries without invariants of their own.
