# OpenVPN GUI: a verified model

A Dafny model of the parts of OpenVPN GUI that compute something difficult, with proofs of what they promise. It covers
the QR encoder, the client of the daemon's management interface, the life of a connection, and three data structures: the
sorted environment list with its merge into a process block, the tokenizer of configuration files with the escaping of
strings, and the tree of configuration groups.

`dafny verify dfyconfig.toml` checks all of it.

## How the model is built

Loops over arrays and objects are methods over arrays and classes, as in the C code; each is tied by its `ensures` to a
function on values, and the properties are lemmas about these functions.

* **QR encoder** (ISO/IEC 18004, sections 7.4 to 7.9). `GaloisField`, `GeneratorElement`, `ReedSolomon`, `CodeDistance`,
  `Hamming` and `BchCodes` are the algebra of error correction; `BitBuffer`, `Packing`, `Segments` and `SegmentMaking`
  the bit stream; `Versions`, `Interleaving` and `Capacity` the block structure; `Grids`, `Zigzag`, `CodewordPlacement`,
  `FunctionPatterns`, `FunctionColours`, `FormatBits` and `Masking` the symbol; `Runs` and `Penalty` its score.
  `Symbols` defines what a symbol of given segments is and how one is read, `Damage` what a damaged one still tells, and
  `Encoder` and `TextEncoder` are the encoding methods. A buffer is an `array<bv8>`; the grid it stands for is `GridOf`,
  with dark modules true, indexed by row and then column.
* **Management client.** `Framing` cuts the byte stream, `ManagementClient` is the client on values, `Management` keeps it
  in a ring of nodes, and `ReplyMatching` joins client and daemon by two byte channels. What the rest of the world does is
  an `Environment`: arbitrary results of `send`, and arbitrary commands queued by each handler that is called.
* **Life of a connection.** `Lifecycle` is the state machine with its posted messages and timer, `Transitions` its tables by
  field, `Connections` the handlers that update a connection in place.
* **Data structures.** `EnvNames`, `EnvSet` and `EnvBlock`; `ConfigTokens` and `ConfigParser`; `ConfigGroups`. `CStrings`
  is searching in NUL-terminated strings.

## Where the code does less than it is for

The model follows the code. In these places a promise fails, and a lemma says exactly when it holds.

* `manage.c:457-472` treats ERROR as the end of a command, but `manage.c:180-184` keeps a combined command at the head after
  it: `ReplyMatching.ErrorKeepsStep` says exactly when the client stays in step.
* `manage.c:453` passes what follows "SUCCESS: " to the handler. If the line ends before, that lies behind its NUL, and the
  handler gets an arbitrary text of the `Environment`: `ManagementClient.TextIsInLine` says exactly when it does not.
* `config_parser.c:54-62` refuses a backslash that escapes nothing, but one at the very end of a line is taken to escape the
  NUL (`config_parser.c:32-36`), and reading goes on behind it. `ConfigTokens.ReadsOnIfDangling` says exactly in which lines
  this happens, by a scanner that takes one character at a time, and `ConfigTokens.BackslashReadsOn` shows one. If a second
  NUL follows, the backslash is dropped; `ConfigParser.ConfigEntry.Tokenize` covers that, too.
* `main.c:551-563` uses up `auto_connect` even if the last status thread is still ending, and nothing is attached then:
  `Lifecycle.AttachStarts` says exactly when, and `Lifecycle.AttachIsLost` is a run in which it happens.
* `main.c:576-587` posts the detach to a window that may not exist yet: `Lifecycle.LockDetaches` says exactly when, and
  `Lifecycle.LockComesEarly` is a run.

## Assumptions

* Memory allocation succeeds, handlers are atomic, and no popup runs a message loop inside a handler.
* Management client: command texts hold no newline and no NUL, their callers know whether the daemon answers in two parts,
  the daemon answers a command only when it has all of it, never answers a combined command by an error, writes success
  lines with a text after the colon and the space, and asks for the password at most once. Handlers do not read from the
  socket. The connection is not closed in the middle of a read.
* Configuration files: a second NUL follows a line with a dangling backslash. The buffer is cleared before a line of at most
  254 characters is copied to it (`config_parser.c:143-163`), so this fails only for text behind a stray carriage return.
* Life of a connection: WM_OVPN_SUSPEND is never posted; the buttons of a new status window are enabled.
* Names of environment entries are compared character by character after an arbitrary upper-casing of single characters.

## Model

| member | source | states |
|---|---|---|
| GaloisField.ReedSolomonMultiply | qrcodegen/qrcodegen.c:494-504 | the Russian-peasant loop computes the field product `Mul`, whose laws are the next four rows |
| GaloisField.MulComm | qrcodegen/qrcodegen.c:494-504 | the product is commutative, for all 65536 pairs, although the loop treats its arguments differently |
| GaloisField.MulAssoc | qrcodegen/qrcodegen.c:494-504 | the product is associative |
| GaloisField.MulDistrib | qrcodegen/qrcodegen.c:494-504 | the product distributes over exclusive or on both sides |
| GaloisField.MulUnits | qrcodegen/qrcodegen.c:494-504 | 0 annihilates, 1 is the unit, and 2 is one shift with the reduction by 0x11D |
| GeneratorElement.AlphaOrder | qrcodegen/qrcodegen.c:446-464 | no power of 2 below the 255th is 1: the roots that the divisor multiplies in are distinct |
| GeneratorElement.GeneratesField | qrcodegen/qrcodegen.c:437-464 | every non-zero byte is a power of 2 with exactly one exponent below 255 |
| GeneratorElement.NoZeroDivisors | qrcodegen/qrcodegen.c:494-504 | a product is zero only if a factor is |
| ReedSolomon.ReedSolomonComputeDivisor | qrcodegen/qrcodegen.c:442-466 | the in-place loops leave the coefficients `Divisor(degree)` and nothing else changed |
| ReedSolomon.GeneratorPolynomial | qrcodegen/qrcodegen.c:437-464 | at every point the divisor, with its leading 1, takes the value of the product of (z - 2^k) for k below the degree |
| ReedSolomon.ReedSolomonComputeRemainder | qrcodegen/qrcodegen.c:473-486 | the shift-and-XOR division leaves the remainder register in its place, also when the register lies behind the data in the same array, and changes nothing else |
| ReedSolomon.ZeroSyndromes | qrcodegen/qrcodegen.c:473-486 | for data of any length and any degree, data and remainder together vanish at each of the roots 2^0 .. 2^(degree-1) |
| CodeDistance.VanishingPowerSums | qrcodegen/qrcodegen.c:437-486 | the Vandermonde argument: as many vanishing power sums as terms, with distinct locators, force a zero coefficient |
| CodeDistance.SparseBlockIsZero | qrcodegen/qrcodegen.c:437-486 | a block of at most 255 bytes with all syndromes zero and no more than `degree` non-zero bytes is all zero |
| CodeDistance.MinimumDistance | qrcodegen/qrcodegen.c:437-486 | blocks of two different data of equal length, at most 255 bytes with their error correction, differ in at least degree + 1 positions |
| CodeDistance.UniqueCorrection | qrcodegen/qrcodegen.c:437-486 | a received block within degree/2 byte errors of two sent blocks was sent from one and the same data |
| CodeDistance.RemainderIsUnique | qrcodegen/qrcodegen.c:473-486 | the remainder bytes are the only ones of their number that make every syndrome zero |
| BitBuffer.AppendBitsToBuffer | qrcodegen/qrcodegen.c:227-232 | the OR-ing loop appends exactly the numBits low bits of val to the bits already in the buffer, and touches nothing behind the cleared part |
| BitBuffer.FromToBits | qrcodegen/qrcodegen.c:227-232 | a value that fits in n bits is recovered from the n bits appended for it |
| BitBuffer.ToBitsAt | qrcodegen/qrcodegen.c:227-232 | bit i of the n appended is bit n - 1 - i of the value: the most significant comes first |
| Packing.GroupFits | qrcodegen/qrcodegen.c:1096-1167 | the number of a group of up to 3 digits or 2 characters fits its 4/7/10 or 6/11 bit field: val < 2^numBits at every append |
| Packing.PackLength | qrcodegen/qrcodegen.c:1049-1074 | the packed groups take exactly the bits that calcSegmentBitLength counts |
| Packing.UnpackPack | qrcodegen/qrcodegen.c:1096-1167 | decoding the groups gives back all the digits or characters, for texts of any length |
| Packing.DigitGroups | qrcodegen/qrcodegen.c:1096-1129 | from the left, three digits make 10 bits; two that are left over make 7 and one makes 4 |
| Packing.CharacterGroups | qrcodegen/qrcodegen.c:1134-1167 | from the left, two characters make 11 bits; one that is left over makes 6 |
| SegmentMaking.IsNumeric | qrcodegen/qrcodegen.c:1002-1011 | true exactly if every character is a digit |
| SegmentMaking.IsAlphanumeric | qrcodegen/qrcodegen.c:1016-1025 | true exactly if every character is in the 45-character set |
| SegmentMaking.MakeNumeric | qrcodegen/qrcodegen.c:1096-1129 | the segment has exactly calcSegmentBitLength bits, they are the packed digits, and the buffer behind them is unchanged |
| SegmentMaking.MakeAlphanumeric | qrcodegen/qrcodegen.c:1134-1167 | the same for the alphanumeric mode |
| SegmentMaking.MakeBytes | qrcodegen/qrcodegen.c:1079-1091 | the payload is the bytes, eight bits each |
| SegmentMaking.GetTotalBits | qrcodegen/qrcodegen.c:1209-1229 | the length of the bit stream, or overflow when a count does not fit its field or the length its type |
| Segments.ParseStream | qrcodegen/qrcodegen.c:298-313 | whatever terminated tail follows, reading the stream by mode, count and payload yields exactly the segments written |
| Versions.BlocksAreSound | qrcodegen/qrcodegen.c:104-136 | at every version and level a block has at least one data byte, at most 30 error correction bytes and at most 255 bytes in all |
| Capacity.CapacityTheorem | qrcodegen/qrcodegen.c:420-433 | for all 40 versions the modules outside the function patterns are exactly those the scan fills, and the arithmetic formula counts them |
| Interleaving.SlotOfIndex | qrcodegen/qrcodegen.c:385-399 | every result index belongs to a byte of a block |
| Interleaving.IndexOfSlot | qrcodegen/qrcodegen.c:385-399 | every byte of a block has exactly one result index below the number of codewords: the interleaving is a bijection |
| Interleaving.SlotsInOrder | qrcodegen/qrcodegen.c:385-399 | result order: data before error correction, then by position in the block, then by block |
| Interleaving.ShortBlocksFirst | qrcodegen/qrcodegen.c:375-383 | the shorter blocks come first |
| Interleaving.AddEccAndInterleave | qrcodegen/qrcodegen.c:368-400 | the result is the interleaving of all blocks with their error correction bytes, and the data are never overwritten by the work area behind them |
| Interleaving.InterleaveBlocks | qrcodegen/qrcodegen.c:382-399 | the same loops for any valid block structure, not only those of the tables |
| Interleaving.ReadBlockInterleaved | qrcodegen/qrcodegen.c:368-400 | each block read back is the Reed-Solomon codeword of its data |
| Interleaving.DeinterleaveData | qrcodegen/qrcodegen.c:368-400 | de-interleaving recovers all data bytes in order |
| Grids.GetModuleBounded | qrcodegen/qrcodegen.c:955-961 | reads the module of the grid that the packed buffer stands for |
| Grids.SetModuleBounded | qrcodegen/qrcodegen.c:966-977 | changes that one module of the grid and no other |
| Zigzag.VisitStep | qrcodegen/qrcodegen.c:698-726 | the scan visits every module outside column 6, at every odd size from 21 up ... |
| Zigzag.StepVisit | qrcodegen/qrcodegen.c:698-726 | ... at exactly one step |
| Zigzag.StepsAreModules | qrcodegen/qrcodegen.c:698-726 | it takes as many steps as there are modules outside column 6 |
| Zigzag.ScanStarts | qrcodegen/qrcodegen.c:703-713 | the scan starts in the bottom right corner and goes up, exactly at the sizes 4 k + 1 that symbols have |
| Zigzag.ScanFollows | qrcodegen/qrcodegen.c:703-713 | each step goes to the left column of the pair, or back to the right one in a neighbouring row, or from the first or last row on to the next pair beside column 6 |
| Zigzag.ScanMoves | qrcodegen/qrcodegen.c:703-713 | by at most one row, and by at most one column except across column 6 |
| CodewordPlacement.DrawCodewords | qrcodegen/qrcodegen.c:698-726 | the bits of the codewords are written, in order, to the free modules in the order of the scan, and nothing else changes |
| CodewordPlacement.FreeModuleUsed | qrcodegen/qrcodegen.c:698-726 | no free module is passed over |
| CodewordPlacement.DataCoordsInOrder | qrcodegen/qrcodegen.c:698-726 | the free modules come in the order of the scan |
| Symbols.FirstDataModules | qrcodegen/qrcodegen.c:698-726 | in every version the first three bits are in the bottom right corner, beside it and above it |
| CodewordPlacement.ReadWritten | qrcodegen/qrcodegen.c:698-726 | reading in the same order recovers the codeword bits |
| FunctionPatterns.GetAlignmentPatternPositions | qrcodegen/qrcodegen.c:667-677 | the loop that steps down from the edge fills in the positions `AlignPos` |
| FunctionPatterns.AlignPosFacts | qrcodegen/qrcodegen.c:667-677 | the positions are even, inside the grid, at least 12 apart, the last one 7 short of the edge |
| FunctionPatterns.AlignStepMeaning | qrcodegen/qrcodegen.c:667-677 | after the first, the positions are equally spaced, by the one even number in a range of width 2 around the exact distance |
| FunctionPatterns.InitializeFunctionModules | qrcodegen/qrcodegen.c:512-548 | the rectangles drawn make up exactly the function modules: timing, finder, alignment and version areas |
| FunctionPatterns.FillRectangle | qrcodegen/qrcodegen.c:682-689 | the rectangle becomes dark and no other module changes |
| FunctionColours.DrawLightFunctionModules | qrcodegen/qrcodegen.c:556-624 | on the dark function modules every one gets the colour of its pattern, whatever pattern is drawn over which, and no data module changes |
| FunctionColours.FinderIsPicture | qrcodegen/qrcodegen.c:566-581 | the three finder patterns with their separators look like the picture |
| FunctionColours.AlignmentIsPicture | qrcodegen/qrcodegen.c:583-600 | so does every alignment pattern, also across the timing patterns |
| BchCodes.ComputeRemainder | qrcodegen/qrcodegen.c:606-609 | the division loop, for both generators, completes the data to a multiple of the generator with the data as its upper bits |
| BchCodes.CodewordIsOnlyMultiple | qrcodegen/qrcodegen.c:606-609 | there is no other such multiple |
| BchCodes.CodewordsApart | qrcodegen/qrcodegen.c:606-609 | codewords of different data differ in at least 7 of 15 or 8 of 18 bits |
| FunctionColours.ComputeVersionBits | qrcodegen/qrcodegen.c:605-610 | the 18 version bits are the multiple of 0x1F25 whose upper six bits are the version |
| FunctionColours.ReadVersionCopy | qrcodegen/qrcodegen.c:612-623 | both version areas, read module by module, show these bits in their order |
| FunctionColours.ReadVersionBits | qrcodegen/qrcodegen.c:605-610 | the version is recovered from the bits |
| FunctionColours.VersionCorrects | qrcodegen/qrcodegen.c:605-623 | up to three wrong modules in a version area leave only one version |
| FormatBits.ComputeFormatWord | qrcodegen/qrcodegen.c:633-641 | the 15 format bits are, but for the fixed mask, the multiple of 0x537 whose upper five bits are level and mask |
| FormatBits.FormatCorrects | qrcodegen/qrcodegen.c:633-641 | up to three wrong format bits leave only one level and mask |
| FormatBits.DrawFormatBits | qrcodegen/qrcodegen.c:631-659 | both copies of the format bits and the dark module are written, to distinct modules, and nothing else |
| FormatBits.ReadFormat | qrcodegen/qrcodegen.c:633-641 | level and mask are recovered from the format bits |
| FormatBits.ReadFirstCopy | qrcodegen/qrcodegen.c:643-650 | the first copy, read from the grid, is the format bits in their order |
| FormatBits.ReadSecondCopy | qrcodegen/qrcodegen.c:652-658 | the second copy, by its own coordinates, reads the same, and the module that is always dark is dark |
| FormatBits.FormatOverwrites | qrcodegen/qrcodegen.c:340-356 | the format bits of a later trial replace those of an earlier one completely |
| Masking.ApplyMask | qrcodegen/qrcodegen.c:735-780 | the grid outside the function modules is inverted where the pattern says |
| Masking.MaskInvolution | qrcodegen/qrcodegen.c:340-352 | applying the same mask again undoes it exactly |
| Masking.MaskKeepsFunctionModules | qrcodegen/qrcodegen.c:735-780 | function modules never change |
| Masking.MaskPicture | qrcodegen/qrcodegen.c:740-776 | each pattern is its picture of 6 by 6, or 6 by 4, modules, repeated |
| Runs.LengthsExpand | qrcodegen/qrcodegen.c:792-845 | the run lengths of a line expand to the line |
| Runs.LengthsUnique | qrcodegen/qrcodegen.c:792-845 | they are the only alternating run lengths that do: the runs scored are the maximal ones |
| Runs.LengthsBordered | qrcodegen/qrcodegen.c:900-926 | the border added to the first and last run is a light quiet zone on both sides of the line |
| Penalty.FinderPenaltyAddHistory | qrcodegen/qrcodegen.c:920-926 | the seven slots hold the last finished runs of the bordered line, newest first |
| Penalty.FinderPenaltyCountPatterns | qrcodegen/qrcodegen.c:884-895 | the count is that of the 1:1:3:1:1 patterns that end at the run just finished |
| Penalty.FinderPenaltyTerminateAndCount | qrcodegen/qrcodegen.c:901-914 | with the counts after the last module the score of the line is complete |
| Penalty.ScanLine | qrcodegen/qrcodegen.c:792-845 | the one-pass scan of any row or column gives the declarative score: L - 2 for each maximal run of length L >= 5 and 40 for each finder-like pattern in the bordered line |
| Penalty.BalanceMeaning | qrcodegen/qrcodegen.c:870-874 | the balance term is the least k >= 0 with (45-5k)% <= dark/total <= (55+5k)%, for every odd total, and is at most 9 |
| Penalty.GridBalance | qrcodegen/qrcodegen.c:860-874 | this holds of the dark modules of every symbol |
| Penalty.GetPenaltyScore | qrcodegen/qrcodegen.c:787-878 | the score is the sum of the row and column scores, 3 for each block of one colour and 10 for each balance step |
| Penalty.PenaltyTransposed | qrcodegen/qrcodegen.c:787-878 | a grid and its transpose have the same score: rows and columns count alike |
| Penalty.PenaltyOfStripes | qrcodegen/qrcodegen.c:787-878 | stripes at every size n, vertical or horizontal, score n (n - 2): each line of one colour its run, and nothing else |
| Penalty.PenaltyIsLong | qrcodegen/qrcodegen.c:337-350 | every score of a symbol that the code can make is below the initial minimum LONG_MAX and fits its type, so the first trial is always accepted |
| Encoder.AppendSegments | qrcodegen/qrcodegen.c:298-313 | the buffer holds the bit stream of all segments and their payloads are unchanged |
| Encoder.AppendPadding | qrcodegen/qrcodegen.c:315-327 | terminator, zero bits and alternating padding bytes end at exactly the data capacity |
| Encoder.ChooseVersion | qrcodegen/qrcodegen.c:274-289 | the version found is the least of the range in which the segments fit at the requested level; none is found only if none fits |
| Encoder.ChooseLevel | qrcodegen/qrcodegen.c:291-296 | the boosted level is the highest that still fits and never below the requested one |
| Encoder.RankMeans | qrcodegen/qrcodegen.c:291-296 | the levels are tried in the order in which they leave less room for data, in every version |
| Encoder.WriteData | qrcodegen/qrcodegen.c:298-327 | the data codewords of the segments are in the buffer |
| Encoder.DrawUnmasked | qrcodegen/qrcodegen.c:330-333 | the symbol without mask and format bits: codewords placed, all function patterns coloured |
| Encoder.FormatMaskCommute | qrcodegen/qrcodegen.c:340-356 | masks and format bits do not interfere |
| Encoder.Trial | qrcodegen/qrcodegen.c:340-352 | each trial yields the symbol with its mask, and masking again starts the next trial from the unmasked symbol |
| Encoder.ChooseMask | qrcodegen/qrcodegen.c:336-353 | the mask is the first of those whose finished symbols have the least penalty of the eight |
| Encoder.EncodeAt | qrcodegen/qrcodegen.c:298-357 | the finished grid is the symbol of the segments with the requested or the best mask, also when the payloads lie in the work buffer |
| Encoder.EncodeSegmentsAdvanced | qrcodegen/qrcodegen.c:259-358 | success gives the symbol at the least version, chosen level and best mask; failure writes size 0 and happens exactly if no version of the range fits |
| Symbols.ReadCodewordsOfSymbol | qrcodegen/qrcodegen.c:698-780 | unmasking by the format bits and walking the zigzag gives back the codewords |
| Symbols.ReadDataOfSymbol | qrcodegen/qrcodegen.c:298-357 | de-interleaving them gives back the data codewords |
| Symbols.ParseData | qrcodegen/qrcodegen.c:298-327 | the data codewords parse as the segments |
| Symbols.DataBitsTerminated | qrcodegen/qrcodegen.c:315-327 | the padding always ends the stream for a reader |
| Symbols.DataBitsPadded | qrcodegen/qrcodegen.c:315-327 | after the stream come only zero bits up to the next whole byte after the terminator, and then 0xEC and 0x11 in turn |
| Symbols.PaddingOfSymbol | qrcodegen/qrcodegen.c:315-327 | these are the bytes among the data codewords |
| Symbols.RoundTrip | qrcodegen/qrcodegen.c:259-358 | end to end: for every list of numeric, alphanumeric, byte and Kanji segments that fits, at every version, level and mask, reading the finished symbol yields exactly the segments |
| Damage.InterleavedCorrects | qrcodegen/qrcodegen.c:368-400 | what is received with at most half as many wrong bytes in each block as it has error correction bytes comes from only one data sequence |
| Damage.SymbolComesFromItself | qrcodegen/qrcodegen.c:259-358 | an undamaged symbol meets the condition of the next row |
| Damage.DamagedSymbol | qrcodegen/qrcodegen.c:259-358 | a symbol with up to three wrong format bits and no block damaged beyond half its error correction determines level, mask and segments |
| TextEncoder.EncodeText | qrcodegen/qrcodegen.c:148-195 | the buffer reads back as the segments of the text, and these as the text itself; on failure no segment that stands for the text fits a version of the range, and on success none fits a smaller one |
| TextEncoder.MakeTextSegment | qrcodegen/qrcodegen.c:157-188 | the segment of the tightest mode, or a refusal exactly for texts too long for the buffers |
| TextEncoder.TightestMode | qrcodegen/qrcodegen.c:160-188 | in every version no segment of any mode but Kanji that stands for the text has fewer bits |
| TextEncoder.FitsToo | qrcodegen/qrcodegen.c:160-188 | if one of them fits a version, so does the one that is made |
| TextEncoder.TextContentReads | qrcodegen/qrcodegen.c:160-188 | numeric, alphanumeric or byte content reads back as the text |
| TextEncoder.EncodingReads | qrcodegen/qrcodegen.c:259-358 | whatever version, level and mask were chosen, the buffer itself says how to read it back |
| TextEncoder.RejectedText | qrcodegen/qrcodegen.c:160-194 | what the size checks refuse could not have been encoded in any version of the range |
| Framing.FirstEventStable | manage.c:292-320 | a finished line or prompt stays the same however the stream goes on |
| Framing.ReadInTwoParts | manage.c:280-320 | reading a and then b dispatches the same as reading a + b |
| Framing.ChunkIndependence | manage.c:260-345 | any two ways of cutting the same bytes into reads dispatch the same lines and prompts and save the same rest |
| Framing.ReturnsMakeTidy | manage.c:344-345 | if every newline follows a carriage return, the byte that is overwritten by NUL is always inside the line |
| Framing.FramingUndoesWriting | manage.c:289-345 | framing what a daemon writes yields its lines and prompts |
| Framing.PartialArrival | manage.c:280-345 | whatever part has arrived, the events so far and the saved and missing bytes make up what was written |
| Management.LinkLast | manage.c:144-154 | the new node is linked in before the head, and the ring stays doubly linked |
| Management.UnlinkHead | manage.c:190-196 | the ring without its head is doubly linked |
| Management.Connection.SendCommand | manage.c:95-116 | a partial send moves exactly the bytes taken from the head to the wire |
| Management.Connection.ManagementCommand | manage.c:123-162 | the command is the last of the queue, with a newline; it is sent at once exactly if the queue was empty |
| Management.Connection.UnqueueCommand | manage.c:169-202 | a combined head becomes a regular one, a regular head leaves the queue and the next is sent |
| Management.Connection.CloseManagement | manage.c:501-519 | the drain loop ends, after two rounds for each combined command and one for each regular one, with an empty queue |
| Management.Connection.OnNotification | manage.c:344-444 | each notification goes to its handler, an answer about keys to the handler of the head |
| Management.Connection.OnReply | manage.c:445-481 | success, error, end and other lines are handled as answers to the head |
| Management.Connection.OnPrompt | manage.c:322-342 | the password is sent once; without one the connection is closed and stopped |
| Management.Connection.OnRead | manage.c:260-484 | one read event, for any handlers and any results of send: the state after it is that of handling the events of saved and new bytes one by one, and the unfinished rest is saved |
| Management.NextEvent | manage.c:289-345 | the in-place search finds the next event and leaves the bytes behind it alone |
| ManagementClient.TagRoutes | manage.c:350-431 | the eleven topics, by the names the daemon gives them, are routed to their handlers with their texts |
| ManagementClient.NotificationHandled | manage.c:346-431 | handling a notification calls the handler of its topic with its text; the banner makes the client ready |
| ManagementClient.AnswersHandled | manage.c:445-481 | what a success with its text, an error and an end lead to |
| ReplyMatching.ReadIsArrivalAndHandling | manage.c:260-484 | a read event is an arrival followed by handling steps of the protocol below |
| ReplyMatching.WireLines | manage.c:95-162 | a daemon that splits the wire at newlines finds exactly the completely sent commands, in order |
| ReplyMatching.HandleAnswer | manage.c:344-481 | an answer to the command at the head goes to its handler, and the head leaves the queue exactly with the last part of its answer |
| ReplyMatching.StepMatched | manage.c:95-484 | every step of client, daemon and channels keeps the invariant that ties queue, wire, answers and calls together |
| ReplyMatching.RepliesReachTheirHandlers | manage.c:95-484 | for every interleaving of commands, partial sends, reads, replies and notifications: the wire holds the commands in order, unmixed; the calls made are exactly those the handled output asks for, each notification going to the handler of its topic and each answer to that of its own command |
| ReplyMatching.ErrorKeepsStep | manage.c:180-184 | client and daemon agree on an ERROR if and only if the head is waiting for no second part |
| ReplyMatching.CombinedErrorStays | manage.c:180-184 | a combined command answered by one ERROR stays at the head of the queue |
| ConfigTokens.EscapeString | misc.c:187-220 | the growing and shifting buffer ends up as the input with a backslash before every quote, backslash and space |
| ConfigTokens.CopyUndoesEscape | config_parser.c:46-73 | reading a quoted string undoes its escaping, whatever follows |
| ConfigTokens.TokensOfLine | config_parser.c:76-134 | any strings, escaped, quoted and joined by blanks, come back if they are at most 16, and are refused otherwise |
| ConfigTokens.TokensOfForms | config_parser.c:76-134 | the same for strings written without quotes, in single or in double quotes, in any mixture |
| ConfigTokens.TokensOfCommentedLine | config_parser.c:76-134 | a comment after the strings is found, but after sixteen of them it makes the line a parse error |
| ConfigTokens.ReadsOnIfDangling | config_parser.c:32-73 | a line is read beyond its end if and only if the one-pass scanner ends it with a pending backslash |
| ConfigTokens.BackslashReadsOn | config_parser.c:32-62 | a lone backslash is such a line, two are not |
| ConfigParser.CopyToken | config_parser.c:46-73 | the copy is what stands before the delimiter without its backslashes, or the line is refused; earlier output is unchanged and the write cursor stays behind the read cursor |
| ConfigParser.ReadToken | config_parser.c:97-125 | the three kinds of token, each leaving NULs behind the write cursor; a token with a dangling backslash is the last one and loses it |
| ConfigParser.ConfigEntry.Tokenize | config_parser.c:76-134 | the status tells whether the line has tokens; every token and the comment can be read as C strings in sline after all later writes |
| ConfigParser.TokenizeUndoesEscape | config_parser.c:76-134 | on buffers: a line put together from up to 16 results of EscapeString is tokenized into buffers from which exactly the strings escaped can be read |
| EnvNames.CompareAntisymmetric | env_set.c:67-80 | the comparison is antisymmetric and 0 only for names that are equal but for case |
| EnvNames.LessTransitive | env_set.c:67-80 | the comparison is transitive |
| EnvNames.LessMeans | env_set.c:67-80 | the order is that of a dictionary by character codes, ascending |
| EnvSet.ItemInsert | env_set.c:132-168 | the relinked list holds the old entries with the new one in the place of one of its name or at its sorted position |
| EnvSet.ItemDelete | env_set.c:94-124 | the relinked list holds the old entries without the first of that name |
| EnvSet.InsertedUpdates | env_set.c:126-168 | inserting keeps the list strictly sorted and updates it as a map |
| EnvSet.DeletedUpdates | env_set.c:82-124 | deleting keeps the list strictly sorted and removes the name from the map |
| EnvSet.ListRefinesMap | env_set.c:337-386 | after any sequence of messages the list is strictly sorted and equals the map the same messages build |
| EnvSet.SetMeaning | env_set.c:337-386 | a valid name with any value is set under the prefixed name |
| EnvSet.UnsetMeaning | env_set.c:337-386 | a valid name alone is unset |
| EnvSet.Environment.ProcessSetenv | env_set.c:337-386 | the list in memory stays linked and strictly sorted, and changes as a map as the message says |
| EnvBlock.MergedSorted | env_set.c:285-315 | the merged block is sorted by name |
| EnvBlock.MergedNames | env_set.c:285-325 | under every name the merge has the entries of both sides, but for the first process entry where the set has one: nothing else is lost or added |
| EnvBlock.ReplacesExactly | env_set.c:285-325 | an entry of the set is the only one of its name if and only if the process has at most one |
| EnvBlock.MergeOverrides | env_set.c:285-325 | if no name occurs twice on either side, the merge is strictly sorted and, as a map, the process environment overridden by the set |
| EnvBlock.MergeEnvBlock | env_set.c:247-330 | the two cursors write exactly the block of the merge, within the length that was computed; it ends in two NULs if and only if there is an entry |
| EnvBlock.UnblockBlock | env_set.c:247-330 | a reader of the block finds the entries |
| EnvBlock.DoublyTerminated | env_set.c:316-326 | the block ends in two NULs if and only if it has an entry |
| ConfigGroups.Options.NewConfigGroup | openvpn_config.c:183-211 | a new group has a greater id than its parent, and growing the array keeps the others |
| ConfigGroups.Options.CountChildren | openvpn_config.c:226-251 | the counters are the numbers of configurations and groups directly in each group |
| ConfigGroups.Options.SquashConfigs | openvpn_config.c:261-271 | exactly the configurations that are alone in a group of their name move to its parent, although the counters change on the way |
| ConfigGroups.Options.ActivateAbove | openvpn_config.c:273-282 | the upward walks end, and leave active exactly the groups between the root and a configuration |
| ConfigGroups.Options.ActivateConfigGroups | openvpn_config.c:221-293 | a group is active if and only if it is the root or an ancestor-or-self of the group of some configuration |
| ConfigGroups.MovedStays | openvpn_config.c:261-271 | a configuration that has moved up is never squashed again |
| ConfigGroups.MovesUpOnce | openvpn_config.c:221-293 | over any number of scans, with configurations added between them, each moves up at most one level in total |
| Lifecycle.StepSafe | openvpn.c:2399-2655 | every handler, message, timer and report keeps the invariant of states, window, timer, handles and attaches |
| Transitions.StepOutcome | openvpn.c:2399-2655 | every event leaves every field as the tables say that list, for each field, the events that change it |
| Transitions.ForceExactly | openvpn.c:2277-2298 | a daemon is told to exit if and only if it is not persistent, has an exit event, and a stop is accepted or its window fails to open; it is terminated if and only if it still runs when the time limit expires |
| Transitions.CommandsExactly | openvpn.c:158-175 | exactly when the hold is released, the daemon restarted or told to hold |
| Transitions.StatesExactly | openvpn.c:320-478 | exactly when a connection becomes connected, is on hold or is disconnecting |
| Lifecycle.RunsAreLawful | openvpn.c:137-175 | over all runs: onhold, detached and resuming occur, and detaching is entered, only on persistent connections; a persistent daemon is never signalled to exit or terminated; two automatic attaches have a banner or the end of a session lock between them |
| Lifecycle.SeparatedMeans | main.c:547-602 | what the recursive record of attaches says of any two of them |
| Lifecycle.OnStopSafe | openvpn.c:1623-1715 | every end of the daemon or its connection leaves an idle connection whose window is closing |
| Lifecycle.StartsFromIdle | openvpn.c:2882-2965 | a connection without a window is idle, and starting it fails only if the launch does |
| Lifecycle.AttachStarts | main.c:547-569 | an automatic attach starts a thread if and only if the last one has gone; otherwise it is used up without effect |
| Lifecycle.AttachIsLost | main.c:547-569 | a run from a new connection to a state in which the attach that is due will be lost |
| Lifecycle.LockDetaches | main.c:576-587 | a session lock gets a live persistent connection detached if and only if its window is open already |
| Lifecycle.LockComesEarly | main.c:576-587 | a run from a new connection to a state in which a lock detaches nothing |
| Lifecycle.DetachCloses | openvpn.c:2602-2609 | detaching closes the window and sends the daemon nothing |
| Lifecycle.DisconnectKeepsHold | openvpn.c:158-175 | a persistent daemon is told to hold before it restarts, and its hold is then kept |
| Lifecycle.AttachKeepsHold | openvpn.c:158-175 | the hold of a daemon that was attached automatically is kept |
| Lifecycle.StartKeepsHold | openvpn.c:2882-2965 | after a start by the user it is kept if and only if an automatic attach was lost before |
| Connections.Connection.Handle | openvpn.c:2399-2655 | the handler of every event, on the object: it takes the machine's step, with the outcome of the tables, and keeps the connection safe |
| Connections.Connection.HandleAll | openvpn.c:2723-2765 | after any sequence of events the object is where the machine is, and lawful |
| Connections.Connection.Stopped | openvpn.c:1623-1715 | the switch over the states ends the connection as the machine does, safely and with its window closing whenever it was alive |
| Connections.Connection.Disconnect | openvpn.c:2278-2298 | exit event and timer for a daemon of ours, hold and restart for a persistent one |
| Connections.Connection.HoldReported | openvpn.c:158-175 | hold kept or released |
| Connections.Connection.BannerReceived | openvpn.c:137-151 | the five commands, and the attach re-armed |
| Connections.Connection.StateReported | openvpn.c:320-478 | the two reports that change the state |
| Connections.Connection.ConnectFailed | manage.c:223-249 | retries for ever on persistent daemons, closes and starts over otherwise |
| Connections.Connection.ConnectedTo | openvpn.c:1606-1616 | a daemon that does not validate is closed and stopped |
| Connections.Connection.DispatchMessage | openvpn.c:2572-2652 | the posted messages with their checks of the buttons |
| Connections.Connection.TimerExpired | openvpn.c:2623-2633 | termination of what still runs |
| Connections.Connection.Start | openvpn.c:2882-2965 | release, refusal, failure or a new thread |
| Connections.Connection.ThreadBegins | openvpn.c:2661-2699 | window and management interface, or cleaning up |
| Connections.Connection.CleanUp | openvpn.c:2304-2331 | all handles are gone |
| Connections.Connection.DetachFrom | openvpn.c:3224-3232 | only for persistent connections |
| Connections.Connection.RestartIt | openvpn.c:3278-3292 | release, restart or start |
| Connections.ManageAll | main.c:547-569 | while the service is connected each connection of the list takes its own step of the machine; all stay safe |
| Connections.LockAll | main.c:576-587 | the same for the session lock |
| Connections.UnlockAll | main.c:592-602 | the same for its end |
| Connections.StopAllConnections | main.c:394-407 | the same for stopping all |

## Left out

- QR Code: making and reading ECI segments and packing Kanji text. Kanji segments take part in the round trip as bits, ECI
  segments only in the counting of bits.
- QR Code: `qrcodegen_encodeBinary`, `qrcodegen_encodeSegments` and the accessors, which only wrap modelled functions.
- QR Code: the bound 2568888 on the penalty, which its own comment calls non-tight.
- QR Code: C integer types, except where the code checks for their overflow.
- Penalty.FinderPenaltyCountPatterns: the assertion about the second slot of the history is a precondition, proved at both call sites.
- Management.Connection.OnRead: handlers are functions of the calls made so far, and a read that fails or is short changes nothing and is not modelled.
- Management.Connection.OnReply: the text of the log line about a failed command, with its time and truncation, is left out; the line itself is passed.
- ReplyMatching.RepliesReachTheirHandlers: runs end where the connection is closed; what closing does is `Management.Connection.CloseManagement`.
- ConfigParser.ConfigEntry.Tokenize: what is read behind a dangling backslash where text follows the NUL, reading lines from a
  file, and dropping dashes from the first token, are left out.
- EnvSet.Environment.ProcessSetenv: conversion from UTF-8 and messages to the status window are left out.
- EnvBlock.MergeEnvBlock: the block of the process is a parameter.
- ConfigGroups.Options.ActivateConfigGroups: the check for read access, which sets a flag, is left out, as is the scan of directories.
- Lifecycle.RunsAreLawful: the variant of the handlers in the logon provider (`plap/`) is left out, and so is what is only shown: menus, icons, texts and popups.
- Connections.Connection.CleanUp: the environment set, the history of messages and the list of keys of a connection are not
  fields of the model.
- Connections.StopAllConnections: the wait of up to five seconds for the connections to end is left out.
- Connections.Connection.Start: finding the management address and launching openvpn are one parameter, the outcome.
- Windows dialogs, tray, localization, log viewer, registry, services, named pipes, sockets, encryption and conversion of text.
- `as.c`, `proxy.c`, `options.c`, `access.c`, `scripts.c`, `echo.c` and the rest of `plap/`, which are glue around such calls.
