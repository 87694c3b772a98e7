# Picture coder, serial link and memory transfer: a model with proofs

The system is an embedded picture codec. A network accelerator delivers wavelet coefficients
and Gaussian-mixture parameters, an arithmetic coder packs them, a serial protocol carries
pictures in and bit streams out, and a DMA driver moves data between two memories. The model
covers five parts.

- **Arithmetic coding.** `RangeCoder` is the coder as a function on values, with the rational
  interval a state stands for. `RangeDecoder` is a reference decoder; the repository has none,
  so it mirrors `update`. `BitStream`, `ArithmeticEncoder` and `EncTable.dfy` (module
  `EncodingTable`) hold the mutable objects in machine arithmetic, each method tied to the
  functions. `FrequencyTable` is the table built from the mixture, `Coding` says what the code
  of a picture is and proves it lossless, `Codings` is the loop that produces it.
- **UART.** `Uart` has the transmitter and receiver as one synchronous step, `UartLoopback`
  the cycle-exact delivery theorem, `UartTiming` what client and line see, `UartLimits` the exact range.
- **CRC-16.** `CrcTable` and `Crc`: table, loop, polynomial division, burst detection.
- **Transfer protocol.** `Frames` and `DataFrames` (wire format), `Framing` (cutting and
  joining), `Slave` (slots and requests), `Transfer` (whole runs), `Master` (send loop).
- **DMA.** `Dma`: the burst splitter of the driver.

`Arithmetic`, `BitOps`, `Words` and `Memory` hold division, powers of two, bitwise operators,
fixed-width words and their bytes in memory. C division is modelled as truncation, unsigned
words wrap explicitly, and signed expressions must be shown to fit.

## Main results

- A coded picture decodes to itself: `Codings.CodePicture`, `Coding.CodeDeterminesPicture`, over
  `RangeDecoder.RoundTrip`, `RangeCoder.RunNests` and `FrequencyTable.TableDischargesChecks`, with the
  tables of the mixture (`FrequencyTable.NumbersOfTable`) and no code wasted
  (`RangeDecoder.CellsUseUpRange`).
- The serial loopback delivers every byte on time, for exactly which bit periods:
  `UartLoopback.LoopbackDelivers`, `UartLimits.ExactRange`, and what it takes and puts on the line in
  every cycle: `UartTiming.AcceptedExactly`, `UartTiming.LineExactly`.
- The checksum is a polynomial remainder and detects bursts and odd damage, and what escapes it:
  `Crc.ChecksumIsRemainder`, `Crc.BurstDetected`, `Crc.OddDetected`, `Crc.GeneratorEscapes`.
- A picture is reported as processed exactly when it is complete, and stays so; the send loop ends
  exactly when it can: `Transfer.ProcessedExactly`, `Transfer.ProcessedStays`,
  `Master.SendPicture`, `Master.SendingEndsExactly`.
- Frames survive wire and framing, file frames under an exact condition:
  `DataFrames.DataFrameOnWire`, `DataFrames.DataFrameRoundTrip`, `DataFrames.IntactWasSent`,
  `Framing.FramingRoundTrip`, `Transfer.FileTransferFaithful`.
- The bursts of a copy tile its range: `Dma.BurstsTile`, `Dma.PlWrite`, `Dma.PlRead`.

## Where the code differs from what it promises

- The receiver asks for an even number of clock cycles per bit
  (hw/project.srcs/sources_1/imports/new/uart_rx.v:18). Any number from 3 to 65536 works, odd
  or even, and no other does: `UartLimits.ExactRange`.
- `fd_to_data_frames` pads frame 0 instead of the last one. `Framing.FileFramingFaithful` and
  `Transfer.FileTransferFaithful` say exactly for which files this is harmless.
- The softmax takes the scale as 16 bits wide, but at 65535 the `int` arithmetic of the table
  edges can overflow: `EncodingTable.ScalesWithoutOverflow`, and `Codings.SubbandFitsExactly` for
  the condition on a subband.
- The slave's PROCESSING status does not mean that a picture is being processed, which happens
  inside the send request. It is reported exactly when all frames have come and none carries
  data (`Slave.ProcessingExactly`, with the input in `Slave.EmptyFrameShowsProcessing`), and such
  frames also take back a processed picture (`Slave.ProcessedLeftExactly`). With frames that carry
  data it is never seen and PROCESSED is never left: `Transfer.ProcessedExactly`,
  `Transfer.ProcessedStays`.
- A copy of zero bytes makes no burst but announces 4096: `Dma.AnnouncedCount`.
- A comment in `codings` puts the stream at byte 52; with 39 subbands it starts at byte 156, and
  the model follows the code.

## Premises

- The exponential table has more than 12000 entries of 16 bits with a positive one at 12000;
  the cdf table has more than 100000 entries of 32 bits that never decrease. Deviations are
  positive. All mixture parameters are 16 bits wide.
- Every subband has at least one coefficient and all together fewer than 2^31.
- The host is little-endian and structures are packed.
- The serial channel damages bytes in place, and damaged frames fail the header or checksum
  check. For damage within 16 consecutive bits, or to an odd number of bits, the second half is
  proved (`Transfer.DetectableIsDelivered`). It is an assumption for all other damage, some of which
  escapes the checksum, a 17-bit pattern to begin with (`Crc.GeneratorEscapes`). Each request
  with its answer is one step, and the master always sends the same frames for the same picture.
- The master's frames carry between 1 and 512 bytes each, as cutting a non-empty string makes them.
- DMA addresses stay below 2^32 and every burst completes.

## Model

| member | source | states |
|---|---|---|
| `Coding.CodeDeterminesPicture` | project-spec/meta-user/recipes-apps/autostart/src/coding.cpp:16-56 | losslessness: bytes that are the code of a picture decode, with the same mixture parameters and tables and any positive scale (odd ones too), to every coefficient of all 39 subbands, constant subbands coming from the header alone |
| `Codings.CodePicture` | project-spec/meta-user/recipes-apps/autostart/src/coding.cpp:16-56 | the whole coding loop returns bytes that the reference decoder turns back into the picture, laid out as `Layout` says, at most 156 + 4k + 1 of them for k coded symbols, inside the buffer of eight bytes per coefficient |
| `RangeDecoder.RoundTrip` | project-spec/meta-user/recipes-apps/autostart/src/arithmetic_coding.cpp:165-204 | for every state size and every symbol sequence over ordered, disjoint cells with admissible totals, the decoder that mirrors `update` and reads zeros past the end recovers the sequence from the finished stream |
| `RangeDecoder.EveryRunDecodes` | project-spec/meta-user/recipes-apps/autostart/src/arithmetic_coding.cpp:165-204 | the bits of every run followed by a single one decode to its symbols |
| `RangeDecoder.DecoderFollows` | project-spec/meta-user/recipes-apps/autostart/src/arithmetic_coding.cpp:165-184 | from any state in which it follows the encoder, and for any run whose final interval holds the stream, the decoder finds each symbol in turn |
| `RangeDecoder.SymbolIsFound` | project-spec/meta-user/recipes-apps/autostart/src/arithmetic_coding.cpp:167-171 | a code value inside the narrowed interval selects exactly the coded cell, rounding of both divisions included |
| `RangeDecoder.FollowsStep` | project-spec/meta-user/recipes-apps/autostart/src/arithmetic_coding.cpp:165-184 | after one symbol the decoder holds the same registers as the encoder and the right window of the stream |
| `RangeDecoder.TargetHitsCell` | project-spec/meta-user/recipes-apps/autostart/src/arithmetic_coding.cpp:168-169 | the truncated division of the decoder undoes the two truncated divisions of the encoder |
| `RangeCoder.RunNests` | project-spec/meta-user/recipes-apps/autostart/src/arithmetic_coding.cpp:165-204 | over every run the intervals nest, and k symbols add at most k times numStateBits bits, written and pending together |
| `RangeCoder.EncodeNests` | project-spec/meta-user/recipes-apps/autostart/src/arithmetic_coding.cpp:165-184 | one symbol only shrinks the interval |
| `RangeCoder.RenormalisingKeepsInterval` | project-spec/meta-user/recipes-apps/autostart/src/arithmetic_coding.cpp:173-183 | both loops together rewrite the narrowed interval exactly, in at most numStateBits doublings |
| `RangeCoder.ShiftKeepsInterval` | project-spec/meta-user/recipes-apps/autostart/src/arithmetic_coding.cpp:173-177 | a shift with any number of pending bits leaves the rational interval unchanged |
| `RangeCoder.UnderflowKeepsInterval` | project-spec/meta-user/recipes-apps/autostart/src/arithmetic_coding.cpp:179-183 | an underflow step leaves the rational interval unchanged |
| `RangeCoder.NarrowingFits` | project-spec/meta-user/recipes-apps/autostart/src/arithmetic_coding.cpp:167-171 | settled registers and an admissible symbol give newLow <= newHigh inside the old range |
| `RangeCoder.NarrowingIsProportional` | project-spec/meta-user/recipes-apps/autostart/src/arithmetic_coding.cpp:167-171 | both new ends, by multiplication: the products with the range over the total, rounded down |
| `RangeDecoder.CellsUseUpRange` | project-spec/meta-user/recipes-apps/autostart/src/arithmetic_coding.cpp:167-171 | over a tiling table every code of the range lies in the narrowed registers of some symbol, so none is wasted |
| `RangeCoder.Underflows` | project-spec/meta-user/recipes-apps/autostart/src/arithmetic_coding.cpp:179-183 | the loop ends with low < half <= high and a range of at least quarterRange + 2 |
| `RangeCoder.FinishLandsInside` | project-spec/meta-user/recipes-apps/autostart/src/arithmetic_coding.cpp:194-204 | a single one and zeros name a point of the final interval whatever is pending |
| `ArithmeticEncoder.NarrowingDoesNotWrap` | project-spec/meta-user/recipes-apps/autostart/src/arithmetic_coding.cpp:165-171 | for 1..63 state bits and total <= maximumTotal no 64-bit product or sum of the narrowing wraps |
| `ArithmeticEncoder.MaximumTotalIsGreatest` | project-spec/meta-user/recipes-apps/autostart/src/arithmetic_coding.cpp:155-157 | maximumTotal admits exactly the totals within the narrowest range whose products fit 64 bits |
| `ArithmeticEncoder.MaximumTotalSuffices` | project-spec/meta-user/recipes-apps/autostart/src/arithmetic_coding.cpp:155-157 | maximumTotal bounds both the products and the total against the narrowest range |
| `ArithmeticEncoder.TopBitsAgree` | project-spec/meta-user/recipes-apps/autostart/src/arithmetic_coding.cpp:173-173 | the xor-and-mask test is the comparison of both registers with half |
| `ArithmeticEncoder.SecondBitsCross` | project-spec/meta-user/recipes-apps/autostart/src/arithmetic_coding.cpp:179-179 | the and-not-mask test is the straddling condition, one-bit states included |
| `ArithmeticEncoder.DoubledAndMasked` | project-spec/meta-user/recipes-apps/autostart/src/arithmetic_coding.cpp:175-176 | doubling and masking drops the top bit |
| `ArithmeticEncoder.UnderflowedLow` | project-spec/meta-user/recipes-apps/autostart/src/arithmetic_coding.cpp:181-181 | the xor form subtracts half from twice low |
| `ArithmeticEncoder.UnderflowedHigh` | project-spec/meta-user/recipes-apps/autostart/src/arithmetic_coding.cpp:182-182 | the xor-shift-or form is twice high less half plus one |
| `ArithmeticEncoder.NewEncoder` | project-spec/meta-user/recipes-apps/autostart/src/arithmetic_coding.cpp:148-161 | an encoder exists exactly for 1..63 state bits |
| `ArithmeticEncoder.Encoder.Update` | project-spec/meta-user/recipes-apps/autostart/src/arithmetic_coding.cpp:165-184 | the registers, the pending count and the written bits become those of the coder function; the settled invariant is kept |
| `ArithmeticEncoder.Encoder.NarrowRegisters` | project-spec/meta-user/recipes-apps/autostart/src/arithmetic_coding.cpp:167-171 | the machine arithmetic leaves both ends where the multiplications put them |
| `ArithmeticEncoder.Encoder.ShiftLoop` | project-spec/meta-user/recipes-apps/autostart/src/arithmetic_coding.cpp:173-177 | the first loop computes the function `Shifts` and never outgrows the stream |
| `ArithmeticEncoder.Encoder.UnderflowLoop` | project-spec/meta-user/recipes-apps/autostart/src/arithmetic_coding.cpp:179-183 | the second loop computes the function `Underflows` |
| `ArithmeticEncoder.Encoder.Shift` | project-spec/meta-user/recipes-apps/autostart/src/arithmetic_coding.cpp:196-202 | writes the top bit and then every pending bit complemented |
| `BitStream.BitOutputStream.Write` | project-spec/meta-user/recipes-apps/autostart/src/arithmetic_coding.cpp:7-19 | appends a bit to all bits written, rejects anything else, never touches what precedes the stream |
| `BitStream.BitOutputStream.StoreByte` | project-spec/meta-user/recipes-apps/autostart/src/arithmetic_coding.cpp:12-18 | a full byte moves to the buffer, signed or unsigned plain char alike, and the bits are unchanged |
| `BitStream.BitsOfAt` | project-spec/meta-user/recipes-apps/autostart/src/arithmetic_coding.cpp:10-18 | bit j of byte k is bit 8k + j of the stream, the bit worth 128 first |
| `BitStream.BitOutputStream.Finish` | project-spec/meta-user/recipes-apps/autostart/src/arithmetic_coding.cpp:21-24 | only zeros are appended, up to the byte boundary |
| `FrequencyTable.TableDischargesChecks` | project-spec/meta-user/recipes-apps/autostart/src/arithmetic_coding.cpp:84-140 | cells are non-empty, ordered, disjoint and within a total the coder admits: the checks that `update` omits |
| `FrequencyTable.CellsTile` | project-spec/meta-user/recipes-apps/autostart/src/arithmetic_coding.cpp:84-140 | for an even scale the cells tile [0, total) without a gap |
| `FrequencyTable.TableTiles` | project-spec/meta-user/recipes-apps/autostart/src/arithmetic_coding.cpp:84-140 | for an even scale every frequency below the total has a cell |
| `FrequencyTable.NumbersOfTable` | project-spec/meta-user/recipes-apps/autostart/src/arithmetic_coding.cpp:84-140 | symbol bounds and total are those of the masses at the edges of table and symbol, and no other numbers |
| `FrequencyTable.CumIsMass` | project-spec/meta-user/recipes-apps/autostart/src/arithmetic_coding.cpp:89-108 | a cumulative frequency is, by multiplication, the floor of the weighted floors of the three cdf entries, and no other number |
| `FrequencyTable.CumIsAccurate` | project-spec/meta-user/recipes-apps/autostart/src/arithmetic_coding.cpp:89-108 | it is the mixture's cdf times the resolution up to what two roundings lose |
| `FrequencyTable.CdfIndexIs` | project-spec/meta-user/recipes-apps/autostart/src/arithmetic_coding.cpp:44-51 | the index is the distance in 10000ths of a deviation, truncated toward the mean, cut off at five deviations, and no other |
| `FrequencyTable.CellsOrdered` | project-spec/meta-user/recipes-apps/autostart/src/arithmetic_coding.cpp:84-140 | for every scale the cells are non-empty, ordered and disjoint inside [0, total) |
| `FrequencyTable.TotalBounded` | project-spec/meta-user/recipes-apps/autostart/src/arithmetic_coding.cpp:107-139 | total_freqs is at most the resolution plus one per symbol |
| `FrequencyTable.SharesBounded` | project-spec/meta-user/recipes-apps/autostart/src/arithmetic_coding.cpp:102-105 | the rounded shares never sum to more than the resolution times the full scale |
| `FrequencyTable.SoftmaxSumIsPositive` | project-spec/meta-user/recipes-apps/autostart/src/arithmetic_coding.cpp:53-66 | the divisor prob_sum is positive and below 3 * 65536 |
| `FrequencyTable.ExpIndex` | project-spec/meta-user/recipes-apps/autostart/src/arithmetic_coding.cpp:60-61 | the index lies in 0..12000 and the greatest logit reaches the top |
| `FrequencyTable.ExpIndexIs` | project-spec/meta-user/recipes-apps/autostart/src/arithmetic_coding.cpp:59-62 | the index lies 1000 steps per unit below the top, truncated, cut off at zero, and nowhere else |
| `FrequencyTable.SoftmaxIs` | project-spec/meta-user/recipes-apps/autostart/src/arithmetic_coding.cpp:53-66 | each weight is the table's entry for the distance of its logit from the greatest |
| `FrequencyTable.SoftmaxInPlace` | project-spec/meta-user/recipes-apps/autostart/src/arithmetic_coding.cpp:53-66 | the three logits are replaced by their table weights and the sum of these is returned |
| `EncodingTable.ScalesWithoutOverflow` | project-spec/meta-user/recipes-apps/autostart/src/arithmetic_coding.cpp:90-92 | the int expressions of both edges fit for all 16-bit symbols and means if and only if the scale is at most 65534 |
| `EncodingTable.EdgeFitsExactly` | project-spec/meta-user/recipes-apps/autostart/src/arithmetic_coding.cpp:90-98 | an edge overflows if and only if the scale is 65535, the symbol -32768 and the mean above one |
| `Codings.SubbandFitsExactly` | project-spec/meta-user/recipes-apps/autostart/src/coding.cpp:36-44 | the condition under which no edge of a coded subband overflows, in terms of scale, least value and means |
| `EncodingTable.LowerIndex` | project-spec/meta-user/recipes-apps/autostart/src/arithmetic_coding.cpp:90-94 | the machine computation of the lower index is the exact one |
| `EncodingTable.UpperIndex` | project-spec/meta-user/recipes-apps/autostart/src/arithmetic_coding.cpp:96-100 | the machine computation of the upper index is the exact one |
| `EncodingTable.AccumulationDoesNotWrap` | project-spec/meta-user/recipes-apps/autostart/src/arithmetic_coding.cpp:102-105 | each 64-bit addend and partial sum is exact for every 32-bit resolution |
| `EncodingTable.BoundsDoNotWrap` | project-spec/meta-user/recipes-apps/autostart/src/arithmetic_coding.cpp:130-139 | the three unsigned results fit 32 bits and no difference is negative |
| `EncodingTable.EncTable.GetBound` | project-spec/meta-user/recipes-apps/autostart/src/arithmetic_coding.cpp:84-140 | sym_low, sym_high and total_freqs are those of the cell of x, and the numbers of the masses at its edges |
| `EncodingTable.EncTable.Update` | project-spec/meta-user/recipes-apps/autostart/src/arithmetic_coding.cpp:77-82 | the loaded mixture is the softmax of the given parameters with their means and deviations |
| `Codings.CoefficientNumbers` | project-spec/meta-user/recipes-apps/autostart/src/coding.cpp:36-47 | a coefficient is sent as the numbers of its table at a resolution of 1000000 |
| `Coding.CodeLayout` | project-spec/meta-user/recipes-apps/autostart/src/coding.cpp:18-32 | bytes 4i to 4i + 3 hold least and greatest value of subband i low byte first, for 39 subbands, and from byte 156 on the stream |
| `Coding.CoefficientTableOk` | project-spec/meta-user/recipes-apps/autostart/src/coding.cpp:36-47 | with resolution 1000000 and 16-bit bounds every table suits the 32-bit coder |
| `Coding.HeaderReadsBack` | project-spec/meta-user/recipes-apps/autostart/src/coding.cpp:29-32 | the header gives back least and greatest value of each subband |
| `Coding.SplitInverts` | project-spec/meta-user/recipes-apps/autostart/src/coding.cpp:25-49 | dealing the decoded symbols out to the subbands restores them |
| `Codings.BufferSuffices` | project-spec/meta-user/recipes-apps/autostart/src/coding.cpp:18-19 | 39 non-empty subbands: eight bytes per coefficient hold header and code |
| `Codings.EncodeSubbands` | project-spec/meta-user/recipes-apps/autostart/src/coding.cpp:25-49 | the run holds the symbols of all subbands and the header all bounds |
| `Codings.FinishStream` | project-spec/meta-user/recipes-apps/autostart/src/coding.cpp:51-52 | the stream is the run, a one and zeros; k symbols give at most 4k + 1 bytes |
| `UartLoopback.LoopbackDelivers` | hw/project.srcs/sources_1/imports/new/uart_rx.v:34-121 | for every bit period of 3 to 65536 cycles, odd ones too, and every input: each accepted byte is delivered exactly once, unaltered, in order, 9C + 4 + C/2 cycles later; nothing else is delivered |
| `UartLimits.ExactRange` | hw/project.srcs/sources_1/imports/new/uart_rx.v:17-19 | the loopback property holds for all inputs if and only if the bit period is between 3 and 65536 cycles |
| `UartLimits.TwoCyclesCorrupt` | hw/project.srcs/sources_1/imports/new/uart_rx.v:115-121 | two cycles per bit deliver one byte for a zero byte, and not a zero |
| `UartLimits.NothingArrives` | hw/project.srcs/sources_1/imports/new/uart_rx.v:72-105 | below two or above 65536 cycles no input whatever makes the receiver deliver a byte |
| `UartLoopback.TickKeepsInv` | hw/project.srcs/sources_1/imports/new/uart_tx.v:34-117 | every clock cycle keeps the joint invariant of both machines and of all bytes under way |
| `UartLoopback.StepWithin` | hw/project.srcs/sources_1/imports/new/uart_rx.v:72-121 | inside a frame the receiver stays a fixed number of cycles behind the transmitter, and leaves with the latched byte |
| `UartLoopback.StepBetween` | hw/project.srcs/sources_1/imports/new/uart_rx.v:34-52 | between frames the edge detector fires exactly on a start bit |
| `UartLoopback.SampleIsRight` | hw/project.srcs/sources_1/imports/new/uart_rx.v:115-121 | mid-bit the line carries the bit being received |
| `UartTiming.ReadyExactly` | hw/project.srcs/sources_1/imports/new/uart_tx.v:88-94 | after the first cycle ready is high if and only if no byte has been accepted in the last ten bit periods |
| `UartTiming.AcceptedExactly` | hw/project.srcs/sources_1/imports/new/uart_tx.v:60-102 | a byte is accepted if and only if it is offered and none has been accepted in the last ten bit periods |
| `UartTiming.LineExactly` | hw/project.srcs/sources_1/imports/new/uart_tx.v:104-117 | cycle by cycle the line carries a low start bit, the eight data bits least significant first and a high stop bit of the byte accepted last, and is high otherwise |
| `UartTiming.ByteIsHeld` | hw/project.srcs/sources_1/imports/new/uart_rx.v:97-113 | a complete byte stays offered, unchanged, until the client is ready |
| `UartLoopback.ReadyMeansAccepted` | hw/project.srcs/sources_1/imports/new/uart_tx.v:88-102 | a byte offered while ready is high is accepted in that cycle |
| `Crc.BurstDetected` | project-spec/meta-user/recipes-apps/autostart/src/crc.c:40-50 | two messages of one length that differ only within 16 consecutive bits have different checksums |
| `Crc.OddDetected` | project-spec/meta-user/recipes-apps/autostart/src/crc.c:40-50 | any odd number of flipped bits, anywhere, changes the checksum |
| `Crc.GeneratorEscapes` | project-spec/meta-user/recipes-apps/autostart/src/crc.c:40-50 | 16 is the limit for bursts: flipping the 17-bit pattern of the generator goes unnoticed wherever it falls |
| `Crc.ChecksumIsRemainder` | project-spec/meta-user/recipes-apps/autostart/src/crc.c:3-50 | the checksum is the remainder of polynomial division by x^16 + x^12 + x^5 + 1, initial ones added, bytes exchanged |
| `Crc.Crc16` | project-spec/meta-user/recipes-apps/autostart/src/crc.c:40-50 | the table-driven loop computes the bit-serial checksum |
| `Crc.SerialIsRemainder` | project-spec/meta-user/recipes-apps/autostart/src/crc.c:3-8 | the bit-serial register is the remainder of long division |
| `Crc.TableStepIsSerial` | project-spec/meta-user/recipes-apps/autostart/src/crc.c:43-43 | one turn of the loop is eight bit-serial steps |
| `Crc.TableIsRight` | project-spec/meta-user/recipes-apps/autostart/src/crc.c:10-39 | each of the 256 entries is what eight bit-serial steps produce |
| `Crc.SerialLinear` | project-spec/meta-user/recipes-apps/autostart/src/crc.c:43-43 | the register is linear in state and message |
| `Crc.SerialInjective` | project-spec/meta-user/recipes-apps/autostart/src/crc.c:42-46 | a common suffix never merges different registers |
| `Crc.ClearsOnlyItself` | project-spec/meta-user/recipes-apps/autostart/src/crc.c:42-46 | at most 16 bits clear the register exactly when they equal what it holds |
| `Crc.ZeroResidue` | project-spec/meta-user/recipes-apps/autostart/src/crc.c:40-50 | the register run over a message and its stored checksum is zero if and only if the stored number is the computed one |
| `Crc.ChecksumInMemory` | project-spec/meta-user/recipes-apps/autostart/src/crc.c:48-48 | on a little-endian host the stored checksum is the register, high byte first |
| `DataFrames.DataFrameRoundTrip` | project-spec/meta-user/recipes-apps/autostart/src/transmission_protocol.c:109-116 | a data frame with the fixed header passes the receiver's checks and decodes to the same fields |
| `DataFrames.DataFrameOnWire` | project-spec/meta-user/recipes-apps/autostart/src/transmission_protocol.c:109-116 | the bytes of a sent data frame by offset: every number high byte first, the checksum last |
| `DataFrames.IntactWasSent` | project-spec/meta-user/recipes-apps/autostart/src/transmission_protocol.c:222-236 | every frame that passes the checks is what sending its decoded fields gives |
| `DataFrames.IntactExactly` | project-spec/meta-user/recipes-apps/autostart/src/transmission_protocol.c:222-224 | the checks succeed if and only if the header is 3A 62 04 3F and the register over the frame is zero |
| `DataFrames.DamageIsNoticed` | project-spec/meta-user/recipes-apps/autostart/src/transmission_protocol.c:222-224 | a frame damaged within 16 consecutive bits or in an odd number of bits, header and checksum included, fails the checks |
| `DataFrames.IntactIsZeroResidue` | project-spec/meta-user/recipes-apps/autostart/src/transmission_protocol.c:222-224 | the checksum comparison succeeds if and only if the register over the whole frame is zero |
| `Frames.FrameRoundTrip` | project-spec/meta-user/recipes-apps/autostart/src/transmission_protocol.c:170-181 | a control frame passes the check and decodes to the same fields |
| `Frames.FrameOnWire` | project-spec/meta-user/recipes-apps/autostart/src/transmission_protocol.c:84-89 | the bytes of a sent control frame by offset: every number high byte first, the checksum last |
| `Frames.AcceptedWasSent` | project-spec/meta-user/recipes-apps/autostart/src/transmission_protocol.c:170-181 | every accepted control frame is what sending its fields gives |
| `Frames.AcceptedIsZeroResidue` | project-spec/meta-user/recipes-apps/autostart/src/transmission_protocol.c:163-177 | a control frame is accepted if and only if it is whole and the register over it is zero; a short one is reported as such |
| `Frames.FrameDamageIsNoticed` | project-spec/meta-user/recipes-apps/autostart/src/transmission_protocol.c:170-175 | a control frame damaged within 16 consecutive bits or in an odd number of bits is refused |
| `Frames.Swap24Twice` | project-spec/meta-user/recipes-apps/autostart/src/transmission_protocol.c:111-111 | the 32-bit swap shifted down by a byte is its own inverse on 24-bit counters |
| `Frames.SwapTwice` | project-spec/meta-user/recipes-apps/autostart/src/transmission_protocol.c:85-88 | byte swapping is its own inverse at every width |
| `Framing.FramingRoundTrip` | project-spec/meta-user/recipes-apps/autostart/src/transmission_protocol.c:242-271 | frames holding the chunks of a byte string give back the byte string; the first n give its first n chunks |
| `Framing.DataToFrames` | project-spec/meta-user/recipes-apps/autostart/src/transmission_protocol.c:258-271 | every frame holds its chunk: all but the last full, the last zero-padded, lengths summing to the whole, other fields untouched |
| `Framing.HoldsMeans` | project-spec/meta-user/recipes-apps/autostart/src/transmission_protocol.c:258-271 | a frame holds its chunk if and only if its bytes are those from 512 i on, then zeros |
| `Framing.FramesToData` | project-spec/meta-user/recipes-apps/autostart/src/transmission_protocol.c:249-256 | the payloads one after another, nothing behind them touched |
| `Framing.FileToFrames` | project-spec/meta-user/recipes-apps/autostart/src/transmission_protocol.c:273-283 | frames as the shadowed loop variable leaves them: the padding clears the tail of frame 0 |
| `Framing.FileFrameMeans` | project-spec/meta-user/recipes-apps/autostart/src/transmission_protocol.c:273-283 | every byte of such a frame: the chunk over what was there, and zeros from the last chunk's length on in frame 0 only |
| `Framing.FileFramingFaithful` | project-spec/meta-user/recipes-apps/autostart/src/transmission_protocol.c:273-283 | frames read from a file carry the file if and only if the clearing destroys nothing: one frame, a whole number of frames, or zeros in that place |
| `Framing.FileFramingFails` | project-spec/meta-user/recipes-apps/autostart/src/transmission_protocol.c:273-283 | 513 ones are a file whose frames do not carry it |
| `Slave.ReceiveDataFrames` | project-spec/meta-user/recipes-apps/autostart/src/transmission_protocol.c:218-239 | empty slots take the intact frames of the round, filled ones stay, and the failures are counted |
| `Slave.CountIsExact` | project-spec/meta-user/recipes-apps/autostart/src/transmission_protocol.c:218-239 | the count returned is what is missing afterwards if and only if no intact frame is empty |
| `Slave.RepairProgress` | project-spec/meta-user/recipes-apps/autostart/src/transmission_protocol.c:218-239 | a round never empties or changes a filled slot and never raises the missing count, and lowers it if and only if a missing frame arrives |
| `Slave.SlaveProcess.HandleSend` | project-spec/meta-user/recipes-apps/autostart/src/main.c:360-410 | the new state is that of the request: slots kept or started over, counts set, stream set when nothing is missing; other pictures stay |
| `Slave.ProcessingExactly` | project-spec/meta-user/recipes-apps/autostart/src/main.c:43-45 | a request leaves its picture in process if and only if it has frames, all are there and none carries data |
| `Slave.ProcessedLeftExactly` | project-spec/meta-user/recipes-apps/autostart/src/main.c:379-409 | a request takes back a processed picture if and only if all its frames are there and none carries data |
| `Slave.CarriesNothingMeans` | project-spec/meta-user/recipes-apps/autostart/src/transmission_protocol.c:218-239 | that condition slot by slot: nothing held before, every frame intact with data_len 0 |
| `Slave.EmptyFrameShowsProcessing` | project-spec/meta-user/recipes-apps/autostart/src/main.c:37-47 | one intact frame without data makes the slave report PROCESSING, on a processed picture too |
| `Transfer.ProcessedExactly` | project-spec/meta-user/recipes-apps/autostart/src/main.c:37-47 | over every run, PROCESSED is reported if and only if the picture has frames and each has come through intact in some round; the stream then equals the master's payloads, and PROCESSING is not seen, as the master's frames carry data |
| `Transfer.ProcessedStays` | project-spec/meta-user/recipes-apps/autostart/src/main.c:379-409 | with frames that carry data PROCESSED is never left and the stream never changes, even when a processed picture is sent again and starts over |
| `Transfer.TransferIsFaithful` | project-spec/meta-user/recipes-apps/autostart/src/main.c:404-409 | frames cut from a byte string: a processed picture is that byte string |
| `Transfer.FileTransferFaithful` | project-spec/meta-user/recipes-apps/autostart/src/transmission_protocol.c:273-283 | frames read from a file: a processed picture is that file if and only if the misplaced clearing does no harm |
| `Transfer.Run` | project-spec/meta-user/recipes-apps/autostart/src/main.c:360-410 | every reachable state keeps the invariant of all eight pictures |
| `Transfer.SendKeepsPicture` | project-spec/meta-user/recipes-apps/autostart/src/main.c:379-409 | a send request finds exactly as many slots as frames and keeps the picture's invariant |
| `Transfer.RoundKeepsCopies` | project-spec/meta-user/recipes-apps/autostart/src/transmission_protocol.c:218-239 | after a round each filled slot holds the master's frame of that position, and filled are exactly the positions that arrived |
| `Transfer.ReplyCounts` | project-spec/meta-user/recipes-apps/autostart/src/main.c:350-351 | while unreceived, the reply's n_frame is the number of distinct frames that have arrived |
| `Transfer.RepairCompletes` | project-spec/meta-user/recipes-apps/autostart/src/master.c:265-291 | rounds that each bring a missing frame, as many as were missing, end in PROCESSED |
| `Transfer.DetectableIsDelivered` | project-spec/meta-user/recipes-apps/autostart/src/transmission_protocol.c:222-224 | damage within 16 consecutive bits, or to an odd number of bits, satisfies the channel assumption of the runs; the frame counts as intact if and only if it is undamaged |
| `Master.SendPicture` | project-spec/meta-user/recipes-apps/autostart/src/master.c:258-291 | if every frame comes through in some round, fruitless rounds in between or not, the send loop ends at the first reply that is not UNRECEIVED, with PROCESSED and the full stream |
| `Master.SendingEndsExactly` | project-spec/meta-user/recipes-apps/autostart/src/master.c:265-291 | some reply ends the loop if and only if the picture has frames and each comes through in some round |
| `Master.RoundsBounded` | project-spec/meta-user/recipes-apps/autostart/src/master.c:265-291 | rounds that each bring a missing frame are no more than the first reply left missing |
| `Master.AllocDataFrames` | project-spec/meta-user/recipes-apps/autostart/src/transmission_protocol.c:322-334 | the frames are ready to send, numbered from 1 (a single one 0), and hold the bytes chunk by chunk |
| `Master.NotYet` | project-spec/meta-user/recipes-apps/autostart/src/master.c:288-291 | while the reply is UNRECEIVED, fewer rounds that each bring a missing frame have passed than frames were missing |
| `Master.RoundHasRoom` | project-spec/meta-user/recipes-apps/autostart/src/main.c:385-399 | in every run a round finds room for its frames, and lengths that fit their buffers |
| `Dma.BurstsTile` | project-spec/meta-user/recipes-modules/axi-tangxi/axi_tangxi.c:57-111 | every byte of the range rounded up to 16 is moved by exactly one burst, no other byte by any |
| `Dma.MoveBursts` | project-spec/meta-user/recipes-modules/axi-tangxi/axi_tangxi.c:70-109 | for every size and every burst length: the programmed bursts, their number, and the target memory with exactly the rounded range copied |
| `Dma.PsToPl` | project-spec/meta-user/recipes-modules/axi-tangxi/axi_tangxi.c:57-111 | PS to PL: bursts and resulting memory |
| `Dma.PlToPs` | project-spec/meta-user/recipes-modules/axi-tangxi/axi_tangxi.c:118-171 | PL to PS: bursts and resulting memory |
| `Dma.CopyRestores` | project-spec/meta-user/recipes-modules/axi-tangxi/axi_tangxi.c:57-171 | out and back, with any two sizes, restores the bytes up to the smaller one whatever the target held, and leaves all beyond the rounded end |
| `Dma.LoopbackRestores` | project-spec/meta-user/recipes-modules/axi-tangxi/axi_tangxi.c:180-230 | the memory after a loop-back holds the sent bytes at the receive address and is unchanged outside the rounded range |
| `Dma.Loopback` | project-spec/meta-user/recipes-modules/axi-tangxi/axi_tangxi.c:180-230 | both memories after the driver's loop-back, send and receive size being independent |
| `Dma.PlWrite` | project-spec/meta-user/recipes-apps/autostart/src/axitangxi.c:33-78 | the bytes from psAddr on, the size rounded up to 16, are copied to plAddr, and nothing else in either memory changes; the bursts lie a mebibyte apart, full but for the last, as many as announced for a size that is not zero |
| `Dma.PlRead` | project-spec/meta-user/recipes-apps/autostart/src/axitangxi.c:33-91 | the same from plAddr to psAddr |
| `Dma.WrittenReadsBack` | project-spec/meta-user/recipes-apps/autostart/src/axitangxi.c:54-91 | what is written to the PL memory and read back is the same |
| `Dma.AnnouncedCount` | project-spec/meta-user/recipes-apps/autostart/src/axitangxi.c:33-42 | burst_count is the number of bursts made if and only if the size is not zero; for zero it is 4096 |

## Left out

- Codings.CodePicture: asks that no edge of the table overflows (`PictureFits`, which `Codings.SubbandFitsExactly` shows to be exact) and that subbands are not empty, because beyond that the source's signed overflow and dereferenced end iterators are undefined.
- ArithmeticEncoder.Encoder.Underflow: the pending count is unbounded; its wrap after 2^64 underflow steps is not modelled.
- ArithmeticEncoder.Encoder.Update: the three phases of the source's one body are separate methods, and base class and encoder are one class, since the encoder is the only subclass.
- EncodingTable.EncTable.Accumulate: the source writes the same loop twice; the model has it once.
- Slave.SlaveProcess.HandleSend: asks that a request names no more frames than the first request for the same picture, because the source would write past its allocation; the slots are filled in an array and stored back as a sequence.
- Slave.ReceiveDataFrames: starts when the bytes are in; the timeout return of -1, which reaches the caller as 65535, is not modelled.
- Master.SendPicture: asks that the picture has frames and every frame comes through in the end, because otherwise the loop does not end (`Master.SendingEndsExactly`).
- Master.AllocDataFrames: memory from `malloc` is modelled as zeroed; no field of it is read before it is set, except the running number, which sending sets.
- Framing.DataToFrames: asks for a non-empty string, as its callers guarantee; the wrap of n_frame - 1 on empty input is not modelled.
- Dma.Loopback: the diagnostic comparisons of the source are left out.
- The non-dry-run processing of a received picture, the accelerator and its registers.
- `entropy_to_gmm`, whose index does not advance per record; the mixture parameters are taken as given.
- The master's receive phase, and frames sent as they are in binary mode.
- Waiting, timeouts, logging, option parsing, terminal settings, file reading, kernel registration, interrupts and memory mapping.
- Whole runs with rx_data_ready held low (one such wait is `UartTiming.ByteIsHeld`), reset in mid-run, and the board wrapper `uart.v`.
- The batch transfers of the driver that no request reaches.
