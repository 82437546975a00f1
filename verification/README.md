# Verified model of the coder, the serial link and the frame protocol

The repository compresses images on a board and sends the code over a serial line. This project models, in Dafny,
the parts of it whose correctness is not obvious from any one function, and proves what they promise each other.

**The arithmetic coder** (`Bits`, `BitStreams`, `Tables`, `Intervals`, `Encoder`, `Decoder`, `RoundTrip`,
`MessageLength`, `ZeroFrequency`, `AnyMessage`, `Messages`). Encoder and decoder keep an interval of N-bit registers,
narrow it per symbol and renormalise it by doubling; bits that cannot be settled yet are held back. The proofs read every register as an offset on an
unbounded number line: with the bits written as the number P and u bits held back, register value 0 sits at
`P * 2^(N+u) + 2^(N-1) * (2^u - 1)`. On that line coding is exact interval narrowing, decoding is looking up where a
number lies, and the round trip follows. N is symbolic, and so is the 1 that the reference coder adds to its range
and the board does not. The encoder never checks for a frequency of zero; it is modelled on all tables and symbols, and
the round trip holds for exactly the messages without such a symbol. The length of a code is bounded from both sides by
the tables.

**The board's encoder** (`BoardEncoder`, `BoardReference`) is the same algorithm on 64-bit integers without that 1.
Its own limit on totals is one too high: a concrete message shows it, and the calls that suffer are characterised
exactly. The reference decoder reads some of its files and not others; which, is decided by comparing one number
with one interval, and a message of two symbols already fails.

**The serial link** (`Serial`, `UartTx`, `UartRx`, `UartLink`, `UartBounds`, `UartScan`, `UartDrift`, `UartEcho`,
`UartBacklog`, `UartSchedule`). Two clocked machines joined by one wire,
and the echo that joins a receiver to a transmitter through a register for one byte. A machine is a class of
registers with one method per clock edge that reads all old values before it writes any; the proofs relate the
phases of the machines by the age of the frame on the wire. With `C` clock cycles a bit the link keeps its promise
exactly for `C` from 3 to 65536: below, the samples miss their bits; above, the 16-bit counter never reaches `C - 1`.
On a line that carries anything at all, the receiver is a scan of the levels, and the echo a schedule on what the scan
finds, so the outgoing line is given by the incoming one, lost bytes included. The echo has no slack against a sender of
its own speed; how long a burst from a faster one may be is given exactly, and so is how far the pace of a sender may be
off.

**The checksum and the frames** (`Crc`, `CrcDetection`, `CrcDistance`, `Frames`). The table-driven CRC-16/MODBUS
(section 6.2.2 of the MODBUS over Serial Line Specification and Implementation Guide V1.02) is bit-serial polynomial
division. From that: in messages of any length all bursts of up to sixteen bits and all odd errors are detected, and all
errors of up to three bits exactly in messages of up to 4095 bytes; two wrong bits are missed exactly at multiples of
32767. The parser compares the checksum with that of the frame it would print again, which for control and request
frames is the same as checking the bytes it has read.

Where the code and its documentation disagree, the model follows the code:

- `get_low` and `get_high` of `SimpleFrequencyTable` return nothing on the first query after a change
  (scripts/arithmetic_coding.py:403-405 and 412-414), so the coder is proved over a table contract, and
  `Messages.WriteFrom` says what happens with that class.
- Multi-byte fields are copied in the byte order of the little-endian host, where the protocol document puts the
  high byte first; the project's own test agrees with the code.
- A character on the line has ten bits, without the parity bit that the protocol document asks for.
- The parser reads the length and payload of a data frame before its numbers, while the printer and the document
  put them after. It also takes its checksum over a buffer that it has not filled. `Frames.DataRoundTrip` gives the
  condition under which that makes no difference, and `Frames.TwoFramesReturn` its two solutions.
- A total equal to the board's limit is accepted although it can leave a symbol with nothing.
- The check for a frequency of zero is commented out (scripts/arithmetic_coding.py:96-97); coding such a symbol
  crosses the registers, and nothing coded afterwards is written (`AnyMessage.Frozen`).
- The transmitter takes a byte offered at the first clock edge after reset although `tx_data_ready` is low
  (hw/project.srcs/sources_1/imports/new/uart_tx.v:88-102), so a source that waits for the flag sends that byte twice (`UartTx.FirstByteTwice`).

## Model

| member | source | states |
|---|---|---|
| `RoundTrip.DecodeInvertsEncode` | scripts/arithmetic_coding.py:132-233 | for every state size, every message and every schedule of tables (each may depend on all earlier symbols) with a positive frequency for the coded symbol and a total within the limit: decoding any stream that starts with the finished code and goes on with zeros gives the message back |
| `RoundTrip.DecodesExactly` | scripts/arithmetic_coding.py:172-233 | for any stream at all: it decodes to a given codable message if and only if the stream, read as a number, lies in the interval to which the encoder narrows for that message |
| `RoundTrip.ReencodeGivesPrefix` | scripts/arithmetic_coding.py:155-233 | for any stream at all: what is decoded from it can be coded, and coding it writes, before the flush, the beginning of that same stream |
| `RoundTrip.FlushSuffices` | scripts/arithmetic_coding.py:149-153 | the single 1 bit written by `finish`, followed by zeros, puts the stream inside the last interval however many underflow bits are still held back |
| `RoundTrip.TakeInStep` | scripts/arithmetic_coding.py:172-225 | decoding a symbol and coding that symbol keep the code window equal to the stream read so far, seen from the encoder's position |
| `RoundTrip.Nested` | scripts/arithmetic_coding.py:101-121 | a stream inside the interval after a symbol was, read to the earlier length, inside that symbol's share of the interval before |
| `RoundTrip.NestedMessage` | scripts/arithmetic_coding.py:101-165 | the same across a whole message: later emissions keep the stream inside every earlier interval |
| `RoundTrip.WrittenIsRead` | scripts/arithmetic_coding.py:155-165 | in step, the bits written are the bits read |
| `RoundTrip.OneMessagePerStream` | project-spec/meta-user/recipes-apps/autostart/src/arithmetic_coding.cpp:68-107 | one stream lies in the final interval of at most one message of a given length, with either definition of the range |
| `RoundTrip.FilesDiffer` | project-spec/meta-user/recipes-apps/autostart/src/arithmetic_coding.cpp:68-107 | two messages of one length under one schedule of tables that give the same closed file are equal, for the reference coder and for the board |
| `RoundTrip.FileHolds` | scripts/arithmetic_coding.py:586-592 | padding the file to whole bytes does not move the stream out of the interval |
| `RoundTrip.CodeLength` | scripts/arithmetic_coding.py:88-121 | a symbol of frequency f in a total T, coded at range R, costs d doublings with 2^d * (R*f - T + 1) <= 2^N * T, counting the bits held back |
| `MessageLength.DepthOfMessage` | scripts/arithmetic_coding.py:88-165 | over a whole message, 2^(bits written and held back) times the product of the symbols' gains (about range times frequency) is at most the product of the budgets (about range times total), with no loss from symbol to symbol: the tables alone bound the length |
| `MessageLength.DepthAtLeast` | scripts/arithmetic_coding.py:88-165 | and at least a quarter of it, with the rounding in the symbols' favour: no message is shorter than its tables allow, but for two bits |
| `MessageLength.LengthOfFile` | scripts/arithmetic_coding.py:88-165 | the same for the closed file, within a factor of 256 |
| `MessageLength.BitsOfFile` | scripts/arithmetic_coding.py:152-153 | the file is the code, the flushing bit and the padding |
| `RoundTrip.MagnifiedWidth` | scripts/arithmetic_coding.py:107-121 | the new interval is the share of the symbol, magnified by as many doublings as bits were written or held back |
| `RoundTrip.TakeFollows` | scripts/arithmetic_coding.py:183-213 | if the stream ends up inside a symbol's share, the decoder takes that symbol |
| `AnyMessage.DecodedIfCodable` | scripts/arithmetic_coding.py:82-233 | of all messages with totals that the encoder accepts, exactly those without a symbol of frequency zero are decoded from their finished code |
| `AnyMessage.Frozen` | scripts/arithmetic_coding.py:88-121 | after a symbol of frequency zero the encoder's whole state, with everything written and held back, stays as it is, whatever symbols of whatever tables follow |
| `AnyMessage.RestIsLost` | scripts/arithmetic_coding.py:88-121 | so two messages that agree up to such a symbol have the same code |
| `AnyMessage.RunIsEncode` | scripts/arithmetic_coding.py:82-121 | without such a symbol the encoder does what the round trip is proved about |
| `AnyMessage.CodableIfAllOccur` | scripts/arithmetic_coding.py:92-99 | an accepted message is codable if and only if every symbol has a positive frequency in its table |
| `Messages.Transcode` | scripts/arithmetic_coding.py:132-233 | through the encoder, a closed byte file and the decoder, as objects with their loops and masks, an accepted message comes back if and only if all its symbols have positive frequencies |
| `Messages.EncodeMessage` | scripts/arithmetic_coding.py:132-165 | coding any accepted message through the objects leaves exactly the specified file, and the counting stream's `num_bits` is eight times its length |
| `Messages.DecodeMessage` | scripts/arithmetic_coding.py:168-233 | reading n symbols of any file gives exactly the specified decoding, or stops exactly when a table's total is zero or too large |
| `Messages.WriteFrom` | scripts/arithmetic_coding.py:92-105 | coding with a `SimpleFrequencyTable`: a total beyond the limit is refused; otherwise the write works exactly when the cache was valid before and the total is positive, and a failing write leaves the encoder as it was and the cache filled |
| `Messages.ReadFrom` | scripts/arithmetic_coding.py:183-213 | decoding with one: a total beyond the limit is refused with the cache untouched; otherwise the read works exactly when the cache was valid before and the total is positive, and a failing read fills the cache and leaves the decoder as it was |
| `Messages.AskTable` | scripts/arithmetic_coding.py:197-210 | the search and the bounds of the symbol found, asked of the table object, are answered exactly if its cache was valid |
| `Messages.SearchFrom` | scripts/arithmetic_coding.py:197-208 | the binary search over the table object; only a table of one symbol needs no answer |
| `Encoder.CodeRefines` | scripts/arithmetic_coding.py:101-121 | coding is exact interval narrowing on unbounded integers: the new interval is the symbol's floor-divided share of the old one, magnified by the number of bits written or held back |
| `Encoder.Code` | scripts/arithmetic_coding.py:82-121 | every update ends with the ends in different halves and not both in the middle two quarters |
| `Encoder.EmitOffset` | scripts/arithmetic_coding.py:155-165 | a bit followed by the complements held back, or holding back one more, moves the position of register value 0 exactly as the doubling demands |
| `Encoder.EmitAllOffset` | scripts/arithmetic_coding.py:155-165 | bits written plus bits held back equal the number of doublings over any run |
| `Encoder.ArithmeticEncoder.constructor` | scripts/arithmetic_coding.py:64-68 | the initial registers |
| `Encoder.ArithmeticEncoder.Shift` | scripts/arithmetic_coding.py:155-162 | writes the top bit of `low` and then every pending complement |
| `Encoder.ArithmeticEncoder.Underflow` | scripts/arithmetic_coding.py:164-165 | one more bit is held back |
| `Encoder.ArithmeticEncoder.SettleRegisters` | scripts/arithmetic_coding.py:107-121 | the two loops over masked registers perform the specified doublings and terminate, on crossed registers too, -1 and 2^N included |
| `Encoder.ArithmeticEncoder.NarrowRegisters` | scripts/arithmetic_coding.py:84-105 | the registers become the ends of the symbol's share, or cross |
| `Encoder.ArithmeticEncoder.Update` | scripts/arithmetic_coding.py:82-121 | between any two calls, for any symbol of any table: a total above the limit is refused, a total of zero divides by zero, and neither changes anything; otherwise the specified step is performed, frequency zero or not |
| `ZeroFrequency.EmptyShare` | scripts/arithmetic_coding.py:96-105 | for a frequency of zero, which nothing checks, the registers cross by one |
| `ZeroFrequency.CrossedTest` | scripts/arithmetic_coding.py:107-107 | the first loop goes on exactly until the crossed registers are in the middle or at one end of the register range |
| `ZeroFrequency.CrossedRound` | scripts/arithmetic_coding.py:107-110 | a round keeps them crossed by one and brings the lower one nearer to a power of two |
| `ZeroFrequency.DeadTest` | scripts/arithmetic_coding.py:112-113 | the second loop is never entered from there |
| `ZeroFrequency.CrossedForEver` | scripts/arithmetic_coding.py:88-105 | between crossed registers the range is zero, and no symbol of any table moves them |
| `ZeroFrequency.NarrowRegisters` | scripts/arithmetic_coding.py:88-105 | in every reachable state narrowing leaves the ends of an interval exactly for a positive frequency and no earlier accident, and crossed registers otherwise |
| `Encoder.CodeAnyCases` | scripts/arithmetic_coding.py:88-121 | that step is exact narrowing for a positive frequency; a frequency of zero leaves dead registers, and dead registers let nothing happen any more |
| `Encoder.ArithmeticEncoder.Write` | scripts/arithmetic_coding.py:144-147 | the same, as the public operation |
| `Encoder.ArithmeticEncoder.Finish` | scripts/arithmetic_coding.py:152-153 | writes one 1 bit and drops what is held back |
| `Intervals.Settle` | scripts/arithmetic_coding.py:107-121 | renormalisation ends, and with the documented invariant |
| `Intervals.SettleMagnifies` | scripts/arithmetic_coding.py:107-121 | renormalisation loses nothing: both ends are only magnified |
| `Intervals.UnderflowsLast` | scripts/arithmetic_coding.py:107-121 | no shift follows an underflow, so two loops one after the other are enough |
| `Intervals.RangeBounds` | scripts/arithmetic_coding.py:79-81 | the documented bounds on the range between symbols, for both definitions of the range |
| `Intervals.MinRange` | scripts/arithmetic_coding.py:48-52 | the reference coder's MAX_TOTAL is the exact bound |
| `Intervals.TotalBound` | scripts/arithmetic_coding.py:51-52 | a total leaves every symbol of positive frequency a non-empty share of every legal interval if and only if it is within the bound |
| `Intervals.NarrowInside` | scripts/arithmetic_coding.py:101-105 | a symbol's share lies inside the interval, and is empty exactly when its frequency is zero |
| `Intervals.NarrowDisjoint` | scripts/arithmetic_coding.py:101-103 | the shares of different symbols are disjoint |
| `Intervals.ShiftRound` | scripts/arithmetic_coding.py:107-111 | while the XOR mask says that the top bits agree, the masked left shift is the doubling about the settled bit |
| `Intervals.UnderflowRound` | scripts/arithmetic_coding.py:113-121 | while the AND-NOT mask says 01 below 10, the masked left shift is the doubling about the middle |
| `Intervals.NoRound` | scripts/arithmetic_coding.py:108-114 | when neither mask holds, no doubling is called for |
| `Decoder.Decode` | scripts/arithmetic_coding.py:168-233 | for every stream, the code window stays inside the interval before and after every read, and as many symbols come out as were asked for, unless a total is zero or too large |
| `Decoder.ChooseExact` | scripts/arithmetic_coding.py:187-209 | the symbol chosen is s if and only if s's share of the interval holds the code window, with symbols of frequency zero anywhere around; it is in range and has positive frequency |
| `Decoder.ScaledAtMost` | scripts/arithmetic_coding.py:192-195 | c * range // total <= offset if and only if c <= ((offset + 1) * total - 1) // range |
| `Decoder.NarrowChosen` | scripts/arithmetic_coding.py:209-212 | narrowing to the chosen symbol keeps the code window inside |
| `Decoder.Resettle` | scripts/arithmetic_coding.py:107-121 | renormalisation keeps the code window inside the interval |
| `Decoder.ShiftCode` | scripts/arithmetic_coding.py:215-218 | the masked shift of the code window is the doubling about the settled bit, with the next stream bit put in |
| `Decoder.UnderflowCode` | scripts/arithmetic_coding.py:220-225 | the masked shift that keeps the top bit is the doubling about the middle |
| `Decoder.ArithmeticDecoder.constructor` | scripts/arithmetic_coding.py:172-179 | the window holds the first bits of the stream, with zeros after its end |
| `Decoder.ArithmeticDecoder.ReadCodeBit` | scripts/arithmetic_coding.py:229-233 | the end of the stream reads as zeros for ever |
| `Decoder.ArithmeticDecoder.Shift` | scripts/arithmetic_coding.py:215-218 | feeds the next bit into the window |
| `Decoder.ArithmeticDecoder.Underflow` | scripts/arithmetic_coding.py:220-225 | the same, keeping the top bit |
| `Decoder.ArithmeticDecoder.SettleRegisters` | scripts/arithmetic_coding.py:107-121 | the two loops over masked registers perform the specified doublings of the interval and the window |
| `Decoder.ArithmeticDecoder.NarrowRegisters` | scripts/arithmetic_coding.py:101-105 | the registers become the ends of the chosen symbol's share |
| `Decoder.ArithmeticDecoder.Search` | scripts/arithmetic_coding.py:197-208 | the binary search finds the highest symbol that starts at or below the value |
| `Decoder.LocateUnique` | scripts/arithmetic_coding.py:197-208 | there is only one such symbol |
| `Decoder.ArithmeticDecoder.Read` | scripts/arithmetic_coding.py:183-213 | the symbol, the new state, and both ways to fail without a change of state |
| `Tables.FlatMeetsContract` | scripts/arithmetic_coding.py:279-319 | the flat table answers every query, in and out of range, as the contract of a table of ones demands |
| `Tables.PrefixSumsMeetContract` | scripts/arithmetic_coding.py:417-425 | the cache holds exactly the prefix sums, monotone, with the last one equal to the total |
| `Tables.PrefixSumsAt` | scripts/arithmetic_coding.py:362-364 | entry i of the cache is the sum of the first i frequencies |
| `Tables.SumAfterSet` | scripts/arithmetic_coding.py:381-384 | changing one frequency changes the total by the difference, and the subtraction never goes below zero |
| `Tables.SimpleFrequencyTable.constructor` | scripts/arithmetic_coding.py:344-364 | the total is the sum of the frequencies and the cache is invalid |
| `Tables.SimpleFrequencyTable.FromList` | scripts/arithmetic_coding.py:349-357 | refuses exactly the empty list and lists with a negative frequency, and copies the rest |
| `Tables.SimpleFrequencyTable.GetSymbolLimit` | scripts/arithmetic_coding.py:367-368 | the number of symbols |
| `Tables.SimpleFrequencyTable.Get` | scripts/arithmetic_coding.py:371-373 | the frequency, which is high minus low |
| `Tables.SimpleFrequencyTable.Set` | scripts/arithmetic_coding.py:377-385 | changes one frequency and the total, and invalidates the cache; a negative frequency changes nothing |
| `Tables.SimpleFrequencyTable.Increment` | scripts/arithmetic_coding.py:388-392 | the same for adding one |
| `Tables.SimpleFrequencyTable.GetTotal` | scripts/arithmetic_coding.py:396-397 | the total always equals the last cumulative frequency |
| `Tables.SimpleFrequencyTable.GetLow` | scripts/arithmetic_coding.py:401-406 | the right bound when the cache was valid before, and nothing, unlike its comment, when it was not |
| `Tables.SimpleFrequencyTable.GetHigh` | scripts/arithmetic_coding.py:410-415 | the same for the upper bound |
| `Tables.SimpleFrequencyTable.InitCumulative` | scripts/arithmetic_coding.py:418-425 | the loop computes the prefix sums, and its assertion holds |
| `BitStreams.Replay` | scripts/arithmetic_coding.py:518-592 | any bits written, closed and read back come out unchanged, followed by fewer than eight zeros to the byte boundary and then by -1 for ever |
| `BitStreams.Store` | scripts/arithmetic_coding.py:563-592 | writing and closing leaves the bits and the padding in the file |
| `BitStreams.Fetch` | scripts/arithmetic_coding.py:518-542 | reading any number of times |
| `BitStreams.BytesToBitsInjective` | scripts/arithmetic_coding.py:560-562 | a file is determined by its bits |
| `BitStreams.FileBit` | scripts/arithmetic_coding.py:518-584 | a file holds its bits byte by byte, and in each byte from the most significant one |
| `BitStreams.BitOutputStream.Write` | scripts/arithmetic_coding.py:571-584 | one bit joins what has been written, whether or not a byte becomes full |
| `BitStreams.BitOutputStream.Close` | scripts/arithmetic_coding.py:589-592 | the minimum number of zeros up to the byte boundary |
| `BitStreams.CountingBitOutputStream.Write` | scripts/arithmetic_coding.py:601-603 | the count follows the bits |
| `BitStreams.CountingBitOutputStream.Close` | scripts/arithmetic_coding.py:605-607 | the count is rounded up by the padding, and agrees with the file exactly when counting began at a byte boundary |
| `BitStreams.BitInputStream.Read` | scripts/arithmetic_coding.py:530-542 | the next bit, or -1 from the end of the file on |
| `BoardEncoder.EncodeMessage` | project-spec/meta-user/recipes-apps/autostart/src/arithmetic_coding.cpp:68-109 | the board's encoder, run on a message within the exact bound, leaves exactly the file specified for its range |
| `BoardEncoder.LimitTooWeak` | project-spec/meta-user/recipes-apps/autostart/src/arithmetic_coding.cpp:72-76 | the limit that the code checks is one too high: after two symbols it accepts a table and a symbol of positive frequency whose share of the interval is empty |
| `BoardEncoder.ShareIsProper` | project-spec/meta-user/recipes-apps/autostart/src/arithmetic_coding.cpp:72-78 | below that limit a symbol's share is non-empty exactly when its frequency is positive |
| `BoardEncoder.ShareExact` | project-spec/meta-user/recipes-apps/autostart/src/arithmetic_coding.cpp:72-78 | of all calls that the code accepts, a usable interval is left exactly unless the frequency is zero, or total and range are at their extremes (0x40000002 and 0x40000001) and the symbol is the first one with frequency one |
| `BoardEncoder.ShareAtTheLimit` | project-spec/meta-user/recipes-apps/autostart/src/arithmetic_coding.cpp:72-78 | so at the limit every symbol of positive frequency has a share if and only if the interval is not the narrowest one possible between symbols |
| `BoardEncoder.ProductsFit` | project-spec/meta-user/recipes-apps/autostart/src/arithmetic_coding.cpp:75-76 | the products stay within signed 64 bits |
| `BoardEncoder.BoardConstants` | project-spec/meta-user/recipes-apps/autostart/src/arithmetic_coding.h:69-89 | the constants of the 32-bit coder |
| `BoardEncoder.BoardEncoder.constructor` | project-spec/meta-user/recipes-apps/autostart/src/arithmetic_coding.h:91-105 | the initial registers |
| `BoardEncoder.BoardEncoder.Shift` | project-spec/meta-user/recipes-apps/autostart/src/arithmetic_coding.cpp:100-107 | writes the top bit of `m_low` and then every pending complement |
| `BoardEncoder.BoardEncoder.Underflow` | project-spec/meta-user/recipes-apps/autostart/src/arithmetic_coding.cpp:109-109 | one more bit is held back |
| `BoardEncoder.BoardEncoder.SettleRegisters` | project-spec/meta-user/recipes-apps/autostart/src/arithmetic_coding.cpp:80-90 | the two loops perform the specified doublings and terminate, on crossed registers too |
| `BoardEncoder.BoardEncoder.NarrowRegisters` | project-spec/meta-user/recipes-apps/autostart/src/arithmetic_coding.cpp:70-78 | the registers become the ends of the share, with the range one shorter than the reference coder's, or cross, and nothing overflows |
| `BoardEncoder.BoardEncoder.Write` | project-spec/meta-user/recipes-apps/autostart/src/arithmetic_coding.cpp:68-96 | refuses exactly the totals above the limit; otherwise narrows and renormalises as specified, and leaves a usable interval if and only if the bounds pass a comparison that a caller can make beforehand, and dead registers if not |
| `BoardEncoder.BoardEncoder.Finish` | project-spec/meta-user/recipes-apps/autostart/src/arithmetic_coding.cpp:98-98 | writes one 1 bit |
| `BoardReference.ReferenceReadsBoard` | project-spec/meta-user/recipes-apps/autostart/src/arithmetic_coding.cpp:68-107 | for every message and schedule the board can code: the reference decoder with the same tables reads the board's file as that message if and only if the board's flushed number, rescaled to the depth of the reference coder, lies in the reference coder's interval for the message |
| `BoardReference.Unreadable` | project-spec/meta-user/recipes-apps/autostart/src/arithmetic_coding.cpp:72-76 | a message of two symbols for which that condition fails |
| `BoardReference.ReferenceMisreadsBoard` | project-spec/meta-user/recipes-apps/autostart/src/arithmetic_coding.cpp:72-76 | so its file is not read as the message; the first symbol already comes out wrong |
| `Crc.Crc16` | project-spec/meta-user/recipes-apps/autostart/src/crc.c:6-19 | for every buffer the table-driven loop returns the bit-serial division with initial value FFFF and reflected polynomial A001 |
| `Crc.TablesAreEightSteps` | project-spec/meta-user/recipes-apps/autostart/src/crc.h:9-56 | each of the 256 pairs of entries is eight bit steps of its index |
| `Crc.TableStep` | project-spec/meta-user/recipes-apps/autostart/src/crc.c:12-16 | one turn of the loop is the division of one byte |
| `Crc.FeedByte` | project-spec/meta-user/recipes-apps/autostart/src/crc.c:12-16 | adding a byte and stepping eight times is feeding its bits one by one, least significant first |
| `Crc.EightStepsPlus` | project-spec/meta-user/recipes-apps/autostart/src/crc.c:12-16 | the division is linear |
| `CrcDetection.BurstDetected` | project-spec/meta-user/recipes-apps/autostart/src/crc.c:6-19 | messages of any length that agree outside sixteen consecutive bits have equal checksums only if they are equal |
| `CrcDetection.ResidueIsZero` | project-spec/meta-user/recipes-apps/autostart/src/crc.c:18-18 | two bytes appended to a message leave remainder zero exactly when they are its checksum, low byte first |
| `CrcDetection.CrcParity` | project-spec/meta-user/recipes-apps/autostart/src/crc.c:6-19 | the checksum has the parity of the message |
| `CrcDetection.OddErrorDetected` | project-spec/meta-user/recipes-apps/autostart/src/crc.c:6-19 | an odd number of flipped bits in message and checksum is detected |
| `CrcDistance.ThreeErrorsDetected` | project-spec/meta-user/recipes-apps/autostart/src/crc.c:6-19 | messages of up to 4095 bytes that differ in one, two or three bits anywhere have different checksums |
| `CrcDistance.ThreeBitLength` | project-spec/meta-user/recipes-apps/autostart/src/crc.c:6-19 | for every n: all errors of one to three bits in n bytes are detected if and only if n is at most 4095 |
| `CrcDistance.FourBitLength` | project-spec/meta-user/recipes-apps/autostart/src/crc.c:6-19 | and all errors of one to four bits if and only if n is at most 2 |
| `CrcDistance.TwoBitDistance` | project-spec/meta-user/recipes-apps/autostart/src/crc.c:6-19 | in messages of any length, two wrong bits go unnoticed if and only if their distance is a multiple of 32767 |
| `CrcDistance.CommonStart` | project-spec/meta-user/recipes-apps/autostart/src/crc.c:6-19 | what two messages of one length have in common at their start does not matter to whether their checksums agree |
| `CrcDistance.FourErrorsMissed` | project-spec/meta-user/recipes-apps/autostart/src/crc.c:6-19 | neither three bits nor a burst of sixteen can be raised: two messages with equal checksums that differ in four bits within seventeen in a row |
| `CrcDistance.TwoErrorsMissed` | project-spec/meta-user/recipes-apps/autostart/src/crc.c:6-19 | nor can 4095 bytes: two messages of 4096 bytes with equal checksums that differ in their first and last bits alone |
| `CrcDistance.ReturnsAt` | project-spec/meta-user/recipes-apps/autostart/src/crc.c:11-16 | a single wrong bit looks as it did at first after multiples of 32767 steps, and at no other time |
| `CrcDistance.OneReturns` | project-spec/meta-user/recipes-apps/autostart/src/crc.c:11-16 | after 32767 steps a single wrong bit looks as it did at first |
| `CrcDistance.NoEarlierReturn` | project-spec/meta-user/recipes-apps/autostart/src/crc.c:11-16 | the bit step, started from two adjacent wrong bits, does not return before 32767 steps |
| `CrcDistance.BackAtLast` | project-spec/meta-user/recipes-apps/autostart/src/crc.c:11-16 | and does return then |
| `CrcDistance.PolynomialVanishes` | project-spec/meta-user/recipes-apps/autostart/src/crc.c:11-16 | the polynomial, applied to the bit step, gives zero on every register |
| `CrcDistance.Frobenius` | project-spec/meta-user/recipes-apps/autostart/src/crc.c:11-16 | what holds of a step holds of every power of two of steps |
| `Frames.FrameToBitStream` | project-spec/meta-user/recipes-apps/autostart/src/transmission_protocol.c:46-54 | prints the frame and its checksum at the front of the buffer and touches nothing behind it; of a data frame, what the buffer held before shows through as padding |
| `Frames.FrameWithoutCheckSum` | project-spec/meta-user/recipes-apps/autostart/src/transmission_protocol.c:7-44 | the same without the checksum |
| `Frames.CopyFields` | project-spec/meta-user/recipes-apps/autostart/src/transmission_protocol.c:18-35 | the fields common to all frames, little-endian |
| `Frames.CopyPayload` | project-spec/meta-user/recipes-apps/autostart/src/transmission_protocol.c:36-42 | the length and the payload of a data frame, with the rest of the payload area as it was |
| `Frames.BitStreamToFrame` | project-spec/meta-user/recipes-apps/autostart/src/transmission_protocol.c:56-103 | for any buffer as long as its header and type announce, and any contents of the scratch memory: null, a frame or an overrun, as the next three rows spell out byte by byte |
| `Frames.ShortBytesParsed` | project-spec/meta-user/recipes-apps/autostart/src/transmission_protocol.c:56-103 | a buffer whose type bytes are not 05 00 is parsed if and only if it starts with EB 90 EB 90, bytes 6 and 7 are 01 00 or 03 00, and sixteen bytes divide without remainder; then into the little-endian fields given here, and otherwise null is returned |
| `Frames.OtherBytesRefused` | project-spec/meta-user/recipes-apps/autostart/src/transmission_protocol.c:60-89 | any other header or type gives null, whatever the rest and however short the buffer |
| `Frames.DataBytesParsed` | project-spec/meta-user/recipes-apps/autostart/src/transmission_protocol.c:74-103 | a buffer of type 05 00, printed by anyone: an overrun if and only if bytes 8 and 9 spell more than 512; otherwise null if the checksum of the frame printed again, given as slices of the buffer and the scratch memory, is not in the last two bytes, and the frame with these slices as fields if it is |
| `Frames.FieldsAreBytes` | project-spec/meta-user/recipes-apps/autostart/src/transmission_protocol.c:90-97 | for control and request frames the prefix printed again is the prefix that was read |
| `Frames.ParseInvertsPrint` | project-spec/meta-user/recipes-apps/autostart/src/transmission_protocol.c:46-103 | every control and request frame, printed, is accepted and parsed back, for all field values |
| `Frames.PrintInvertsParse` | project-spec/meta-user/recipes-apps/autostart/src/transmission_protocol.c:46-103 | every accepted sixteen bytes are what printing the parsed frame gives |
| `Frames.AcceptsIsResidue` | project-spec/meta-user/recipes-apps/autostart/src/transmission_protocol.c:95-101 | accepted frames are exactly the well-typed ones that divide without remainder |
| `Frames.TamperingDetected` | project-spec/meta-user/recipes-apps/autostart/src/transmission_protocol.c:95-101 | an accepted frame altered within sixteen consecutive bits is refused, even if its type or checksum was hit |
| `Frames.ThreeBitsDetected` | project-spec/meta-user/recipes-apps/autostart/src/transmission_protocol.c:95-101 | an accepted frame with one to three altered bits anywhere is refused |
| `Frames.OddTamperingDetected` | project-spec/meta-user/recipes-apps/autostart/src/transmission_protocol.c:95-101 | an accepted frame with an odd number of altered bits is refused |
| `Frames.RequestExample` | project-spec/meta-user/recipes-apps/autostart/tests/transmission_protocol_test.cc:27-38 | the sixteen bytes that the project's own test expects |
| `Frames.DataFrameAsDocumented` | docs/resources/serial-transmission-protocol.md:42-52 | a printed data frame has 530 bytes, its header first, 05 00 at bytes 6 and 7, every field, little-endian, at its documented place, what the buffer held in the rest of the payload area, and checks out |
| `Frames.DataTamperingDetected` | docs/resources/serial-transmission-protocol.md:42-52 | altered within sixteen consecutive bits, or in up to three bits anywhere, it no longer checks out |
| `Frames.DataMisread` | project-spec/meta-user/recipes-apps/autostart/src/transmission_protocol.c:74-88 | for every printed data frame: the parser takes its length from the low half of the file number, and if that is at most 512 the other fields from the places given here |
| `Frames.DataRoundTrip` | project-spec/meta-user/recipes-apps/autostart/src/transmission_protocol.c:30-103 | whatever the print buffer and the parser's scratch memory held: a printed data frame comes back if and only if its own fields spell, at the misread places, the values that belong there, and what the two buffers hold beyond the payload has one checksum |
| `Frames.FullFrameReturns` | project-spec/meta-user/recipes-apps/autostart/src/transmission_protocol.c:30-103 | for a full payload the first of the two conditions is enough |
| `Frames.PaddingsDecide` | project-spec/meta-user/recipes-apps/autostart/src/transmission_protocol.c:36-42 | that the paddings have one checksum is the same as that the whole frames do |
| `Frames.TwoFramesReturn` | project-spec/meta-user/recipes-apps/autostart/src/transmission_protocol.c:30-103 | solved for all data frames printed into zeros, and any scratch memory: the full frame made of nothing but its own length comes back, the empty frame 0 of file 0 does if the scratch memory has the checksum of zeros, and no other |
| `Frames.OwnLengthReturns` | project-spec/meta-user/recipes-apps/autostart/src/transmission_protocol.c:30-103 | the frame of lengths comes back whatever the print buffer and the scratch memory held |
| `Frames.EndOfPayload` | project-spec/meta-user/recipes-apps/autostart/src/transmission_protocol.c:74-88 | the bytes that such a frame's payload has to repeat |
| `UartScan.ReportsAreScanned` | hw/project.srcs/sources_1/imports/new/uart_rx.v:38-121 | whatever the line does and however many cycles a bit has: a frame starts at every falling edge, except before the last one has been reported; its bit b is the level c + c*b + c/2 + 1 clocks later, its report comes 9c + c/2 + 2 clocks later, and there are no other reports |
| `UartScan.HandedIsScanned` | hw/project.srcs/sources_1/imports/new/uart_rx.v:38-121 | the same for a consumer that is not always ready: a byte waits, unchanged, for the first ready edge, and until then the receiver is deaf |
| `UartDrift.DriftExact` | hw/project.srcs/sources_1/imports/new/uart_rx.v:72-121 | a sender whose bits last d of the receiver's clocks is read correctly, in every frame at which the receiver starts, if and only if 8d <= 8c + c/2 + 1 < 9d; at 434 clocks, from 411 to 461 |
| `UartDrift.ReadsTolerated` | hw/project.srcs/sources_1/imports/new/uart_rx.v:115-121 | within these bounds the samples of all eight bits fall into their bits |
| `UartSchedule.EchoOfAnyLine` | hw/project.srcs/sources_1/imports/new/uart.v:34-80 | whatever the line does, with bytes lost or not: from its levels alone follow the bytes that the echo takes and when, the level of the outgoing line at every edge, and what a receiver on it is given |
| `UartSchedule.TakenIsEchoed` | hw/project.srcs/sources_1/imports/new/uart.v:60-80 | what is taken, and when, is decided by the times and bytes of the reports |
| `UartSchedule.EchoedOnSchedule` | hw/project.srcs/sources_1/imports/new/uart.v:63-80 | each next byte is taken at the later of the last taking + 10C + 1 and the first report since then + 1, and is the one reported last before that edge; all older ones vanish, and nothing else does |
| `UartLink.LinkDelivers` | hw/project.srcs/sources_1/imports/new/uart_rx.v:38-121 | for any number of cycles a bit from 3 to 65536 and any schedule of offered bytes: at every clock the reported bytes are exactly those taken at least 9C + C/2 + 4 clocks ago, in order and unaltered, each reported exactly that many clocks after it was taken |
| `UartBounds.CyclesExact` | hw/project.srcs/sources_1/imports/new/uart_rx.v:15-121 | the statement above holds for every schedule of offered bytes if and only if there are 3 to 65536 cycles a bit |
| `UartBounds.TwoIsTooFew` | hw/project.srcs/sources_1/imports/new/uart_rx.v:72-121 | with two cycles every sample falls into the next bit, and a byte of zeros is reported with its last bit set |
| `UartBounds.NothingReceived` | hw/project.srcs/sources_1/imports/new/uart_rx.v:54-105 | with fewer than two, or more than the counter can count, nothing is ever reported |
| `UartLink.SampleIsRight` | hw/project.srcs/sources_1/imports/new/uart_rx.v:115-121 | half way through a received bit, three clocks late, the line still carries that bit |
| `UartLink.StepTakes` | hw/project.srcs/sources_1/imports/new/uart_rx.v:72-121 | the relation between the phases of both machines survives an edge at which a byte is taken, also while the byte before is being reported |
| `UartLink.StepPasses` | hw/project.srcs/sources_1/imports/new/uart_rx.v:72-121 | and every other edge |
| `UartLink.DeliversOnwards` | hw/project.srcs/sources_1/imports/new/uart.v:34-80 | latencies of links in a row add up |
| `UartLink.Simulate` | hw/project.srcs/sources_1/imports/new/uart_rx.v:38-121 | the same through the two register objects, clocked |
| `UartTx.LatchedIsOffered` | hw/project.srcs/sources_1/imports/new/uart_tx.v:60-102 | whatever the inputs, the state machine takes exactly the bytes that the rule 'deaf for ten bits after taking one' takes |
| `UartTx.Offered` | hw/project.srcs/sources_1/imports/new/uart_tx.v:60-102 | bytes taken are more than ten bits apart |
| `UartTx.LineIsWaveform` | hw/project.srcs/sources_1/imports/new/uart_tx.v:104-117 | the line at every edge is what the frame format says, given only which bytes were taken when: start bit, eight data bits from the least significant, stop bit, rest |
| `UartTx.FullRate` | hw/project.srcs/sources_1/imports/new/uart_tx.v:60-102 | a source that always has a byte sends one every ten bits and a clock |
| `UartTx.ReadyMeansAccepts` | hw/project.srcs/sources_1/imports/new/uart_tx.v:88-102 | at every edge but the first after reset, a byte is taken if and only if it is offered while `tx_data_ready` is high; at the first it is taken with the flag low |
| `UartTx.LatchedIsHanded` | hw/project.srcs/sources_1/imports/new/uart_tx.v:88-102 | what is sent is what was handed over by that handshake, after the one byte offered at the first edge, if there is one |
| `UartTx.FirstByteTwice` | hw/project.srcs/sources_1/imports/new/uart_tx.v:88-102 | a source that keeps to the handshake sends its queue in order, each byte once; but if it offers one at the first edge, that one is sent twice |
| `UartTx.SentTwice` | hw/project.srcs/sources_1/imports/new/uart_tx.v:88-102 | a source that holds one byte up until it is taken: it is sent at once, and again ten bits and a clock later |
| `UartTx.UartTx.constructor` | hw/project.srcs/sources_1/imports/new/uart_tx.v:34-117 | the registers after reset |
| `UartTx.UartTx.Clock` | hw/project.srcs/sources_1/imports/new/uart_tx.v:34-117 | all registers after an edge, from all registers before it |
| `UartTx.Drive` | hw/project.srcs/sources_1/imports/new/uart_tx.v:34-117 | the transmitter, clocked, produces the specified line |
| `UartTx.FrameAdvances` | hw/project.srcs/sources_1/imports/new/uart_tx.v:42-117 | every register of a transmitter as a function of the age of the frame |
| `UartRx.UartRx.constructor` | hw/project.srcs/sources_1/imports/new/uart_rx.v:38-121 | the registers after reset |
| `UartRx.UartRx.Clock` | hw/project.srcs/sources_1/imports/new/uart_rx.v:38-121 | all registers after an edge, from all registers before it, for any consumer |
| `UartRx.Serve` | hw/project.srcs/sources_1/imports/new/uart_rx.v:38-121 | the receiver, clocked with any line and any consumer, hands over the specified bytes |
| `UartRx.Handshake` | hw/project.srcs/sources_1/imports/new/uart_rx.v:97-121 | a byte is flagged exactly while it waits, waits unchanged until the consumer is ready, and is handed over once |
| `UartRx.Listen` | hw/project.srcs/sources_1/imports/new/uart_rx.v:38-121 | the receiver, clocked, produces the specified reports |
| `UartRx.FrameAdvances` | hw/project.srcs/sources_1/imports/new/uart_rx.v:54-121 | every register of a receiver as a function of the age of the frame, three clocks late |
| `UartEcho.LoopDelivers` | hw/project.srcs/sources_1/imports/new/uart.v:34-80 | a transmitter, the echo and a receiver on one clock: the holding register is never overwritten, and every byte comes back exactly two latencies and a clock after it was taken |
| `UartEcho.EchoKeepsUp` | hw/project.srcs/sources_1/imports/new/uart.v:60-80 | fed with reports spaced like a transmitter's, the echo takes each byte exactly once, in order, one clock after its report |
| `UartBacklog.LosslessExactly` | hw/project.srcs/sources_1/imports/new/uart.v:60-80 | whatever arrives: the echo never loses a byte if and only if every report comes no sooner than the one before it is due to be taken, which the times of the reports alone decide; then each byte is taken at its time |
| `UartBacklog.BurstLength` | hw/project.srcs/sources_1/imports/new/uart.v:60-80 | of m reports d clocks apart none is lost if and only if (m - 1) * (10C + 1 - d) <= 10C: no slack at the transmitter's own period, and a credit of ten bits for a faster sender |
| `UartBacklog.TakenOnTime` | hw/project.srcs/sources_1/imports/new/uart.v:63-80 | a held byte is taken at the edge that the schedule says, and the transmitter is ready exactly then |
| `UartEcho.EchoDelivers` | hw/project.srcs/sources_1/imports/new/uart.v:34-80 | whatever comes in, every byte the echo takes reaches a receiver on its outgoing line exactly one latency later |
| `UartEcho.NeverOverwrites` | hw/project.srcs/sources_1/imports/new/uart.v:63-80 | no report finds the holding register occupied |
| `UartEcho.HeldIsTaken` | hw/project.srcs/sources_1/imports/new/uart.v:63-80 | a held byte is taken at the very next edge: the transmitter is idle and ready exactly then |
| `UartEcho.ReportsAreSpaced` | hw/project.srcs/sources_1/imports/new/uart.v:34-80 | reports of a transmitter's bytes keep the distance at which they were taken |
| `UartEcho.Parts` | hw/project.srcs/sources_1/imports/new/uart.v:34-58 | receiver and transmitter inside the board run as they would on their own |
| `UartEcho.Uart.constructor` | hw/project.srcs/sources_1/imports/new/uart.v:54-70 | the registers after reset |
| `UartEcho.Uart.Clock` | hw/project.srcs/sources_1/imports/new/uart.v:34-80 | all registers of the board after an edge, from all registers before it |
| `UartEcho.Echo` | hw/project.srcs/sources_1/imports/new/uart.v:34-80 | the board, clocked, produces the specified line |
| `UartEcho.Simulate` | hw/project.srcs/sources_1/imports/new/uart.v:34-80 | the loop through the three register objects, clocked |

## Left out

- BoardEncoder.BoardEncoder.Write: requires usable registers and a positive total. It says what a symbol without a share does to them; the next call, which divides by means of a negative range, is not modelled, nor is division by zero.
- Encoder.ArithmeticEncoder.Write: requires a symbol of the table, as the table's own methods do.
- Frames.BitStreamToFrame: requires a buffer as long as its header and type announce; the code reads on without looking. What happens after it has written beyond its payload field is not modelled.
- In the frame record the union of command number and file number is one field and `check_sum` is not kept; failure to allocate memory is not modelled.
- Crc.Crc16: takes any length; the source's 16-bit length parameter is not modelled, and no frame comes near it.
- UartLink.LinkDelivers: one clock for both sides, starting from reset, with the receiver's consumer always ready as `uart` wires it (`UartScan` has any line and any consumer, `UartDrift` any constant pace in whole clocks); jitter, metastability, resets in the middle of a run and the unused encodings of the state registers are not modelled.
- Frequency tables are values handed to the coders, one per symbol; a table object that changes while it is being used, and the copy constructor from another table, are not modelled. Raised exceptions are result values.
- `CheckedFrequencyTable`, `VirtualBitOutputStream`, `read_no_eof`, `close` of the input stream, the script's main program and all string formatting: they add nothing to the properties above.
- A state size of 1, which the reference coder's comments allow: its second mask is zero and there are no quarters; the model starts at 2.
- The board's bit streams behave like the reference ones and are not modelled twice; its input stream and the decoder that is declared but not defined are not part of this model.
- Counters of bits and of pending underflows are unbounded; on the board they are machine integers.
- The floating-point probabilities of the image coder: totals and bounds are taken as given integers.
- Sending, receiving and waiting for frames on file descriptors, the resend protocol, the command line programs, the kernel driver and its user library.
