# BMS serial protocol engine

A Dafny model of the battery-management-system (BMS) driver of the
`power_controller_every` firmware. It covers `lib/bms/bms.cpp` and the value
types and constants of `src/bms.h`. It includes:

- the 16-bit checksum and the MOSFET control frame;
- the validation of a response in the 64-byte receive buffer;
- the decoders for basic info, cell voltages and the device name;
- the bit-packed software version, production date and protection status;
- the fault-edge counters and their reset;
- the `BMS` object.

The project has seven modules:

- `Bytes`: the fixed-width integers, big-endian words and bit extraction.
- `BmsTypes`: the constants of `src/bms.h` and the unpacking operators of
  `SoftwareVersion`, `ProductionDate` and `ProtectionStatus`. It also holds
  the thirteen 8-bit fault counters with their edge step.
- `BmsProtocol`: `calculateChecksum` is a `method` with a loop, proved
  against the function `Checksum`. `calculateMosfetCommandString` is a
  `method` that completes the caller's `array` in place. `validateResponse`
  is a pure function. This module also has the receive buffer a query hands
  to both.
- `BmsModel`: the state of one `BMS` object as a value (`BmsState`), and the
  effect of every operation on it as a function.
- `BmsSession`: the class `Bms`. Its fields are those of the C++ class; its
  two fixed arrays are Dafny `array`s filled in loops. Each method that
  mirrors a source method ensures `Snapshot() == F(old(Snapshot()), ...)`
  for the matching `BmsModel` function `F`. The helpers of
  `ParseBasicInfoResponse` state their effect field by field.
- `BmsProperties`: lemmas about the `BmsModel` functions, covering queries,
  `poll`, decoded fields, fault counters and balance bits.
- `BmsReplies`: encoders for well-formed replies and the round trips through
  the three parsers.

The serial port is an input. Each query takes `received`, the bytes
`readBytesUntil` placed in the buffer before the stop byte, at most 64 of
them. The buffer is `received` followed by zeros, which is how the source
zero-initialises it. `bytesReceived` is `|received|`.

Readings are kept in the raw integer units the BMS sends: centivolts,
centiamps, centi-amp-hours, millivolts and deci-kelvin.

The model follows the code as written. The lemmas make these behaviours
visible:

- `comError` is assigned the verdict of `validateResponse`, which is true
  for a valid reply. The parser then runs only when the verdict is false.
  A well-formed reply is therefore discarded, and `comError` is set to true
  (`WellFormedBasicInfoDiscarded`).
- A timed-out read is decoded from the all-zero buffer, and `comError` is
  set to false (`TimeoutDecodesZeroBuffer`).
- `setMosfetControl` validates an empty read, so it always clears
  `comError`.
- Index 6 of the MOSFET frame is always 0.
- The software major version is `(v / 15) & 15`, a division by 15 rather
  than the high nibble (`MajorIsHighNibbleIff`).
- Fault counters wrap at 256; they do not saturate
  (`CountsAfterCountsRisingEdges`).
- The current is read as an unsigned word, so it is never negative
  (`CurrentNeverNegative`).
- `isBalancing` bounds only the bit index and does not consult `numCells`
  (`CellBalancing`).

Further consequences of the code as written:

- Day and month are not range-checked.
- `numCells` and `numTemperatureSensors` may exceed 8 and 2; only the loops
  clamp them (`CountsStoredUnclamped`).
- `hasComError` reports the validation verdict, not an error. A failed
  query therefore does not keep stale telemetry: it decodes whatever is in
  the buffer.

## Model

| member | source | states |
|---|---|---|
| BmsTypes.DecodeSoftwareVersion | src/bms.h:69-72 | The minor part is the low nibble of the byte; both parts are at most 15. |
| BmsTypes.MajorIsHighNibbleIff | src/bms.h:70 | The decoded major part equals the high nibble exactly when the two nibbles add up to less than 15, because the operator divides by fifteen. |
| BmsTypes.SoftwareVersionExamples | src/bms.h:64-72 | 0x10 decodes to 1.0; 0 decodes to the default 0.0; 0x1F decodes to 2.15. |
| BmsTypes.DecodeProductionDate | src/bms.h:87-98 | Any word decodes to day ≤ 31, month ≤ 15 and a year in 2000..2127, with no range validation. |
| BmsTypes.DecodeProductionDateInverse | src/bms.h:87-98 | Repacking the three decoded fields gives back the original word, so the decoder is injective. |
| BmsTypes.PackedDateDecodes | src/bms.h:88-97 | Every date the 16-bit layout can carry packs into a 16-bit word that decodes back to it. |
| BmsTypes.ProductionDateExamples | src/bms.h:81-98 | 0x2068 decodes to 8/3/2016. The word 0 decodes to day 0, month 0 of 2000, which differs from the default 1/1/2000. |
| BmsTypes.DecodeProtectionStatus | src/bms.h:132-146 | Assigning a word sets flag k to bit k of the word, for each of the 13 flags. |
| BmsTypes.ProtectionStatusIgnoresHighBits | src/bms.h:132-146 | Bits 13 to 15 of the status word never affect the decoded flags. |
| BmsTypes.StatusWord | src/bms.h:132-146 | Every combination of the 13 flags has a word below 0x2000 that decodes to it; flag k is bit k. |
| BmsTypes.StatusWordOfDecode | src/bms.h:132-146 | Every word below 0x2000 is the status word of the flags it decodes to, so on such words `StatusWord` and the decoder are inverses. |
| BmsTypes.ProtectionStatusExamples | src/bms.h:116-146 | Assigning 0 gives the default status with every flag false; 0x1FFF raises all 13 flags. |
| BmsTypes.Increment | lib/bms/bms.cpp:276-288 | `+= 1` on an 8-bit counter gives count + 1, except that 255 wraps to 0. |
| BmsTypes.EdgeStep | lib/bms/bms.cpp:276 | One edge test: the counter changes exactly when the flag goes from false to true, and then it takes one `Increment`. |
| BmsTypes.NextFaultCounts | lib/bms/bms.cpp:276-288 | Counter k changes exactly when flag k goes from false to true between the previous and the new status, and then it takes one `Increment`. |
| BmsTypes.CountsAfterCountsRisingEdges | lib/bms/bms.cpp:276-288 | For the counter fold `CountsAfter` (the edge step applied along a run of statuses), counter k grows by exactly the number of false-to-true changes of flag k, modulo 256. `DecodesFoldFaultCounts` ties the fold to the decoder's state. |
| BmsTypes.FaultEdgeExamples | lib/bms/bms.cpp:276 | On the counter fold, the run false, true, true, false, true of one flag counts two faults; a rise at count 255 leaves 0. |
| BmsProtocol.ChecksumCancelsSum | lib/bms/bms.cpp:353-359 | The byte sum plus the checksum is 0 modulo 65536, and the checksum is the only 16-bit value for which this holds. |
| BmsProtocol.ChecksumDetectsByteChange | lib/bms/bms.cpp:353-359 | Changing any single byte of a run changes its checksum. |
| BmsProtocol.CalculateChecksum | lib/bms/bms.cpp:353-359 | The wrapping 16-bit loop returns the checksum of the first `len` bytes, and 0 when `len` ≤ 0. |
| BmsProtocol.ReadRequestChecksums | test/nano_every/test_embedded.cpp:77-90 | [0x03, 0x00], [0x04, 0x00] and [0x05, 0x00] have checksums 0xFFFD, 0xFFFC and 0xFFFB; the empty run has checksum 0. |
| BmsProtocol.ControlByte | lib/bms/bms.cpp:135-137 | The control value is below 4: bit 0 is set iff charging is to be disabled, bit 1 iff discharging is. |
| BmsProtocol.CalculateMosfetCommandString | lib/bms/bms.cpp:134-143 | The method writes only indices 5, 6 and 7. Index 5 gets the control value, index 6 gets 0 and index 7 gets the low byte of the checksum of indices 2..5. |
| BmsProtocol.MosfetFrame | lib/bms/bms.cpp:123-124 | The completed MOSFET frame has nine bytes. |
| BmsProtocol.MosfetChecksums | test/nano_every/test_embedded.cpp:92-118 | The checksum of indices 2..5 of the frame is 0xFF1A, 0xFF1B, 0xFF1C or 0xFF1D for (off, off), (on, off), (off, on) and (on, on). |
| BmsProtocol.MosfetFrameChecksumHighByteLost | lib/bms/bms.cpp:141-142 | The checksum's high byte is 0xFF but index 6 holds 0, so the frame does not carry its own checksum. |
| BmsProtocol.ValidateResponse | lib/bms/bms.cpp:361-376 | Nothing received means invalid. A valid reply has a matching start byte, command and zero status. From 4 bytes on, the reply is valid iff the header matches and the checksum of indices 2..n-3 equals the big-endian word in the last two received bytes. |
| BmsProtocol.ResponseFrame | lib/bms/bms.cpp:366-371 | A well-formed reply is its payload plus six framing bytes. |
| BmsProtocol.ValidateAcceptsResponseFrame | lib/bms/bms.cpp:361-376 | Every well-formed reply validates, whatever follows it in the buffer. |
| BmsProtocol.SingleByteCorruptionRejected | lib/bms/bms.cpp:366-374 | Altering any one received byte of a validated reply makes it invalid. |
| BmsProtocol.ReceiveBuffer | lib/bms/bms.cpp:252-254 | The buffer holds 64 bytes: the received bytes first, zeros after them. |
| BmsProtocol.ReceiveBufferCanValidate | lib/bms/bms.cpp:362-371 | On the zero-filled buffer with a non-zero command, validation never indexes outside the buffer, including when exactly one byte was received. |
| BmsProtocol.ReceiveBufferOfFrame | lib/bms/bms.cpp:252-255 | A well-formed reply in the receive buffer is followed by zeros and validates. |
| BmsModel.Initial | lib/bms/bms.cpp:39-65 | The constructed state has both arrays at their fixed sizes. |
| BmsModel.InitialState | lib/bms/bms.cpp:39-65 | After construction: no protection flag, no fault, version 0.0, date 0/0/2000 (not the default), disabled, `comError` false and an empty name. |
| BmsModel.Begun | lib/bms/bms.cpp:67-74 | `begin` enables the connection. |
| BmsModel.Ended | lib/bms/bms.cpp:76-78 | `end` disables the connection. |
| BmsModel.TemperaturesDecoded | lib/bms/bms.cpp:297-299 | The temperature loop keeps both slots. |
| BmsModel.BalanceWord | lib/bms/bms.cpp:271 | The balance word is the big-endian word of bytes 18-19 times 65536 plus that of bytes 16-17. |
| BmsModel.BasicInfoParsed | lib/bms/bms.cpp:264-300 | A basic-info decode keeps the array sizes. |
| BmsModel.VoltagesDecoded | lib/bms/bms.cpp:322-326 | The voltage loop keeps all eight slots. |
| BmsModel.VoltagesParsed | lib/bms/bms.cpp:322-326 | A voltage decode keeps the array sizes. |
| BmsModel.NameDecoded | lib/bms/bms.cpp:346-351 | The name has exactly `buffer[3]` characters. |
| BmsModel.NameParsed | lib/bms/bms.cpp:346-351 | `parseNameResponse` replaces the name by one of exactly `buffer[3]` characters and changes no other field. |
| BmsModel.Verdict | lib/bms/bms.cpp:254-255 | A reply judged valid has at least four received bytes. |
| BmsModel.BasicInfoQueried | lib/bms/bms.cpp:244-262 | After the basic-info query, `comError` equals the validation verdict on the received bytes, and the array sizes are kept. |
| BmsModel.CellVoltagesQueried | lib/bms/bms.cpp:303-320 | After the cell-voltage query, `comError` equals the validation verdict, and the array sizes are kept. |
| BmsModel.NameQueried | lib/bms/bms.cpp:328-344 | After the name query, `comError` equals the validation verdict. |
| BmsModel.Polled | lib/bms/bms.cpp:80-88 | A poll keeps the array sizes. |
| BmsModel.FaultCountsCleared | lib/bms/bms.cpp:103-117 | All 13 counters become 0 and no other field changes. |
| BmsModel.MosfetControlSet | lib/bms/bms.cpp:130-131 | `setMosfetControl` changes only `comError`, which takes the verdict on a zeroed buffer with nothing received. |
| BmsModel.CellBalancing | lib/bms/bms.cpp:94-101 | No cell number above 31 is reported as balancing. |
| BmsProperties.WellFormedBasicInfoDiscarded | lib/bms/bms.cpp:255-260 | A well-formed basic-info reply sets `comError` to true and leaves every other field unchanged: it is never parsed. |
| BmsProperties.WellFormedVoltagesDiscarded | lib/bms/bms.cpp:314-319 | A well-formed cell-voltage reply sets `comError` to true and leaves every other field unchanged. |
| BmsProperties.WellFormedNameDiscarded | lib/bms/bms.cpp:338-343 | A well-formed name reply validates, sets `comError` to true, and is not stored as the name. |
| BmsProperties.ZeroBufferReadings | lib/bms/bms.cpp:265-271 | Decoding the all-zero buffer gives zero voltage, current, cycle count and balance word. |
| BmsProperties.ZeroBufferStatus | lib/bms/bms.cpp:270-290 | Decoding the all-zero buffer gives date 0/0/2000, no protection flag and version 0.0. |
| BmsProperties.ZeroBufferCounts | lib/bms/bms.cpp:294-299 | Decoding the all-zero buffer gives zero cells and zero sensors, and the temperature slots are left unchanged. |
| BmsProperties.TimeoutDecodesZeroBuffer | lib/bms/bms.cpp:252-260 | A basic-info read that receives nothing is judged invalid, leaves `comError` false, and decodes the all-zero buffer. |
| BmsProperties.TimeoutClearsVoltagesAndName | lib/bms/bms.cpp:312-351 | A voltage read that receives nothing zeroes the slots the stored cell count covers. A name read that receives nothing leaves the name empty. Both leave `comError` false. |
| BmsProperties.MosfetControlClearsComError | lib/bms/bms.cpp:130-131 | `setMosfetControl` sets `comError` to false and changes nothing else. |
| BmsProperties.PollWhileDisabledIsNoOp | lib/bms/bms.cpp:80-88 | A poll while disabled changes nothing. |
| BmsProperties.PollRunsNameQueryOnlyWhileNameEmpty | lib/bms/bms.cpp:80-88 | After an enabled poll, `comError` is the name query's verdict if no name was stored, and otherwise the cell-voltage query's verdict. A stored name is never replaced. |
| BmsProperties.PollAfterBeginDiscardsWellFormedReplies | lib/bms/bms.cpp:67-88 | After `begin`, a poll whose three reads are well-formed basic-info, cell-voltage and name replies stores none of them: the state is the begun one with `comError` set to true. |
| BmsProperties.CountsStoredUnclamped | lib/bms/bms.cpp:294-299 | Cell and sensor counts are stored as received. Exactly the first min(count, 2) temperature slots take the words from byte 27 on; the others keep their values. |
| BmsProperties.VoltageSlotsWritten | lib/bms/bms.cpp:322-326 | Exactly the first min(numCells, 8) voltage slots take the words from byte 4 on. Every other slot and every other field is unchanged. |
| BmsProperties.CurrentNeverNegative | lib/bms/bms.cpp:266 | The bytes FF FF decode as current 65535, not as a negative value. |
| BmsProperties.NameVerbatim | lib/bms/bms.cpp:346-351 | The name is the `buffer[3]` bytes starting at index 4, verbatim, and empty when `buffer[3]` is 0. |
| BmsProperties.FaultCountsFollowEdges | lib/bms/bms.cpp:272-288 | The decode saves the previous status and takes the new one from bytes 20-21. Counter k then moves by one, modulo 256, iff flag k went from false to true; otherwise it is unchanged. |
| BmsProperties.Decodes | lib/bms/bms.cpp:264-300 | A run of `parseBasicInfoResponse` calls, one per buffer, keeps the array sizes. |
| BmsProperties.StatusesOf | lib/bms/bms.cpp:272 | Status i of a run is the word in bytes 20-21 of buffer i, decoded. |
| BmsProperties.DecodesFoldFaultCounts | lib/bms/bms.cpp:272-288 | After a run of basic-info decodes, the connection's counters equal the counter fold over the statuses the buffers carry, started from the stored status and counters. |
| BmsProperties.DecodesCountRisingEdges | lib/bms/bms.cpp:272-288 | After a run of basic-info decodes, counter k has grown by the number of false-to-true changes of flag k along the stored status and the decoded ones, modulo 256. |
| BmsProperties.ClearedCountsCountRisingEdges | lib/bms/bms.cpp:103-117 | After `clearFaultCounts` and then a run of basic-info decodes, counter k equals the number of rising edges of flag k over those decodes, modulo 256. |
| BmsProperties.DecodedFaultEdgeExample | lib/bms/bms.cpp:272-288 | Decodes from clear counters whose overvoltage flag reads false, true, true, false, true leave that counter at 2. |
| BmsProperties.BalanceWordBits | lib/bms/bms.cpp:94-101 | Cells 0-15 read bytes 16-17 and cells 16-31 read bytes 18-19, each pair big-endian. No cell above 31 reads a bit. |
| BmsProperties.BalanceBitsByteOrder | lib/bms/bms.cpp:271 | The same byte order holds for the balance word of any decoded reply, whatever its cell count. |
| BmsProperties.InitialNotBalancing | lib/bms/bms.cpp:63 | After construction no cell is balancing. |
| BmsReplies.Words | lib/bms/bms.cpp:265-269 | A run of words encodes as two bytes each. |
| BmsReplies.WordsDecode | lib/bms/bms.cpp:265-269 | Reading word i big-endian from the encoded bytes gives back word i. |
| BmsReplies.FetByte | lib/bms/bms.cpp:292-293 | In the encoded FET byte, bit 0 is the charge flag and bit 1 the discharge flag. |
| BmsReplies.BasicInfoPayload | lib/bms/bms.cpp:265-299 | A basic-info payload has 23 bytes plus two per temperature, and fits the receive buffer. |
| BmsReplies.BasicInfoRoundTripReadings | lib/bms/bms.cpp:265-271 | The decoder reads back the voltage, current, both capacities, cycle count, production date and balance word of a well-formed reply. |
| BmsReplies.BasicInfoRoundTripStatus | lib/bms/bms.cpp:272-288 | The decoder reads back the protection status of a well-formed reply and saves the previous one. The counters move on the edges between the two. |
| BmsReplies.BasicInfoRoundTripFlags | lib/bms/bms.cpp:290-295 | The decoder reads back the version byte, charge level, both FET flags and both counts of a well-formed reply. |
| BmsReplies.BasicInfoRoundTripTemperatures | lib/bms/bms.cpp:297-299 | The decoder fills the first min(count, 2) temperature slots from a well-formed reply and keeps the rest. |
| BmsReplies.VoltagesRoundTrip | lib/bms/bms.cpp:322-326 | The decoder fills the first min(numCells, 8) voltage slots from a reply that carries at least that many words, and keeps the rest. |
| BmsReplies.Chars | lib/bms/bms.cpp:348-349 | A name has one character per byte. |
| BmsReplies.NameRoundTrip | lib/bms/bms.cpp:346-351 | The decoder stores exactly the name a well-formed reply carries. |
| BmsSession.Bms.constructor | lib/bms/bms.cpp:39-65 | The new object's state is `Initial()`, with fresh, distinct arrays. |
| BmsSession.Bms.Begin | lib/bms/bms.cpp:67-74 | Sets `isEnabled` and nothing else. |
| BmsSession.Bms.End | lib/bms/bms.cpp:76-78 | Clears `isEnabled` and nothing else. |
| BmsSession.Bms.HasComError | lib/bms/bms.cpp:90-92 | Reports the stored `comError` field of the state. |
| BmsSession.Bms.IsBalancing | lib/bms/bms.cpp:94-101 | Agrees with `CellBalancing` on the stored balance word. |
| BmsSession.Bms.ClearFaultCounts | lib/bms/bms.cpp:103-117 | The new state is `FaultCountsCleared` of the old one. |
| BmsSession.Bms.SetMosfetControl | lib/bms/bms.cpp:119-132 | Returns the completed nine-byte frame `MosfetFrame(charge, discharge)`; the state changes as `MosfetControlSet` says. |
| BmsSession.Bms.ParseBasicInfoResponse | lib/bms/bms.cpp:264-300 | The new state is `BasicInfoParsed` of the old state and the buffer. |
| BmsSession.Bms.ParseReadings | lib/bms/bms.cpp:265-271 | The five readings, the date and the balance word are set from bytes 4 to 19. |
| BmsSession.Bms.ParseProtection | lib/bms/bms.cpp:272-288 | The previous status is saved, the new status is decoded, and the counters take the edge step between the two. |
| BmsSession.Bms.ParseTail | lib/bms/bms.cpp:290-299 | Version, charge level, FET flags and counts are set from bytes 22 to 26, and the temperature slots are decoded. |
| BmsSession.Bms.DecodeTemperatures | lib/bms/bms.cpp:297-299 | After the loop the temperature array equals `TemperaturesDecoded` of its old contents. |
| BmsSession.Bms.ParseVoltagesResponse | lib/bms/bms.cpp:322-326 | The new state is `VoltagesParsed` of the old one. |
| BmsSession.Bms.ParseNameResponse | lib/bms/bms.cpp:346-351 | The new state is `NameParsed` of the old one. |
| BmsSession.Bms.QueryBasicInfo | lib/bms/bms.cpp:244-262 | The new state is `BasicInfoQueried` of the old state and the received bytes. |
| BmsSession.Bms.QueryCellVoltages | lib/bms/bms.cpp:303-320 | The new state is `CellVoltagesQueried` of the old one. |
| BmsSession.Bms.QueryBmsName | lib/bms/bms.cpp:328-344 | The new state is `NameQueried` of the old one. |
| BmsSession.Bms.Poll | lib/bms/bms.cpp:80-88 | The new state is `Polled` of the old state and the three reads. |

## Left out

- Float scaling: the `0.01f`, `0.001f` and `* 0.1f - 273.15f` conversions are left out. Every reading stays the raw 16-bit integer the reply carries.
- Serial transport: `setTimeout`, `availableForWrite`, `write` and `readBytesUntil` become the `received` parameter. The request frames the queries write are not modelled, since their template arrays are in a header that is not part of this model. The MOSFET frame is returned instead of written. `setMosfetControl` calls `serial->availableForWrite()`, and `serial` is null until `begin` (`src/bms.h:222`), so calling it before `begin` is undefined behaviour; `BmsSession.Bms.SetMosfetControl` and `MosfetControlClearsComError` do not model that and hold from construction on.
- `readBytesUntil` details: only its result is modelled, namely at most 64 bytes before the stop byte. A reply whose checksum or payload contains 0x77 is cut short by the real read; the model accepts whatever bytes are passed in.
- `debug()` only prints, so it is left out.
- `readValidResponse` is declared in `src/bms.h` but never defined.
- C and AVR undefined behaviour is not modelled. This covers the 16-bit `int` shifts by 16 and 24 at `bms.cpp:271`, the missing `return *this` in the assignment operators, and the uninitialised loop counters of the constructor. The arithmetic is modelled over mathematical integers as the expressions read, and the constructor stores the literal 0 in both arrays.
- Arduino `String` behaviour: the name is a `seq<char>`, one character per byte. A NUL byte and allocation failure are not modelled, and the empty test is `== []`.
- The thirteen named flags and counters are thirteen positions of one sequence. The named constants `SingleCellOvervoltage` … `SoftwareLockMos` give the declaration order.
- `BmsSession.Bms.ParseNameResponse`, `BmsModel.NameQueried`, `BmsModel.NameParsed`, `BmsSession.Bms.QueryBmsName`, `BmsSession.Bms.Poll`, `BmsModel.Polled`: these require `4 + buffer[3] <= 64` for a name reply that gets parsed (directly, or through `NameReplyFits` in `PollInputs`). The source trusts the length byte and would read past its buffer otherwise.
- `BmsProtocol.ValidateResponse`: this requires `2 <= bytesReceived` whenever the header matches. With one byte the source reads `buffer[-1]`. The queries always meet this, because the padded buffer's second byte is 0.
- `BmsSession.Bms.ParseBasicInfoResponse`: the body runs as three helper methods (`ParseReadings`, `ParseProtection`, `ParseTail`) in the source's order, not as one straight-line block.
- `BmsModel.Initial`: the initial temperature 0 copies the source's literal as a placeholder. Since temperatures are kept in raw deci-kelvin, it does not stand for the 0 °C the source's float array holds after construction (`src/bms.h:204`, `lib/bms/bms.cpp:53-55`); 0 °C is 2731.5 dK, which has no integer counterpart. The same holds for `BmsSession.Bms.constructor`.
- `src/main.cpp` and `src/page.h` are callers and web-page text, so they are not part of this model.
