/** Properties of the connection model: how the queries treat what they
    receive, what `poll` runs, the fault counters and the balance bits. */
module BmsProperties {
  import opened Bytes
  import opened BmsTypes
  import opened BmsProtocol
  import opened BmsModel

  // ---------------------------------------------------------------------------
  // Queries

  /** A well-formed basic-info reply is never parsed: it validates, `comError`
      becomes true and every telemetry field keeps its old value. */
  lemma WellFormedBasicInfoDiscarded(s: BmsState, payload: seq<uint8>)
    requires Valid(s) && |payload| <= RxBufferSize - 6
    ensures BasicInfoQueried(s, ResponseFrame(CmdBasicSystemInfo, payload)) == s.(comError := true)
  {
    ReceiveBufferOfFrame(CmdBasicSystemInfo, payload);
  }

  /** The same holds for a well-formed cell-voltage reply. */
  lemma WellFormedVoltagesDiscarded(s: BmsState, payload: seq<uint8>)
    requires Valid(s) && |payload| <= RxBufferSize - 6
    ensures CellVoltagesQueried(s, ResponseFrame(CmdCellVoltages, payload)) == s.(comError := true)
  {
    ReceiveBufferOfFrame(CmdCellVoltages, payload);
  }

  /** And for a well-formed name reply: the name is not stored. */
  lemma WellFormedNameDiscarded(s: BmsState, payload: seq<uint8>)
    requires |payload| <= RxBufferSize - 6
    ensures Verdict(ResponseFrame(CmdName, payload), CmdName)
    ensures NameQueried(s, ResponseFrame(CmdName, payload)) == s.(comError := true)
  {
    ReceiveBufferOfFrame(CmdName, payload);
  }

  /** The all-zero 64-byte buffer. */
  predicate AllZero(zeros: seq<uint8>)
  {
    |zeros| == RxBufferSize && forall i :: 0 <= i < |zeros| ==> zeros[i] == 0
  }

  /** The all-zero buffer decodes to zero readings and no balancing. */
  lemma ZeroBufferReadings(s: BmsState, zeros: seq<uint8>)
    requires Valid(s) && AllZero(zeros)
    ensures BasicInfoParsed(s, zeros).totalVoltage == 0 && BasicInfoParsed(s, zeros).current == 0
    ensures BasicInfoParsed(s, zeros).cycleCount == 0 && BasicInfoParsed(s, zeros).balanceStatus == 0
  {
    var t := BasicInfoParsed(s, zeros);
    assert zeros[4] == 0 && zeros[5] == 0 && zeros[6] == 0 && zeros[7] == 0;
    assert zeros[12] == 0 && zeros[13] == 0;
    assert zeros[16] == 0 && zeros[17] == 0 && zeros[18] == 0 && zeros[19] == 0;
    assert t.totalVoltage == Word16(zeros[4], zeros[5]) == 0;
    assert t.current == Word16(zeros[6], zeros[7]) == 0;
    assert t.cycleCount == Word16(zeros[12], zeros[13]) == 0;
    assert t.balanceStatus == BalanceWord(zeros[16], zeros[17], zeros[18], zeros[19]) == 0;
  }

  /** It decodes to the date day 0 of month 0 of 2000, no protection flag and
      version 0.0. */
  lemma ZeroBufferStatus(s: BmsState, zeros: seq<uint8>)
    requires Valid(s) && AllZero(zeros)
    ensures BasicInfoParsed(s, zeros).productionDate == ProductionDate(2000, 0, 0)
    ensures BasicInfoParsed(s, zeros).protectionStatus == NoProtection
    ensures BasicInfoParsed(s, zeros).softwareVersion == DefaultSoftwareVersion
  {
    assert zeros[14] == 0 && zeros[15] == 0;
    assert zeros[20] == 0 && zeros[21] == 0 && zeros[22] == 0;
    ProtectionStatusExamples();
  }

  /** It stores zero cells and zero sensors, so no temperature slot is written. */
  lemma ZeroBufferCounts(s: BmsState, zeros: seq<uint8>)
    requires Valid(s) && AllZero(zeros)
    ensures BasicInfoParsed(s, zeros).numCells == 0 && BasicInfoParsed(s, zeros).numTemperatureSensors == 0
    ensures BasicInfoParsed(s, zeros).temperatures == s.temperatures
  {
    assert zeros[25] == 0 && zeros[26] == 0;
    assert BasicInfoParsed(s, zeros).temperatures == s.temperatures;
  }

  /** A read that times out with nothing received is not valid, so the parser
      runs on the all-zero buffer and `comError` is false. */
  lemma TimeoutDecodesZeroBuffer(s: BmsState, received: seq<uint8>)
    requires Valid(s) && |received| == 0
    ensures !BasicInfoQueried(s, received).comError
    ensures BasicInfoQueried(s, received) == BasicInfoParsed(s.(comError := false), ReceiveBuffer(received))
    ensures AllZero(ReceiveBuffer(received))
  {
  }

  /** A timed-out voltage read zeroes the slots the last cell count covers; a
      timed-out name read leaves the name empty. */
  lemma TimeoutClearsVoltagesAndName(s: BmsState, received: seq<uint8>)
    requires Valid(s) && |received| == 0
    ensures !CellVoltagesQueried(s, received).comError
    ensures forall i :: 0 <= i < Min(s.numCells, NumCells) ==> CellVoltagesQueried(s, received).cellVoltages[i] == 0
    ensures !NameQueried(s, received).comError && NameQueried(s, received).name == []
  {
  }

  /** `setMosfetControl` validates an empty read, so it always clears
      `comError` and changes nothing else. */
  lemma MosfetControlClearsComError(s: BmsState)
    ensures MosfetControlSet(s) == s.(comError := false)
  {
  }

  // ---------------------------------------------------------------------------
  // Poll

  /** `poll` does nothing while the connection is disabled, in particular
      after `end`. */
  lemma PollWhileDisabledIsNoOp(s: BmsState, basicReply: seq<uint8>, cellReply: seq<uint8>, nameReply: seq<uint8>)
    requires Valid(s) && PollInputs(s, basicReply, cellReply, nameReply) && !s.isEnabled
    ensures Polled(s, basicReply, cellReply, nameReply) == s
  {
  }

  /** An enabled poll leaves in `comError` the verdict of its last query: the
      name query while no name is stored, the cell-voltage query once one is;
      a stored name is never replaced. */
  lemma PollRunsNameQueryOnlyWhileNameEmpty(s: BmsState, basicReply: seq<uint8>, cellReply: seq<uint8>, nameReply: seq<uint8>)
    requires Valid(s) && PollInputs(s, basicReply, cellReply, nameReply) && s.isEnabled
    ensures var t := Polled(s, basicReply, cellReply, nameReply);
      t.comError == (if s.name == [] then Verdict(nameReply, CmdName) else Verdict(cellReply, CmdCellVoltages))
    ensures s.name != [] ==> Polled(s, basicReply, cellReply, nameReply).name == s.name
  {
    var s1 := BasicInfoQueried(s, basicReply);
    var s2 := CellVoltagesQueried(s1, cellReply);
    assert s2.name == s.name;
  }

  /** After `begin`, a poll that receives three well-formed replies stores
      none of them: it only sets `comError`. */
  lemma PollAfterBeginDiscardsWellFormedReplies(s: BmsState, basicPayload: seq<uint8>, cellPayload: seq<uint8>, namePayload: seq<uint8>)
    requires Valid(s)
    requires |basicPayload| <= RxBufferSize - 6 && |cellPayload| <= RxBufferSize - 6 && |namePayload| <= RxBufferSize - 6
    ensures PollInputs(Begun(s), ResponseFrame(CmdBasicSystemInfo, basicPayload),
      ResponseFrame(CmdCellVoltages, cellPayload), ResponseFrame(CmdName, namePayload))
    ensures Polled(Begun(s), ResponseFrame(CmdBasicSystemInfo, basicPayload),
      ResponseFrame(CmdCellVoltages, cellPayload), ResponseFrame(CmdName, namePayload))
        == Begun(s).(comError := true)
  {
    var s1 := Begun(s);
    WellFormedBasicInfoDiscarded(s1, basicPayload);
    WellFormedVoltagesDiscarded(s1.(comError := true), cellPayload);
    WellFormedNameDiscarded(s1.(comError := true), namePayload);
  }

  // ---------------------------------------------------------------------------
  // Decoded fields

  /** The decoded counts are stored as received; only the loops clamp them, so
      exactly the first min(count, 2) temperature slots are written. */
  lemma CountsStoredUnclamped(s: BmsState, buffer: seq<uint8>)
    requires Valid(s) && BasicInfoReadable(buffer)
    ensures BasicInfoParsed(s, buffer).numCells == buffer[25]
    ensures BasicInfoParsed(s, buffer).numTemperatureSensors == buffer[26]
    ensures forall i :: 0 <= i < NumTempSensors ==>
      BasicInfoParsed(s, buffer).temperatures[i]
        == if i < Min(buffer[26], NumTempSensors) then Word16(buffer[27 + 2 * i], buffer[28 + 2 * i])
           else s.temperatures[i]
  {
  }

  /** The voltage parser writes exactly the first min(numCells, 8) slots and
      nothing else. */
  lemma VoltageSlotsWritten(s: BmsState, buffer: seq<uint8>)
    requires Valid(s) && VoltagesReadable(s.numCells, buffer)
    ensures forall i :: 0 <= i < NumCells ==>
      VoltagesParsed(s, buffer).cellVoltages[i]
        == if i < Min(s.numCells, NumCells) then Word16(buffer[4 + 2 * i], buffer[5 + 2 * i])
           else s.cellVoltages[i]
    ensures VoltagesParsed(s, buffer).(cellVoltages := s.cellVoltages) == s
  {
  }

  /** The current is decoded as an unsigned word: the bytes FF FF read as
      65535 centiamps, never as a discharge current. */
  lemma CurrentNeverNegative(s: BmsState, buffer: seq<uint8>)
    requires Valid(s) && BasicInfoReadable(buffer)
    requires buffer[6] == 0xFF && buffer[7] == 0xFF
    ensures BasicInfoParsed(s, buffer).current == 0xFFFF
  {
  }

  /** The name is the `buffer[3]` bytes from index 4, verbatim, and empty when
      the length byte is 0. */
  lemma NameVerbatim(s: BmsState, buffer: seq<uint8>)
    requires NameReadable(buffer)
    ensures |NameParsed(s, buffer).name| == buffer[3]
    ensures forall i :: 0 <= i < buffer[3] ==> NameParsed(s, buffer).name[i] as int == buffer[4 + i]
    ensures buffer[3] == 0 ==> NameParsed(s, buffer).name == []
  {
  }

  // ---------------------------------------------------------------------------
  // Fault counters

  /** A basic-info decode first saves the previous status, then moves each
      counter by one, modulo 256, exactly when its flag rose. */
  lemma FaultCountsFollowEdges(s: BmsState, buffer: seq<uint8>, k: nat)
    requires Valid(s) && BasicInfoReadable(buffer) && k < 13
    ensures BasicInfoParsed(s, buffer).lastProtectionStatus == s.protectionStatus
    ensures BasicInfoParsed(s, buffer).protectionStatus == DecodeProtectionStatus(Word16(buffer[20], buffer[21]))
    ensures BasicInfoParsed(s, buffer).faultCounts.counts[k]
         == if !s.protectionStatus.flags[k] && BasicInfoParsed(s, buffer).protectionStatus.flags[k]
            then Increment(s.faultCounts.counts[k])
            else s.faultCounts.counts[k]
  {
  }

  /** A run of basic-info buffers every one of which the parser can read. */
  predicate AllBasicInfoReadable(buffers: seq<seq<uint8>>)
  {
    forall i :: 0 <= i < |buffers| ==> BasicInfoReadable(buffers[i])
  }

  /** The state after `parseBasicInfoResponse` has run on each buffer in turn. */
  function Decodes(s: BmsState, buffers: seq<seq<uint8>>): (t: BmsState)
    requires Valid(s) && AllBasicInfoReadable(buffers)
    ensures Valid(t)
    decreases |buffers|
  {
    if buffers == [] then s else Decodes(BasicInfoParsed(s, buffers[0]), buffers[1..])
  }

  /** The protection statuses a run of buffers carries in bytes 20 and 21. */
  function StatusesOf(buffers: seq<seq<uint8>>): (r: seq<ProtectionStatus>)
    requires AllBasicInfoReadable(buffers)
    ensures |r| == |buffers|
    ensures forall i :: 0 <= i < |buffers| ==>
      r[i] == DecodeProtectionStatus(Word16(buffers[i][20], buffers[i][21]))
  {
    seq(|buffers|, i requires 0 <= i < |buffers| =>
      DecodeProtectionStatus(Word16(buffers[i][20], buffers[i][21])))
  }

  /** Over a run of decodes, the connection's counters are the counter fold
      over the statuses the buffers carry, started from the stored status. */
  lemma {:induction false} DecodesFoldFaultCounts(s: BmsState, buffers: seq<seq<uint8>>)
    requires Valid(s) && AllBasicInfoReadable(buffers)
    ensures Decodes(s, buffers).faultCounts == CountsAfter(s.protectionStatus, StatusesOf(buffers), s.faultCounts)
    decreases |buffers|
  {
    if buffers != [] {
      assert StatusesOf(buffers)[1..] == StatusesOf(buffers[1..]);
      DecodesFoldFaultCounts(BasicInfoParsed(s, buffers[0]), buffers[1..]);
    }
  }

  /** Over a run of decodes, counter k grows by the number of rising edges of
      flag k, modulo 256. */
  lemma DecodesCountRisingEdges(s: BmsState, buffers: seq<seq<uint8>>, k: nat)
    requires Valid(s) && AllBasicInfoReadable(buffers) && k < 13
    ensures Decodes(s, buffers).faultCounts.counts[k]
         == (s.faultCounts.counts[k] + RisingEdges(k, s.protectionStatus, StatusesOf(buffers))) % 0x100
  {
    DecodesFoldFaultCounts(s, buffers);
    CountsAfterCountsRisingEdges(k, s.protectionStatus, StatusesOf(buffers), s.faultCounts);
  }

  /** After a reset, counter k holds the number of rising edges of flag k over
      the decodes since, modulo 256. */
  lemma ClearedCountsCountRisingEdges(s: BmsState, buffers: seq<seq<uint8>>, k: nat)
    requires Valid(s) && AllBasicInfoReadable(buffers) && k < 13
    ensures Decodes(FaultCountsCleared(s), buffers).faultCounts.counts[k]
         == RisingEdges(k, s.protectionStatus, StatusesOf(buffers)) % 0x100
  {
    DecodesCountRisingEdges(FaultCountsCleared(s), buffers, k);
  }

  /** Decodes from clear counters whose single-cell overvoltage flag reads
      false, true, true, false, true leave that counter at 2. */
  lemma DecodedFaultEdgeExample(s: BmsState, buffers: seq<seq<uint8>>)
    requires Valid(s) && AllBasicInfoReadable(buffers)
    requires s.protectionStatus == NoProtection && s.faultCounts == NoFaults
    requires StatusesOf(buffers) == [NoProtection, DecodeProtectionStatus(1), DecodeProtectionStatus(1),
                                     NoProtection, DecodeProtectionStatus(1)]
    ensures Decodes(s, buffers).faultCounts.counts[SingleCellOvervoltage] == 2
  {
    DecodesCountRisingEdges(s, buffers, SingleCellOvervoltage);
    FaultEdgeExamples();
    CountsAfterCountsRisingEdges(SingleCellOvervoltage, NoProtection, StatusesOf(buffers), NoFaults);
  }

  // ---------------------------------------------------------------------------
  // Balancing

  /** Cells 0..15 are read from bytes 16 and 17 and cells 16..31 from bytes 18
      and 19, each pair big-endian; nothing above 31 balances. */
  lemma BalanceWordBits(b16: uint8, b17: uint8, b18: uint8, b19: uint8, cellNumber: uint8)
    ensures CellBalancing(BalanceWord(b16, b17, b18, b19), cellNumber)
         == if cellNumber < 16 then Bit(Word16(b16, b17), cellNumber)
            else if cellNumber <= 31 then Bit(Word16(b18, b19), cellNumber - 16)
            else false
  {
    Pow2Sixteen();
    BitOfConcat(Word16(b18, b19), Word16(b16, b17), 16, cellNumber);
  }

  /** The balance bits of a decoded reply, whatever the number of cells. */
  lemma BalanceBitsByteOrder(s: BmsState, buffer: seq<uint8>, cellNumber: uint8)
    requires Valid(s) && BasicInfoReadable(buffer)
    ensures CellBalancing(BasicInfoParsed(s, buffer).balanceStatus, cellNumber)
         == if cellNumber < 16 then Bit(Word16(buffer[16], buffer[17]), cellNumber)
            else if cellNumber <= 31 then Bit(Word16(buffer[18], buffer[19]), cellNumber - 16)
            else false
  {
    BalanceWordBits(buffer[16], buffer[17], buffer[18], buffer[19], cellNumber);
  }

  /** A freshly constructed connection reports no cell as balancing. */
  lemma InitialNotBalancing(cellNumber: uint8)
    ensures !CellBalancing(Initial().balanceStatus, cellNumber)
  {
    BitAboveWidth(0, 0, cellNumber);
  }
}
