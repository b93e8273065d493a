/** The state of one BMS connection as a value, and the effect of each of the
    connection's operations on it. The session class states each of its
    methods against these functions. Scaled quantities are kept in the raw
    units the BMS sends: centivolts, centiamps, centi-amp-hours, millivolts and
    deci-kelvin. */
module BmsModel {
  import opened Bytes
  import opened BmsTypes
  import opened BmsProtocol

  /** The fields of the connection: the decoded telemetry, the name, the fault
      counters and the private bookkeeping. */
  datatype BmsState = BmsState(
    totalVoltage: uint16,
    current: uint16,
    balanceCapacity: uint16,
    rateCapacity: uint16,
    cycleCount: uint16,
    productionDate: ProductionDate,
    protectionStatus: ProtectionStatus,
    softwareVersion: SoftwareVersion,
    stateOfCharge: uint8,
    isDischargeFetEnabled: bool,
    isChargeFetEnabled: bool,
    numCells: uint8,
    numTemperatureSensors: uint8,
    temperatures: seq<uint16>,
    cellVoltages: seq<uint16>,
    name: string,
    faultCounts: FaultCounts,
    isEnabled: bool,
    comError: bool,
    balanceStatus: uint32,
    lastProtectionStatus: ProtectionStatus)

  /** The fixed-size arrays keep their sizes. */
  predicate Valid(s: BmsState)
  {
    |s.temperatures| == NumTempSensors && |s.cellVoltages| == NumCells
  }

  /** What the constructor leaves: zeros everywhere, with the three bit-packed
      fields assigned the word 0, and disabled. The temperature zeros copy the
      constructor's literal; they do not stand for 0 degrees Celsius, which
      in deci-kelvin has no integer value. */
  function Initial(): (s: BmsState)
    ensures Valid(s)
  {
    BmsState(0, 0, 0, 0, 0,
             DecodeProductionDate(0), DecodeProtectionStatus(0), DecodeSoftwareVersion(0),
             0, false, false, 0, 0,
             seq(NumTempSensors, _ => 0), seq(NumCells, _ => 0), [],
             NoFaults, false, false, 0, DecodeProtectionStatus(0))
  }

  /** The constructed state reports no protection, no faults and version 0.0,
      but its date is day 0 of month 0, not the default 1/1/2000. */
  lemma InitialState()
    ensures Initial().protectionStatus == NoProtection
    ensures Initial().lastProtectionStatus == NoProtection
    ensures Initial().softwareVersion == DefaultSoftwareVersion
    ensures Initial().productionDate == ProductionDate(2000, 0, 0)
    ensures Initial().productionDate != DefaultProductionDate
    ensures Initial().faultCounts == NoFaults
    ensures !Initial().isEnabled && !Initial().comError && Initial().name == []
  {
    ProtectionStatusExamples();
  }

  // ---------------------------------------------------------------------------
  // Enabling

  function Begun(s: BmsState): (t: BmsState)
    ensures t.isEnabled
  {
    s.(isEnabled := true)
  }

  function Ended(s: BmsState): (t: BmsState)
    ensures !t.isEnabled
  {
    s.(isEnabled := false)
  }

  // ---------------------------------------------------------------------------
  // Decoders

  /** The basic-info parser reads bytes 0..26 and two bytes per temperature it
      stores. */
  predicate BasicInfoReadable(buffer: seq<uint8>)
  {
    27 <= |buffer| && 27 + 2 * Min(buffer[26], NumTempSensors) <= |buffer|
  }

  /** The first min(count, 2) temperature slots take the big-endian words from
      byte 27 on; the others keep their value. */
  function TemperaturesDecoded(temperatures: seq<uint16>, buffer: seq<uint8>): (r: seq<uint16>)
    requires |temperatures| == NumTempSensors && BasicInfoReadable(buffer)
    ensures |r| == NumTempSensors
  {
    seq(NumTempSensors, i requires 0 <= i < NumTempSensors =>
      if i < Min(buffer[26], NumTempSensors) then Word16(buffer[27 + 2 * i], buffer[28 + 2 * i])
      else temperatures[i])
  }

  /** The balance word as `parseBasicInfoResponse` assembles it from bytes 16..19. */
  function BalanceWord(b16: uint8, b17: uint8, b18: uint8, b19: uint8): (w: uint32)
    ensures w == Word16(b18, b19) * 0x1_0000 + Word16(b16, b17)
  {
    b16 * 0x100 + b17 + b18 * 0x100_0000 + b19 * 0x1_0000
  }

  /** `parseBasicInfoResponse`. */
  function BasicInfoParsed(s: BmsState, buffer: seq<uint8>): (t: BmsState)
    requires Valid(s) && BasicInfoReadable(buffer)
    ensures Valid(t)
  {
    var status := DecodeProtectionStatus(Word16(buffer[20], buffer[21]));
    s.(totalVoltage := Word16(buffer[4], buffer[5]),
       current := Word16(buffer[6], buffer[7]),
       balanceCapacity := Word16(buffer[8], buffer[9]),
       rateCapacity := Word16(buffer[10], buffer[11]),
       cycleCount := Word16(buffer[12], buffer[13]),
       productionDate := DecodeProductionDate(Word16(buffer[14], buffer[15])),
       balanceStatus := BalanceWord(buffer[16], buffer[17], buffer[18], buffer[19]),
       lastProtectionStatus := s.protectionStatus,
       protectionStatus := status,
       faultCounts := NextFaultCounts(s.protectionStatus, status, s.faultCounts),
       softwareVersion := DecodeSoftwareVersion(buffer[22]),
       stateOfCharge := buffer[23],
       isDischargeFetEnabled := Bit(buffer[24], 1),
       isChargeFetEnabled := Bit(buffer[24], 0),
       numCells := buffer[25],
       numTemperatureSensors := buffer[26],
       temperatures := TemperaturesDecoded(s.temperatures, buffer))
  }

  /** The voltage parser reads two bytes per cell slot it fills, from byte 4. */
  predicate VoltagesReadable(numCells: uint8, buffer: seq<uint8>)
  {
    4 + 2 * Min(numCells, NumCells) <= |buffer|
  }

  function VoltagesDecoded(cellVoltages: seq<uint16>, numCells: uint8, buffer: seq<uint8>): (r: seq<uint16>)
    requires |cellVoltages| == NumCells && VoltagesReadable(numCells, buffer)
    ensures |r| == NumCells
  {
    seq(NumCells, i requires 0 <= i < NumCells =>
      if i < Min(numCells, NumCells) then Word16(buffer[4 + 2 * i], buffer[5 + 2 * i])
      else cellVoltages[i])
  }

  /** `parseVoltagesResponse`: the slot count comes from the last basic-info
      decode, not from the reply. */
  function VoltagesParsed(s: BmsState, buffer: seq<uint8>): (t: BmsState)
    requires Valid(s) && VoltagesReadable(s.numCells, buffer)
    ensures Valid(t)
  {
    s.(cellVoltages := VoltagesDecoded(s.cellVoltages, s.numCells, buffer))
  }

  /** The name parser trusts the length byte: it reads `buffer[3]` bytes from
      index 4, and the buffer must hold them. */
  predicate NameReadable(buffer: seq<uint8>)
  {
    4 <= |buffer| && 4 + buffer[3] <= |buffer|
  }

  function NameDecoded(buffer: seq<uint8>): (name: string)
    requires NameReadable(buffer)
    ensures |name| == buffer[3]
  {
    seq(buffer[3], i requires 0 <= i < buffer[3] => buffer[4 + i] as char)
  }

  /** `parseNameResponse`. */
  function NameParsed(s: BmsState, buffer: seq<uint8>): (t: BmsState)
    requires NameReadable(buffer)
    ensures |t.name| == buffer[3]
    ensures t.(name := s.name) == s
  {
    s.(name := NameDecoded(buffer))
  }

  // ---------------------------------------------------------------------------
  // Queries

  /** The received bytes of a name reply that the parser could run on stay
      inside the 64-byte buffer. */
  predicate NameReplyFits(received: seq<uint8>)
  {
    |received| <= 3 || received[3] <= RxBufferSize - 4
  }

  /** The verdict of `validateResponse` on what a query received. */
  function Verdict(received: seq<uint8>, command: uint8): (valid: bool)
    requires |received| <= RxBufferSize && command != 0
    ensures valid ==> 4 <= |received|
  {
    ReceiveBufferCanValidate(received, command);
    ValidateResponse(ReceiveBuffer(received), command, |received|)
  }

  /** `queryBasicInfo`: `comError` takes the verdict, and the reply is parsed
      only when the verdict is false. */
  function BasicInfoQueried(s: BmsState, received: seq<uint8>): (t: BmsState)
    requires Valid(s) && |received| <= RxBufferSize
    ensures Valid(t) && t.comError == Verdict(received, CmdBasicSystemInfo)
  {
    var valid := Verdict(received, CmdBasicSystemInfo);
    var s' := s.(comError := valid);
    if valid then s' else BasicInfoParsed(s', ReceiveBuffer(received))
  }

  /** `queryCellVoltages`. */
  function CellVoltagesQueried(s: BmsState, received: seq<uint8>): (t: BmsState)
    requires Valid(s) && |received| <= RxBufferSize
    ensures Valid(t) && t.comError == Verdict(received, CmdCellVoltages)
  {
    var valid := Verdict(received, CmdCellVoltages);
    var s' := s.(comError := valid);
    if valid then s' else VoltagesParsed(s', ReceiveBuffer(received))
  }

  /** `queryBmsName`. */
  function NameQueried(s: BmsState, received: seq<uint8>): (t: BmsState)
    requires |received| <= RxBufferSize
    requires !Verdict(received, CmdName) ==> NameReplyFits(received)
    ensures t.comError == Verdict(received, CmdName)
  {
    var valid := Verdict(received, CmdName);
    var s' := s.(comError := valid);
    if valid then s' else NameParsed(s', ReceiveBuffer(received))
  }

  /** What `poll` may be given: three reads, and a name reply the parser can
      hold whenever the name query would parse it. */
  predicate PollInputs(s: BmsState, basicReply: seq<uint8>, cellReply: seq<uint8>, nameReply: seq<uint8>)
  {
    |basicReply| <= RxBufferSize && |cellReply| <= RxBufferSize && |nameReply| <= RxBufferSize &&
    (s.isEnabled && s.name == [] && !Verdict(nameReply, CmdName) ==> NameReplyFits(nameReply))
  }

  /** `poll`: nothing while disabled; otherwise basic info, then cell voltages,
      then the name while none has been stored. */
  function Polled(s: BmsState, basicReply: seq<uint8>, cellReply: seq<uint8>, nameReply: seq<uint8>): (t: BmsState)
    requires Valid(s) && PollInputs(s, basicReply, cellReply, nameReply)
    ensures Valid(t)
  {
    if !s.isEnabled then s
    else
      var s1 := BasicInfoQueried(s, basicReply);
      var s2 := CellVoltagesQueried(s1, cellReply);
      if s2.name == [] then NameQueried(s2, nameReply) else s2
  }

  // ---------------------------------------------------------------------------
  // Counters, MOSFET control, balancing

  /** `clearFaultCounts`: all thirteen counters to zero, nothing else touched. */
  function FaultCountsCleared(s: BmsState): (t: BmsState)
    ensures t.faultCounts == NoFaults
    ensures forall k :: 0 <= k < 13 ==> t.faultCounts.counts[k] == 0
    ensures t.(faultCounts := s.faultCounts) == s
  {
    s.(faultCounts := NoFaults)
  }

  /** The state change of `setMosfetControl`: the verdict on an empty read. */
  function MosfetControlSet(s: BmsState): (t: BmsState)
    ensures t.(comError := s.comError) == s
  {
    s.(comError := ValidateResponse(ReceiveBuffer([]), CmdCtlMosfet, 0))
  }

  /** `isBalancing`: only the bit index is bounded. */
  function CellBalancing(balanceStatus: uint32, cellNumber: uint8): (r: bool)
    ensures 31 < cellNumber ==> !r
  {
    if cellNumber <= 31 then Bit(balanceStatus, cellNumber) else false
  }
}
