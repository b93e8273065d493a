/** The replies a BMS sends, built from the readings they carry, and the round
    trips through the three parsers: a reply laid into the receive buffer is
    decoded back to its readings. */
module BmsReplies {
  import opened Bytes
  import opened BmsTypes
  import opened BmsProtocol
  import opened BmsModel

  /** A run of 16-bit words, each sent big-endian. */
  function Words(ws: seq<uint16>): (bytes: seq<uint8>)
    ensures |bytes| == 2 * |ws|
  {
    if ws == [] then [] else [ws[0] / 0x100, ws[0] % 0x100] + Words(ws[1..])
  }

  lemma {:induction false} WordsDecode(ws: seq<uint16>, i: nat)
    requires i < |ws|
    ensures Word16(Words(ws)[2 * i], Words(ws)[2 * i + 1]) == ws[i]
  {
    if i > 0 {
      WordsDecode(ws[1..], i - 1);
      assert Words(ws)[2 * i] == Words(ws[1..])[2 * (i - 1)];
      assert Words(ws)[2 * i + 1] == Words(ws[1..])[2 * (i - 1) + 1];
    }
  }

  /** Byte `4 + i` of a reply in the receive buffer is byte `i` of its payload,
      and byte 3 is the payload length. */
  lemma PayloadInBuffer(command: uint8, payload: seq<uint8>)
    requires |payload| <= RxBufferSize - 6
    ensures ReceiveBuffer(ResponseFrame(command, payload))[3] == |payload|
    ensures forall i :: 0 <= i < |payload| ==> ReceiveBuffer(ResponseFrame(command, payload))[4 + i] == payload[i]
  {
    var frame := ResponseFrame(command, payload);
    assert ReceiveBuffer(frame)[..|frame|] == frame;
    forall i | 0 <= i < |payload|
      ensures ReceiveBuffer(frame)[4 + i] == payload[i]
    {
      assert frame[4 + i] == payload[i];
    }
  }

  // ---------------------------------------------------------------------------
  // Basic info

  /** The readings of a basic-info reply. */
  datatype BasicInfo = BasicInfo(
    totalVoltage: uint16,
    current: uint16,
    balanceCapacity: uint16,
    rateCapacity: uint16,
    cycleCount: uint16,
    productionDate: ProductionDate,
    balanceStatus: uint32,
    protectionStatus: ProtectionStatus,
    softwareVersion: uint8,
    stateOfCharge: uint8,
    chargeFet: bool,
    dischargeFet: bool,
    numCells: uint8,
    temperatures: seq<uint16>)

  /** Readings a reply can carry: a date the packing holds, and no more sensors
      than fit in the 64-byte buffer. */
  predicate Sendable(r: BasicInfo)
  {
    DateInRange(r.productionDate) && |r.temperatures| <= 17
  }

  /** The FET byte: bit 0 for charge, bit 1 for discharge. */
  function FetByte(charge: bool, discharge: bool): (b: uint8)
    ensures Bit(b, 0) == charge && Bit(b, 1) == discharge
  {
    (if charge then 1 else 0) + (if discharge then 2 else 0)
  }

  /** The nine big-endian words at the head of the payload. */
  function HeadWords(r: BasicInfo): (ws: seq<uint16>)
    requires Sendable(r)
    ensures |ws| == 9
  {
    PackedDateDecodes(r.productionDate);
    [r.totalVoltage, r.current, r.balanceCapacity, r.rateCapacity, r.cycleCount,
     PackedDate(r.productionDate), r.balanceStatus % 0x1_0000, r.balanceStatus / 0x1_0000,
     StatusWord(r.protectionStatus)]
  }

  /** The payload of a basic-info reply, in the order the parser reads it. */
  function BasicInfoPayload(r: BasicInfo): (payload: seq<uint8>)
    requires Sendable(r)
    ensures |payload| == 23 + 2 * |r.temperatures| <= RxBufferSize - 6
  {
    Words(HeadWords(r))
      + [r.softwareVersion, r.stateOfCharge, FetByte(r.chargeFet, r.dischargeFet),
         r.numCells, |r.temperatures|]
      + Words(r.temperatures)
  }

  /** The balance word reassembled from its low and high halves. */
  lemma BalanceWordOfHalves(balance: uint32, lo: seq<uint8>, hi: seq<uint8>)
    requires |lo| == 2 && |hi| == 2
    requires Word16(lo[0], lo[1]) == balance % 0x1_0000
    requires Word16(hi[0], hi[1]) == balance / 0x1_0000
    ensures BalanceWord(lo[0], lo[1], hi[0], hi[1]) == balance
  {
  }

  /** The readings of the payload's head, as they sit in the buffer. */
  lemma HeadWordsInBuffer(r: BasicInfo, buffer: seq<uint8>, k: nat)
    requires Sendable(r) && k < 9
    requires |buffer| >= 4 + |BasicInfoPayload(r)|
    requires forall i :: 0 <= i < |BasicInfoPayload(r)| ==> buffer[4 + i] == BasicInfoPayload(r)[i]
    ensures Word16(buffer[4 + 2 * k], buffer[5 + 2 * k]) == HeadWords(r)[k]
  {
    var p := BasicInfoPayload(r);
    assert p[2 * k] == Words(HeadWords(r))[2 * k];
    assert p[2 * k + 1] == Words(HeadWords(r))[2 * k + 1];
    WordsDecode(HeadWords(r), k);
  }

  /** The temperatures of the payload, as they sit in the buffer. */
  lemma TemperatureInBuffer(r: BasicInfo, buffer: seq<uint8>, k: nat)
    requires Sendable(r) && k < |r.temperatures|
    requires |buffer| >= 4 + |BasicInfoPayload(r)|
    requires forall i :: 0 <= i < |BasicInfoPayload(r)| ==> buffer[4 + i] == BasicInfoPayload(r)[i]
    ensures Word16(buffer[27 + 2 * k], buffer[28 + 2 * k]) == r.temperatures[k]
  {
    var p := BasicInfoPayload(r);
    assert p[23 + 2 * k] == Words(r.temperatures)[2 * k];
    assert p[23 + 2 * k + 1] == Words(r.temperatures)[2 * k + 1];
    WordsDecode(r.temperatures, k);
  }

  /** The parser reads back the telemetry of a well-formed basic-info reply. */
  lemma BasicInfoRoundTripReadings(s: BmsState, r: BasicInfo, buffer: seq<uint8>)
    requires Valid(s) && Sendable(r)
    requires buffer == ReceiveBuffer(ResponseFrame(CmdBasicSystemInfo, BasicInfoPayload(r)))
    ensures BasicInfoReadable(buffer)
    ensures BasicInfoParsed(s, buffer).totalVoltage == r.totalVoltage
    ensures BasicInfoParsed(s, buffer).current == r.current
    ensures BasicInfoParsed(s, buffer).balanceCapacity == r.balanceCapacity
    ensures BasicInfoParsed(s, buffer).rateCapacity == r.rateCapacity
    ensures BasicInfoParsed(s, buffer).cycleCount == r.cycleCount
    ensures BasicInfoParsed(s, buffer).productionDate == r.productionDate
    ensures BasicInfoParsed(s, buffer).balanceStatus == r.balanceStatus
  {
    var p := BasicInfoPayload(r);
    PayloadInBuffer(CmdBasicSystemInfo, p);
    assert buffer[26] == |r.temperatures|;
    HeadWordsInBuffer(r, buffer, 0);
    HeadWordsInBuffer(r, buffer, 1);
    HeadWordsInBuffer(r, buffer, 2);
    HeadWordsInBuffer(r, buffer, 3);
    HeadWordsInBuffer(r, buffer, 4);
    HeadWordsInBuffer(r, buffer, 5);
    HeadWordsInBuffer(r, buffer, 6);
    HeadWordsInBuffer(r, buffer, 7);
    PackedDateDecodes(r.productionDate);
    BalanceWordOfHalves(r.balanceStatus, buffer[16..18], buffer[18..20]);
  }

  /** The parser reads back the protection status of a well-formed
      basic-info reply, keeps the previous one, and moves the fault counters
      on the edges between the two. */
  lemma BasicInfoRoundTripStatus(s: BmsState, r: BasicInfo, buffer: seq<uint8>)
    requires Valid(s) && Sendable(r)
    requires buffer == ReceiveBuffer(ResponseFrame(CmdBasicSystemInfo, BasicInfoPayload(r)))
    ensures BasicInfoReadable(buffer)
    ensures BasicInfoParsed(s, buffer).protectionStatus == r.protectionStatus
    ensures BasicInfoParsed(s, buffer).lastProtectionStatus == s.protectionStatus
    ensures BasicInfoParsed(s, buffer).faultCounts == NextFaultCounts(s.protectionStatus, r.protectionStatus, s.faultCounts)
  {
    var p := BasicInfoPayload(r);
    PayloadInBuffer(CmdBasicSystemInfo, p);
    assert buffer[26] == |r.temperatures|;
    HeadWordsInBuffer(r, buffer, 8);
  }

  /** The parser reads back the version, the charge, the FET flags and the
      two counts of a well-formed basic-info reply. */
  lemma BasicInfoRoundTripFlags(s: BmsState, r: BasicInfo, buffer: seq<uint8>)
    requires Valid(s) && Sendable(r)
    requires buffer == ReceiveBuffer(ResponseFrame(CmdBasicSystemInfo, BasicInfoPayload(r)))
    ensures BasicInfoReadable(buffer)
    ensures BasicInfoParsed(s, buffer).softwareVersion == DecodeSoftwareVersion(r.softwareVersion)
    ensures BasicInfoParsed(s, buffer).stateOfCharge == r.stateOfCharge
    ensures BasicInfoParsed(s, buffer).isChargeFetEnabled == r.chargeFet
    ensures BasicInfoParsed(s, buffer).isDischargeFetEnabled == r.dischargeFet
    ensures BasicInfoParsed(s, buffer).numCells == r.numCells
    ensures BasicInfoParsed(s, buffer).numTemperatureSensors == |r.temperatures|
  {
    var p := BasicInfoPayload(r);
    PayloadInBuffer(CmdBasicSystemInfo, p);
    assert buffer[22] == r.softwareVersion && buffer[23] == r.stateOfCharge;
    assert buffer[24] == FetByte(r.chargeFet, r.dischargeFet);
    assert buffer[25] == r.numCells && buffer[26] == |r.temperatures|;
  }

  /** The parser fills the first min(count, 2) temperature slots from a
      well-formed basic-info reply and leaves the others. */
  lemma BasicInfoRoundTripTemperatures(s: BmsState, r: BasicInfo, buffer: seq<uint8>)
    requires Valid(s) && Sendable(r)
    requires buffer == ReceiveBuffer(ResponseFrame(CmdBasicSystemInfo, BasicInfoPayload(r)))
    ensures BasicInfoReadable(buffer)
    ensures forall i :: 0 <= i < NumTempSensors ==>
      BasicInfoParsed(s, buffer).temperatures[i]
        == if i < |r.temperatures| then r.temperatures[i] else s.temperatures[i]
  {
    var p := BasicInfoPayload(r);
    PayloadInBuffer(CmdBasicSystemInfo, p);
    assert buffer[26] == |r.temperatures|;
    forall i | 0 <= i < NumTempSensors && i < |r.temperatures|
      ensures Word16(buffer[27 + 2 * i], buffer[28 + 2 * i]) == r.temperatures[i]
    {
      TemperatureInBuffer(r, buffer, i);
    }
    assert BasicInfoParsed(s, buffer).temperatures == TemperaturesDecoded(s.temperatures, buffer);
  }

  /** Voltage word `k` of a reply, as it sits in the buffer. */
  lemma VoltageInBuffer(voltages: seq<uint16>, buffer: seq<uint8>, k: nat)
    requires k < |voltages| && |buffer| >= 4 + 2 * |voltages|
    requires forall i :: 0 <= i < 2 * |voltages| ==> buffer[4 + i] == Words(voltages)[i]
    ensures Word16(buffer[4 + 2 * k], buffer[5 + 2 * k]) == voltages[k]
  {
    assert buffer[4 + 2 * k] == Words(voltages)[2 * k];
    assert buffer[4 + (2 * k + 1)] == Words(voltages)[2 * k + 1];
    WordsDecode(voltages, k);
  }

  /** The voltage parser on a buffer holding the words from byte 4. */
  lemma VoltagesDecodeWords(s: BmsState, buffer: seq<uint8>, voltages: seq<uint16>)
    requires Valid(s) && Min(s.numCells, NumCells) <= |voltages| && |buffer| >= 4 + 2 * |voltages|
    requires forall i :: 0 <= i < 2 * |voltages| ==> buffer[4 + i] == Words(voltages)[i]
    ensures VoltagesReadable(s.numCells, buffer)
    ensures forall i :: 0 <= i < NumCells ==>
      VoltagesParsed(s, buffer).cellVoltages[i]
        == if i < Min(s.numCells, NumCells) then voltages[i] else s.cellVoltages[i]
  {
    forall i | 0 <= i < Min(s.numCells, NumCells)
      ensures Word16(buffer[4 + 2 * i], buffer[5 + 2 * i]) == voltages[i]
    {
      VoltageInBuffer(voltages, buffer, i);
    }
  }

  /** The parser fills the first min(numCells, 8) voltage slots from a reply
      carrying at least that many words, and leaves the others. */
  lemma VoltagesRoundTrip(s: BmsState, voltages: seq<uint16>)
    requires Valid(s) && Min(s.numCells, NumCells) <= |voltages| <= 29
    ensures VoltagesReadable(s.numCells, ReceiveBuffer(ResponseFrame(CmdCellVoltages, Words(voltages))))
    ensures forall i :: 0 <= i < NumCells ==>
      VoltagesParsed(s, ReceiveBuffer(ResponseFrame(CmdCellVoltages, Words(voltages)))).cellVoltages[i]
        == if i < Min(s.numCells, NumCells) then voltages[i] else s.cellVoltages[i]
  {
    PayloadInBuffer(CmdCellVoltages, Words(voltages));
    VoltagesDecodeWords(s, ReceiveBuffer(ResponseFrame(CmdCellVoltages, Words(voltages))), voltages);
  }

  /** The bytes of a name, one character each. */
  function Chars(bytes: seq<uint8>): (name: string)
    ensures |name| == |bytes|
  {
    seq(|bytes|, i requires 0 <= i < |bytes| => bytes[i] as char)
  }

  /** The parser stores exactly the name a well-formed reply carries. */
  lemma NameRoundTrip(s: BmsState, bytes: seq<uint8>)
    requires |bytes| <= RxBufferSize - 6
    ensures NameReadable(ReceiveBuffer(ResponseFrame(CmdName, bytes)))
    ensures NameParsed(s, ReceiveBuffer(ResponseFrame(CmdName, bytes))).name == Chars(bytes)
  {
    PayloadInBuffer(CmdName, bytes);
    assert NameDecoded(ReceiveBuffer(ResponseFrame(CmdName, bytes))) == Chars(bytes);
  }
}
