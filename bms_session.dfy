/** The `BMS` class: the fields it updates in place and its operations, each
    stated against the value model of the connection. The serial port is an
    input: every query takes the bytes that its read placed in the receive
    buffer. */
module BmsSession {
  import opened Bytes
  import opened BmsTypes
  import opened BmsProtocol
  import opened BmsModel

  class Bms {
    var totalVoltage: uint16
    var current: uint16
    var balanceCapacity: uint16
    var rateCapacity: uint16
    var cycleCount: uint16
    var productionDate: ProductionDate
    var protectionStatus: ProtectionStatus
    var softwareVersion: SoftwareVersion
    var stateOfCharge: uint8
    var isDischargeFetEnabled: bool
    var isChargeFetEnabled: bool
    var numCells: uint8
    var numTemperatureSensors: uint8
    const temperatures: array<uint16>
    const cellVoltages: array<uint16>
    var name: string
    var faultCounts: FaultCounts
    var isEnabled: bool
    var comError: bool
    var balanceStatus: uint32
    var lastProtectionStatus: ProtectionStatus

    /** The two fixed-size arrays have their sizes and are distinct. */
    predicate Valid()
    {
      temperatures.Length == NumTempSensors && cellVoltages.Length == NumCells &&
      temperatures != cellVoltages
    }

    /** The object's state as a value. */
    ghost function Snapshot(): BmsState
      reads this, temperatures, cellVoltages
    {
      BmsState(totalVoltage, current, balanceCapacity, rateCapacity, cycleCount,
               productionDate, protectionStatus, softwareVersion, stateOfCharge,
               isDischargeFetEnabled, isChargeFetEnabled, numCells, numTemperatureSensors,
               temperatures[..], cellVoltages[..], name, faultCounts,
               isEnabled, comError, balanceStatus, lastProtectionStatus)
    }

    constructor()
      ensures Valid() && Snapshot() == Initial()
      ensures fresh(temperatures) && fresh(cellVoltages)
    {
      totalVoltage := 0;
      current := 0;
      balanceCapacity := 0;
      rateCapacity := 0;
      cycleCount := 0;
      productionDate := DecodeProductionDate(0);
      protectionStatus := DecodeProtectionStatus(0);
      softwareVersion := DecodeSoftwareVersion(0);
      stateOfCharge := 0;
      isDischargeFetEnabled := false;
      isChargeFetEnabled := false;
      numCells := 0;
      numTemperatureSensors := 0;
      temperatures := new uint16[NumTempSensors](_ => 0);
      cellVoltages := new uint16[NumCells](_ => 0);
      name := [];
      faultCounts := NoFaults;
      comError := false;
      isEnabled := false;
      balanceStatus := 0;
      lastProtectionStatus := DecodeProtectionStatus(0);
      new;
      assert temperatures[..] == seq(NumTempSensors, _ => 0);
      assert cellVoltages[..] == seq(NumCells, _ => 0);
    }

    /** `begin`: the port and its timeout are not modelled. */
    method Begin()
      modifies this`isEnabled
      ensures Snapshot() == Begun(old(Snapshot()))
    {
      isEnabled := true;
    }

    method End()
      modifies this`isEnabled
      ensures Snapshot() == Ended(old(Snapshot()))
    {
      isEnabled := false;
    }

    function HasComError(): (r: bool)
      reads this, temperatures, cellVoltages
      ensures r == Snapshot().comError
    {
      comError
    }

    function IsBalancing(cellNumber: uint8): (r: bool)
      reads this, temperatures, cellVoltages
      ensures r == CellBalancing(Snapshot().balanceStatus, cellNumber)
    {
      CellBalancing(balanceStatus, cellNumber)
    }

    method ClearFaultCounts()
      modifies this`faultCounts
      ensures Snapshot() == FaultCountsCleared(old(Snapshot()))
    {
      faultCounts := NoFaults;
    }

    method SetMosfetControl(charge: bool, discharge: bool) returns (frame: seq<uint8>)
      modifies this`comError
      ensures frame == MosfetFrame(charge, discharge)
      ensures Snapshot() == MosfetControlSet(old(Snapshot()))
    {
      var data := new uint8[9][StartByte, WriteMarker, CmdCtlMosfet, 0x02, 0x00, 0x00, 0x00, 0x00, StopByte];
      CalculateMosfetCommandString(data, charge, discharge);
      assert data[2..6] == [CmdCtlMosfet, 0x02, 0x00, ControlByte(charge, discharge)];
      frame := data[..];
      var buffer := ReceiveBuffer([]);
      comError := ValidateResponse(buffer, CmdCtlMosfet, 0);
    }

    // -------------------------------------------------------------------------
    // Parsers

    /** `parseBasicInfoResponse`, in the three steps its body takes: the
        readings, the protection word with its fault counters, then the
        remaining bytes and the temperature loop. */
    method ParseBasicInfoResponse(buffer: seq<uint8>)
      requires Valid() && BasicInfoReadable(buffer)
      modifies this, temperatures
      ensures Snapshot() == BasicInfoParsed(old(Snapshot()), buffer)
    {
      ParseReadings(buffer);
      ParseProtection(Word16(buffer[20], buffer[21]));
      ParseTail(buffer);
    }

    /** Bytes 4 to 19 of the basic-info reply: the 16-bit readings, the
        packed production date and the balance word. */
    method ParseReadings(buffer: seq<uint8>)
      requires 20 <= |buffer|
      modifies this`totalVoltage, this`current, this`balanceCapacity, this`rateCapacity,
        this`cycleCount, this`productionDate, this`balanceStatus
      ensures totalVoltage == Word16(buffer[4], buffer[5])
      ensures current == Word16(buffer[6], buffer[7])
      ensures balanceCapacity == Word16(buffer[8], buffer[9])
      ensures rateCapacity == Word16(buffer[10], buffer[11])
      ensures cycleCount == Word16(buffer[12], buffer[13])
      ensures productionDate == DecodeProductionDate(Word16(buffer[14], buffer[15]))
      ensures balanceStatus == BalanceWord(buffer[16], buffer[17], buffer[18], buffer[19])
    {
      totalVoltage := Word16(buffer[4], buffer[5]);
      current := Word16(buffer[6], buffer[7]);
      balanceCapacity := Word16(buffer[8], buffer[9]);
      rateCapacity := Word16(buffer[10], buffer[11]);
      cycleCount := Word16(buffer[12], buffer[13]);
      productionDate := DecodeProductionDate(Word16(buffer[14], buffer[15]));
      balanceStatus := BalanceWord(buffer[16], buffer[17], buffer[18], buffer[19]);
    }

    /** The protection word: the previous status is kept and every flag that
        rises bumps its counter. */
    method ParseProtection(word: uint16)
      modifies this`lastProtectionStatus, this`protectionStatus, this`faultCounts
      ensures lastProtectionStatus == old(protectionStatus)
      ensures protectionStatus == DecodeProtectionStatus(word)
      ensures faultCounts == NextFaultCounts(old(protectionStatus), DecodeProtectionStatus(word), old(faultCounts))
    {
      lastProtectionStatus := protectionStatus;
      protectionStatus := DecodeProtectionStatus(word);
      faultCounts := NextFaultCounts(lastProtectionStatus, protectionStatus, faultCounts);
    }

    /** Bytes 22 to 26 and the temperatures. */
    method ParseTail(buffer: seq<uint8>)
      requires Valid() && BasicInfoReadable(buffer)
      modifies this`softwareVersion, this`stateOfCharge, this`isDischargeFetEnabled,
        this`isChargeFetEnabled, this`numCells, this`numTemperatureSensors, temperatures
      ensures softwareVersion == DecodeSoftwareVersion(buffer[22])
      ensures stateOfCharge == buffer[23]
      ensures isDischargeFetEnabled == Bit(buffer[24], 1)
      ensures isChargeFetEnabled == Bit(buffer[24], 0)
      ensures numCells == buffer[25]
      ensures numTemperatureSensors == buffer[26]
      ensures temperatures[..] == TemperaturesDecoded(old(temperatures[..]), buffer)
    {
      softwareVersion := DecodeSoftwareVersion(buffer[22]);
      stateOfCharge := buffer[23];
      isDischargeFetEnabled := Bit(buffer[24], 1);
      isChargeFetEnabled := Bit(buffer[24], 0);
      numCells := buffer[25];
      numTemperatureSensors := buffer[26];
      DecodeTemperatures(buffer);
    }

    /** The temperature loop of `parseBasicInfoResponse`. */
    method DecodeTemperatures(buffer: seq<uint8>)
      requires Valid() && BasicInfoReadable(buffer) && numTemperatureSensors == buffer[26]
      modifies temperatures
      ensures temperatures[..] == TemperaturesDecoded(old(temperatures[..]), buffer)
    {
      var i := 0;
      while i < Min(numTemperatureSensors, NumTempSensors)
        invariant 0 <= i <= Min(numTemperatureSensors, NumTempSensors)
        invariant forall j :: 0 <= j < i ==> temperatures[j] == Word16(buffer[27 + 2 * j], buffer[28 + 2 * j])
        invariant forall j :: i <= j < NumTempSensors ==> temperatures[j] == old(temperatures[j])
      {
        temperatures[i] := Word16(buffer[27 + 2 * i], buffer[28 + 2 * i]);
        i := i + 1;
      }
      assert temperatures[..] == TemperaturesDecoded(old(temperatures[..]), buffer);
    }

    method ParseVoltagesResponse(buffer: seq<uint8>)
      requires Valid() && VoltagesReadable(numCells, buffer)
      modifies cellVoltages
      ensures Snapshot() == VoltagesParsed(old(Snapshot()), buffer)
    {
      var i := 0;
      while i < Min(numCells, NumCells)
        invariant 0 <= i <= Min(numCells, NumCells)
        invariant forall j :: 0 <= j < i ==> cellVoltages[j] == Word16(buffer[4 + 2 * j], buffer[5 + 2 * j])
        invariant forall j :: i <= j < NumCells ==> cellVoltages[j] == old(cellVoltages[j])
      {
        cellVoltages[i] := Word16(buffer[i * 2 + 4], buffer[i * 2 + 5]);
        i := i + 1;
      }
      assert cellVoltages[..] == VoltagesDecoded(old(cellVoltages[..]), numCells, buffer);
    }

    method ParseNameResponse(buffer: seq<uint8>)
      requires NameReadable(buffer)
      modifies this`name
      ensures Snapshot() == NameParsed(old(Snapshot()), buffer)
    {
      name := [];
      var length: int := buffer[3];
      var i := 4;
      while i < length + 4
        invariant 4 <= i <= length + 4
        invariant name == NameDecoded(buffer)[..i - 4]
      {
        name := name + [buffer[i] as char];
        i := i + 1;
      }
    }

    // -------------------------------------------------------------------------
    // Queries

    /** `queryBasicInfo`, given what the read placed in the buffer. */
    method QueryBasicInfo(received: seq<uint8>)
      requires Valid() && |received| <= RxBufferSize
      modifies this, temperatures
      ensures Snapshot() == BasicInfoQueried(old(Snapshot()), received)
    {
      var buffer := ReceiveBuffer(received);
      ReceiveBufferCanValidate(received, CmdBasicSystemInfo);
      comError := ValidateResponse(buffer, CmdBasicSystemInfo, |received|);
      if comError {
        return;
      }
      ParseBasicInfoResponse(buffer);
    }

    /** `queryCellVoltages`. */
    method QueryCellVoltages(received: seq<uint8>)
      requires Valid() && |received| <= RxBufferSize
      modifies this`comError, cellVoltages
      ensures Snapshot() == CellVoltagesQueried(old(Snapshot()), received)
    {
      var buffer := ReceiveBuffer(received);
      ReceiveBufferCanValidate(received, CmdCellVoltages);
      comError := ValidateResponse(buffer, CmdCellVoltages, |received|);
      if comError {
        return;
      }
      ParseVoltagesResponse(buffer);
    }

    /** `queryBmsName`. */
    method QueryBmsName(received: seq<uint8>)
      requires |received| <= RxBufferSize
      requires !Verdict(received, CmdName) ==> NameReplyFits(received)
      modifies this`comError, this`name
      ensures Snapshot() == NameQueried(old(Snapshot()), received)
    {
      var buffer := ReceiveBuffer(received);
      ReceiveBufferCanValidate(received, CmdName);
      comError := ValidateResponse(buffer, CmdName, |received|);
      if comError {
        return;
      }
      assert |received| <= 3 ==> buffer[3] == 0;
      ParseNameResponse(buffer);
    }

    /** `poll`, given the three reads it makes. */
    method Poll(basicReply: seq<uint8>, cellReply: seq<uint8>, nameReply: seq<uint8>)
      requires Valid() && PollInputs(Snapshot(), basicReply, cellReply, nameReply)
      modifies this, temperatures, cellVoltages
      ensures Snapshot() == Polled(old(Snapshot()), basicReply, cellReply, nameReply)
    {
      if isEnabled {
        QueryBasicInfo(basicReply);
        QueryCellVoltages(cellReply);
        if name == [] {
          QueryBmsName(nameReply);
        }
      }
    }
  }
}
