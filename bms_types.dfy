/** The protocol constants and the value types of the battery-management
    system: the bit-packed software version, production date and protection
    status that the firmware unpacks with assignment operators, and the
    per-condition fault counters. */
module BmsTypes {
  import opened Bytes

  // Fixed capacities of the telemetry snapshot and the receive buffer.
  const NumTempSensors: nat := 2
  const NumCells: nat := 8
  const RxBufferSize: nat := 64

  // Frame markers.
  const StartByte: uint8 := 0xDD
  const StopByte: uint8 := 0x77
  const ReadMarker: uint8 := 0xA5
  const WriteMarker: uint8 := 0x5A

  // Command codes.
  const CmdBasicSystemInfo: uint8 := 0x03
  const CmdCellVoltages: uint8 := 0x04
  const CmdName: uint8 := 0x05
  const CmdCtlMosfet: uint8 := 0xE1

  // ---------------------------------------------------------------------------
  // Software version

  datatype SoftwareVersion = SoftwareVersion(major: uint8, minor: uint8)

  /** The value a default-constructed version holds. */
  const DefaultSoftwareVersion := SoftwareVersion(0, 0)

  /** Assigning a byte to a version. `version / 0x0Fu & 0b1111u` parses as
      `(version / 15) & 15`: the major part is a division by fifteen, not the
      high nibble. */
  function DecodeSoftwareVersion(version: uint8): (v: SoftwareVersion)
    ensures v.major <= 15 && v.minor <= 15
    ensures v.minor == version % 0x10
  {
    SoftwareVersion((version / 0x0F) % 0x10, version % 0x10)
  }

  /** The decoded major part agrees with the high nibble exactly when the two
      nibbles add up to less than fifteen. */
  lemma MajorIsHighNibbleIff(version: uint8)
    ensures DecodeSoftwareVersion(version).major == version / 0x10
        <==> version / 0x10 + version % 0x10 < 15
  {
    var h, l := version / 0x10, version % 0x10;
    assert version == 15 * h + (h + l);
    assert (h + l) / 15 <= 2;
    assert version / 15 == h + (h + l) / 15;
  }

  /** 0x10 reads as 1.0, and a default version is 0.0, the same as assigning 0. */
  lemma SoftwareVersionExamples()
    ensures DecodeSoftwareVersion(0x10) == SoftwareVersion(1, 0)
    ensures DecodeSoftwareVersion(0) == DefaultSoftwareVersion
    ensures DecodeSoftwareVersion(0x1F) == SoftwareVersion(2, 15)
  {
  }

  // ---------------------------------------------------------------------------
  // Production date

  datatype ProductionDate = ProductionDate(year: uint16, month: uint8, day: uint8)

  /** The value a default-constructed date holds: 1/1/2000. */
  const DefaultProductionDate := ProductionDate(2000, 1, 1)

  /** Assigning a 16-bit word to a date: five bits of day, four of month, seven
      of years after 2000. Nothing checks that the day or month is in range. */
  function DecodeProductionDate(date: uint16): (d: ProductionDate)
    ensures d.day <= 31 && d.month <= 15
    ensures 2000 <= d.year <= 2127
  {
    ProductionDate(2000 + date / 0x200, (date / 0x20) % 0x10, date % 0x20)
  }

  /** The packing that the decoder undoes. */
  function PackedDate(d: ProductionDate): int
  {
    (d.year - 2000) * 0x200 + d.month * 0x20 + d.day
  }

  /** Decoding loses nothing: the word is recovered from the three fields. */
  lemma DecodeProductionDateInverse(date: uint16)
    ensures PackedDate(DecodeProductionDate(date)) == date
  {
    var d := DecodeProductionDate(date);
    assert date / 0x200 == (date / 0x20) / 0x10;
    assert date / 0x20 == 0x10 * (date / 0x200) + d.month;
    assert date == 0x20 * (date / 0x20) + d.day;
  }

  /** The dates the 16-bit packing can carry. */
  predicate DateInRange(d: ProductionDate)
  {
    2000 <= d.year <= 2127 && d.month <= 15 && d.day <= 31
  }

  /** Every date the packing can carry is decoded back from its word. */
  lemma PackedDateDecodes(d: ProductionDate)
    requires DateInRange(d)
    ensures 0 <= PackedDate(d) < 0x1_0000
    ensures DecodeProductionDate(PackedDate(d)) == d
  {
    var w := PackedDate(d);
    var y := d.year - 2000;
    assert w == 0x20 * (0x10 * y + d.month) + d.day;
    assert w / 0x20 == 0x10 * y + d.month;
    assert w / 0x200 == (w / 0x20) / 0x10;
  }

  /** 0x2068 is 8/3/2016; the word 0 is day 0, month 0 of 2000, which is not the
      default date. */
  lemma ProductionDateExamples()
    ensures DecodeProductionDate(0x2068) == ProductionDate(2016, 3, 8)
    ensures DecodeProductionDate(0) == ProductionDate(2000, 0, 0)
    ensures DecodeProductionDate(0) != DefaultProductionDate
  {
  }


  // ---------------------------------------------------------------------------
  // Protection status

  /** Positions of the thirteen protection conditions, in the order the status
      and counter structs declare them; position k is bit k of the status word. */
  const SingleCellOvervoltage := 0
  const SingleCellUndervoltage := 1
  const WholePackOvervoltage := 2
  const WholePackUndervoltage := 3
  const ChargingOverTemperature := 4
  const ChargingLowTemperature := 5
  const DischargeOverTemperature := 6
  const DischargeLowTemperature := 7
  const ChargingOvercurrent := 8
  const DischargeOvercurrent := 9
  const ShortCircuit := 10
  const FrontEndDetectionIcError := 11
  const SoftwareLockMos := 12

  type Flags13 = s: seq<bool> | |s| == 13
    witness [false, false, false, false, false, false, false, false, false, false, false, false, false]

  /** The thirteen protection flags, indexed by the positions above. */
  datatype ProtectionStatus = ProtectionStatus(flags: Flags13)

  /** The value a default-constructed status holds: no flag raised. */
  const NoProtection := ProtectionStatus(seq(13, _ => false))

  /** Assigning a 16-bit word to a status: each flag is tested against its own
      one-bit mask. */
  function DecodeProtectionStatus(status: uint16): (p: ProtectionStatus)
    ensures forall k :: 0 <= k < 13 ==> p.flags[k] == Bit(status, k)
  {
    ProtectionStatus(seq(13, k requires 0 <= k < 13 => Bit(status, k)))
  }

  /** Bits 13 to 15 of the status word are ignored. */
  lemma ProtectionStatusIgnoresHighBits(status: uint16)
    ensures DecodeProtectionStatus(status) == DecodeProtectionStatus(status % 0x2000)
  {
    assert Pow2(13) == 0x2000;
    forall k | 0 <= k < 13
      ensures Bit(status, k) == Bit(status % 0x2000, k)
    {
      assert status == (status / 0x2000) * Pow2(13) + status % 0x2000;
      BitOfConcat(status / 0x2000, status % 0x2000, 13, k);
    }
    assert DecodeProtectionStatus(status).flags == DecodeProtectionStatus(status % 0x2000).flags;
  }

  /** A sequence of flags as a little-endian bit pattern. */
  function PackBits(bs: seq<bool>): nat
  {
    if bs == [] then 0 else (if bs[0] then 1 else 0) + 2 * PackBits(bs[1..])
  }

  lemma {:induction false} PackBitsBounded(bs: seq<bool>)
    ensures PackBits(bs) < Pow2(|bs|)
  {
    if bs != [] {
      PackBitsBounded(bs[1..]);
    }
  }

  lemma {:induction false} BitOfPackBits(bs: seq<bool>, k: nat)
    requires k < |bs|
    ensures Bit(PackBits(bs), k) == bs[k]
  {
    if k > 0 {
      assert PackBits(bs) / 2 == PackBits(bs[1..]);
      BitOfPackBits(bs[1..], k - 1);
    }
  }

  /** The status word a BMS sends for a given status; the decoder inverts it. */
  function StatusWord(p: ProtectionStatus): (w: uint16)
    ensures w < 0x2000
    ensures DecodeProtectionStatus(w) == p
  {
    PackBitsBounded(p.flags);
    assert Pow2(13) == 0x2000;
    forall k | 0 <= k < 13
      ensures Bit(PackBits(p.flags), k) == p.flags[k]
    {
      BitOfPackBits(p.flags, k);
    }
    assert DecodeProtectionStatus(PackBits(p.flags)).flags == p.flags;
    PackBits(p.flags)
  }

  /** Packing the low bits of a value that fits gives back the value. */
  lemma {:induction false} PackBitsOfBits(x: nat, bs: seq<bool>)
    requires x < Pow2(|bs|)
    requires forall k :: 0 <= k < |bs| ==> bs[k] == Bit(x, k)
    ensures PackBits(bs) == x
  {
    if bs != [] {
      forall k | 0 <= k < |bs| - 1
        ensures bs[1..][k] == Bit(x / 2, k)
      {
        assert bs[k + 1] == Bit(x, k + 1);
      }
      PackBitsOfBits(x / 2, bs[1..]);
    }
  }

  /** The converse of `StatusWord`'s round trip: on words below 0x2000 the
      two functions are inverses. */
  lemma StatusWordOfDecode(w: uint16)
    requires w < 0x2000
    ensures StatusWord(DecodeProtectionStatus(w)) == w
  {
    assert Pow2(13) == 0x2000;
    PackBitsOfBits(w, DecodeProtectionStatus(w).flags);
  }

  /** A default status equals the word 0 assigned; 0x1FFF raises every flag. */
  lemma ProtectionStatusExamples()
    ensures DecodeProtectionStatus(0) == NoProtection
    ensures forall k :: 0 <= k < 13 ==> DecodeProtectionStatus(0x1FFF).flags[k]
  {
    forall k | 0 <= k < 13
      ensures !Bit(0, k) && Bit(0x1FFF, k)
    {
      BitAboveWidth(0, 0, k);
      assert Pow2(13) == 0x2000;
      BitOfAllOnes(13, k);
    }
    assert DecodeProtectionStatus(0).flags == NoProtection.flags;
  }

  // ---------------------------------------------------------------------------
  // Fault counters

  type Counts13 = s: seq<uint8> | |s| == 13
    witness [0, 0, 0, 0, 0, 0, 0, 0, 0, 0, 0, 0, 0]

  /** One 8-bit occurrence counter per protection condition, same positions. */
  datatype FaultCounts = FaultCounts(counts: Counts13)

  /** The value default-constructed counters hold, and what a reset leaves. */
  const NoFaults := FaultCounts([0, 0, 0, 0, 0, 0, 0, 0, 0, 0, 0, 0, 0])

  /** `count += 1` on a uint8: wraps from 255 to 0 rather than saturating. */
  function Increment(count: uint8): (r: uint8)
    ensures r == if count == 255 then 0 else count + 1
  {
    (count + 1) % 0x100
  }

  /** One counter after one observation of its flag. */
  function EdgeStep(wasRaised: bool, isRaised: bool, count: uint8): (r: uint8)
    ensures r != count <==> !wasRaised && isRaised
    ensures r != count ==> r == Increment(count)
  {
    if !wasRaised && isRaised then Increment(count) else count
  }

  /** The thirteen edge tests of one basic-info decode: counter k moves only
      when flag k goes from false to true. */
  function NextFaultCounts(last: ProtectionStatus, current: ProtectionStatus, counts: FaultCounts): (r: FaultCounts)
    ensures forall k :: 0 <= k < 13 ==>
      (r.counts[k] != counts.counts[k] <==> !last.flags[k] && current.flags[k])
    ensures forall k :: 0 <= k < 13 && r.counts[k] != counts.counts[k] ==>
      r.counts[k] == Increment(counts.counts[k])
  {
    FaultCounts(seq(13, k requires 0 <= k < 13 =>
      EdgeStep(last.flags[k], current.flags[k], counts.counts[k])))
  }

  /** The counters after a run of decoded statuses, starting from `last`. */
  function CountsAfter(last: ProtectionStatus, observed: seq<ProtectionStatus>, counts: FaultCounts): FaultCounts
    decreases |observed|
  {
    if observed == [] then counts
    else CountsAfter(observed[0], observed[1..], NextFaultCounts(last, observed[0], counts))
  }

  /** The number of false-to-true changes of flag k along a run of statuses. */
  function RisingEdges(k: nat, last: ProtectionStatus, observed: seq<ProtectionStatus>): nat
    requires k < 13
    decreases |observed|
  {
    if observed == [] then 0
    else (if !last.flags[k] && observed[0].flags[k] then 1 else 0) + RisingEdges(k, observed[0], observed[1..])
  }

  /** Over any run, counter k has grown by the number of rising edges of flag k,
      modulo 256; no other transition moves it. */
  lemma {:induction false} CountsAfterCountsRisingEdges(k: nat, last: ProtectionStatus, observed: seq<ProtectionStatus>, counts: FaultCounts)
    requires k < 13
    ensures CountsAfter(last, observed, counts).counts[k] == (counts.counts[k] + RisingEdges(k, last, observed)) % 0x100
    decreases |observed|
  {
    if observed != [] {
      var next := NextFaultCounts(last, observed[0], counts);
      CountsAfterCountsRisingEdges(k, observed[0], observed[1..], next);
    }
  }

  /** Single-cell overvoltage seen as false, true, true, false, true after a
      clear start counts two faults; a 256th fault reads as none. */
  lemma FaultEdgeExamples()
    ensures var off, on := NoProtection, DecodeProtectionStatus(1);
      CountsAfter(NoProtection, [off, on, on, off, on], NoFaults).counts[SingleCellOvervoltage] == 2
    ensures EdgeStep(false, true, 255) == 0
  {
    var off, on := NoProtection, DecodeProtectionStatus(1);
    var run := [off, on, on, off, on];
    assert on.flags[0] && !off.flags[0];
    assert RisingEdges(0, off, run[4..]) == 1;
    assert RisingEdges(0, off, run[3..]) == 1;
    assert RisingEdges(0, on, run[2..]) == 1;
    assert RisingEdges(0, on, run[1..]) == 1;
    assert RisingEdges(0, off, run) == 2;
    CountsAfterCountsRisingEdges(0, NoProtection, run, NoFaults);
  }
}
