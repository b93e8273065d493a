/** Frame-level protocol: the 16-bit checksum, the MOSFET control frame, and
    the validation of a received response. */
module BmsProtocol {
  import opened Bytes
  import opened BmsTypes

  // ---------------------------------------------------------------------------
  // Checksum

  /** The plain sum of a run of bytes, accumulated from the left. */
  function Sum(s: seq<uint8>): nat
  {
    if s == [] then 0 else Sum(s[..|s| - 1]) + s[|s| - 1]
  }

  /** The protocol checksum of a run of bytes: the two's-complement negation of
      their sum, modulo 2^16. */
  function Checksum(s: seq<uint8>): uint16
  {
    (0x1_0000 - Sum(s) % 0x1_0000) % 0x1_0000
  }

  /** The checksum is the one 16-bit value that brings the byte sum to zero
      modulo 2^16. */
  lemma ChecksumCancelsSum(s: seq<uint8>, c: uint16)
    ensures (Sum(s) + Checksum(s)) % 0x1_0000 == 0
    ensures (Sum(s) + c) % 0x1_0000 == 0 <==> c == Checksum(s)
  {
    NegationModulo(Sum(s), c);
  }

  /** The 16-bit negation of `x` is the one residue that cancels it. */
  lemma NegationModulo(x: nat, c: uint16)
    ensures (x + (0x1_0000 - x % 0x1_0000) % 0x1_0000) % 0x1_0000 == 0
    ensures (x + c) % 0x1_0000 == 0 <==> c == (0x1_0000 - x % 0x1_0000) % 0x1_0000
  {
    var a := x % 0x1_0000;
    var q := x / 0x1_0000;
    var n := (0x1_0000 - a) % 0x1_0000;
    assert x == 0x1_0000 * q + a;
    assert n == if a == 0 then 0 else 0x1_0000 - a;
    ModOfOffset(a, c, q);
    ModOfOffset(a, n, q);
  }

  /** Adding a multiple of 2^16 does not change a residue. */
  lemma ModOfOffset(a: nat, c: nat, q: nat)
    requires a < 0x1_0000 && c < 0x1_0000
    ensures (0x1_0000 * q + a + c) % 0x1_0000 == (a + c) % 0x1_0000
    ensures (a + c) % 0x1_0000 == 0 <==> a + c == 0 || a + c == 0x1_0000
  {
  }

  /** Moving a value by less than 2^16, but not by zero, changes its residue. */
  lemma ModMoves(x: nat, d: int)
    requires 0 < d < 0x1_0000 || -0x1_0000 < d < 0
    requires 0 <= x + d
    ensures (x + d) % 0x1_0000 != x % 0x1_0000
  {
    assert x == 0x1_0000 * (x / 0x1_0000) + x % 0x1_0000;
    assert x + d == 0x1_0000 * ((x + d) / 0x1_0000) + (x + d) % 0x1_0000;
  }

  /** Replacing one byte moves the sum by exactly the difference. */
  lemma {:induction false} SumUpdate(s: seq<uint8>, j: nat, b: uint8)
    requires j < |s|
    ensures Sum(s[j := b]) == Sum(s) - s[j] + b
  {
    var n := |s|;
    if j == n - 1 {
      assert s[j := b][..n - 1] == s[..n - 1];
    } else {
      assert s[j := b][..n - 1] == s[..n - 1][j := b];
      SumUpdate(s[..n - 1], j, b);
    }
  }

  /** Any change to a single byte changes the checksum. */
  lemma ChecksumDetectsByteChange(s: seq<uint8>, j: nat, b: uint8)
    requires j < |s| && b != s[j]
    ensures Checksum(s[j := b]) != Checksum(s)
  {
    SumUpdate(s, j, b);
    ModMoves(Sum(s), b - s[j]);
  }

  /** `calculateChecksum(buffer, len)`: sums the first `len` bytes into a
      wrapping 16-bit accumulator and returns `0xFFFF - sum + 1` truncated to
      16 bits. A length of zero or less sums nothing. */
  method CalculateChecksum(buffer: seq<uint8>, len: int) returns (checksum: uint16)
    requires len <= |buffer|
    ensures checksum == Checksum(buffer[..if len <= 0 then 0 else len])
    ensures len <= 0 ==> checksum == 0
  {
    var sum: uint16 := 0;
    var i := 0;
    while i < len
      invariant 0 <= i && (len <= 0 ==> i == 0) && (0 < len ==> i <= len)
      invariant sum == Sum(buffer[..i]) % 0x1_0000
    {
      assert buffer[..i + 1][..i] == buffer[..i];
      sum := (sum + buffer[i]) % 0x1_0000;
      i := i + 1;
    }
    assert i == if len <= 0 then 0 else len;
    checksum := (0xFFFF - sum + 1) % 0x1_0000;
  }

  /** The checksums of the command and length bytes of the three read
      requests. */
  lemma ReadRequestChecksums()
    ensures Checksum([CmdBasicSystemInfo, 0x00]) == 0xFFFD
    ensures Checksum([CmdCellVoltages, 0x00]) == 0xFFFC
    ensures Checksum([CmdName, 0x00]) == 0xFFFB
    ensures Checksum([]) == 0
  {
    SumOfPair(CmdBasicSystemInfo, 0x00);
    SumOfPair(CmdCellVoltages, 0x00);
    SumOfPair(CmdName, 0x00);
  }

  lemma SumOfPair(x: uint8, y: uint8)
    ensures Sum([x, y]) == x + y
  {
    assert [x, y][..1] == [x];
    assert [x][..0] == [];
    assert Sum([x]) == x;
  }

  // ---------------------------------------------------------------------------
  // MOSFET control frame

  /** The control field of the 0xE1 frame: bit 0 asks to switch charging off,
      bit 1 asks to switch discharging off. */
  function ControlByte(charge: bool, discharge: bool): (b: uint8)
    ensures b < 4
    ensures Bit(b, 0) <==> !charge
    ensures Bit(b, 1) <==> !discharge
  {
    (if charge then 0 else 1) + (if discharge then 0 else 2)
  }

  /** `calculateMosfetCommandString`: writes the control field at index 5 and
      the checksum of indices 2..5 at 6 and 7 of the caller's frame. The high
      byte is written as `(uint8_t) checksum >> 8u`: the cast comes first, so
      index 6 always receives 0. */
  method CalculateMosfetCommandString(commandString: array<uint8>, charge: bool, discharge: bool)
    requires commandString.Length >= 8
    modifies commandString
    ensures commandString[5] == ControlByte(charge, discharge)
    ensures commandString[6] == 0
    ensures commandString[7] == Checksum(commandString[2..6]) % 0x100
    ensures forall i :: 0 <= i < commandString.Length && i != 5 && i != 6 && i != 7 ==>
      commandString[i] == old(commandString[i])
  {
    var xxByte: bv8 := 0x03;
    xxByte := xxByte & (if charge then 0x02 else 0x03);
    xxByte := xxByte & (if discharge then 0x01 else 0x03);
    commandString[5] := xxByte as int;
    assert commandString[2..][..4] == commandString[2..6];
    var checksum := CalculateChecksum(commandString[2..], 4);
    var truncated := checksum % 0x100;
    commandString[6] := truncated / 0x100;
    commandString[7] := checksum % 0x100;
  }

  /** The nine bytes `setMosfetControl` sends: the template
      START, WRITE, 0xE1, 0x02, 0x00, 0x00, 0x00, 0x00, STOP completed in place. */
  function MosfetFrame(charge: bool, discharge: bool): (frame: seq<uint8>)
    ensures |frame| == 9
  {
    var control := ControlByte(charge, discharge);
    [StartByte, WriteMarker, CmdCtlMosfet, 0x02, 0x00, control,
     0, Checksum([CmdCtlMosfet, 0x02, 0x00, control]) % 0x100, StopByte]
  }

  /** On the template, the checksum of indices 2..5 is 0xFF1A, 0xFF1B, 0xFF1C or
      0xFF1D as charge and discharge are enabled. */
  lemma MosfetChecksums(charge: bool, discharge: bool)
    ensures Checksum(MosfetFrame(charge, discharge)[2..6])
         == 0xFF1A + (if charge then 1 else 0) + (if discharge then 2 else 0)
  {
    var control := ControlByte(charge, discharge);
    var span := [CmdCtlMosfet, 0x02, 0x00, control];
    assert MosfetFrame(charge, discharge)[2..6] == span;
    assert span[..3] == [CmdCtlMosfet, 0x02, 0x00];
    assert span[..3][..2] == [CmdCtlMosfet, 0x02];
    SumOfPair(CmdCtlMosfet, 0x02);
    assert Sum(span[..3]) == 0xE3;
    assert Sum(span) == 0xE3 + control;
  }

  /** The frame does not carry its own checksum: its high byte is always 0xFF
      but index 6 holds 0. */
  lemma MosfetFrameChecksumHighByteLost(charge: bool, discharge: bool)
    ensures Checksum(MosfetFrame(charge, discharge)[2..6]) / 0x100 == 0xFF
    ensures MosfetFrame(charge, discharge)[6] == 0
    ensures Word16(MosfetFrame(charge, discharge)[6], MosfetFrame(charge, discharge)[7])
         != Checksum(MosfetFrame(charge, discharge)[2..6])
  {
    MosfetChecksums(charge, discharge);
  }

  // ---------------------------------------------------------------------------
  // Response validation

  /** Start byte, echoed command and a zero status code. */
  predicate HeaderMatches(buffer: seq<uint8>, command: uint8)
    requires |buffer| >= 3
  {
    buffer[0] == StartByte && buffer[1] == command && buffer[2] == 0x00
  }

  /** What `validateResponse` needs of its caller: when anything was received,
      the header bytes and the two bytes before `bytesReceived` lie inside the
      buffer. With one byte received the trailing checksum would be read from
      before the start of the buffer, which the header test prevents only when
      it fails. */
  predicate CanValidate(buffer: seq<uint8>, command: uint8, bytesReceived: int)
  {
    bytesReceived <= 0 ||
    (3 <= |buffer| && bytesReceived <= |buffer| &&
     (2 <= bytesReceived || !HeaderMatches(buffer, command)))
  }

  /** `validateResponse`: a reply counts only if something was received, the
      header matches, and the checksum of the status, length and payload bytes
      equals the big-endian word in the last two received bytes. */
  function ValidateResponse(buffer: seq<uint8>, command: uint8, bytesReceived: int): (valid: bool)
    requires CanValidate(buffer, command, bytesReceived)
    ensures bytesReceived <= 0 ==> !valid
    ensures valid ==> 2 <= bytesReceived <= |buffer| && HeaderMatches(buffer, command)
    ensures valid && command != 0 ==> 4 <= bytesReceived
    ensures 4 <= bytesReceived ==>
      (valid <==> HeaderMatches(buffer, command) &&
                  Checksum(buffer[2..bytesReceived - 2])
                    == Word16(buffer[bytesReceived - 2], buffer[bytesReceived - 1]))
  {
    if bytesReceived <= 0 then false
    else if !HeaderMatches(buffer, command) then false
    else
      var len := bytesReceived - 4;
      var calculated := Checksum(buffer[2..][..if len <= 0 then 0 else len]);
      var transmitted := Word16(buffer[bytesReceived - 2], buffer[bytesReceived - 1]);
      assert 4 <= bytesReceived ==> buffer[2..][..len] == buffer[2..bytesReceived - 2];
      calculated == transmitted
  }

  /** A well-formed response as the read leaves it in the buffer (the stop byte
      is consumed as the terminator): start byte, echoed command, status 0,
      payload length, payload and the big-endian checksum of status, length and
      payload. */
  function ResponseFrame(command: uint8, payload: seq<uint8>): (frame: seq<uint8>)
    requires |payload| < 0x100
    ensures |frame| == |payload| + 6
  {
    var body := [0x00, |payload|] + payload;
    var c := Checksum(body);
    [StartByte, command] + body + [c / 0x100, c % 0x100]
  }

  /** Every well-formed response is accepted, whatever follows it in the buffer. */
  lemma ValidateAcceptsResponseFrame(command: uint8, payload: seq<uint8>, rest: seq<uint8>)
    requires |payload| < 0x100
    ensures CanValidate(ResponseFrame(command, payload) + rest, command, |payload| + 6)
    ensures ValidateResponse(ResponseFrame(command, payload) + rest, command, |payload| + 6)
  {
    var frame := ResponseFrame(command, payload);
    var buffer := frame + rest;
    var n := |payload| + 6;
    var body := [0x00, |payload|] + payload;
    assert buffer[2..n - 2] == body;
    var c := Checksum(body);
    assert buffer[n - 2] == c / 0x100 && buffer[n - 1] == c % 0x100;
  }

  /** A validated reply in which any one received byte is altered is rejected. */
  lemma SingleByteCorruptionRejected(buffer: seq<uint8>, command: uint8, bytesReceived: int, i: nat, b: uint8)
    requires CanValidate(buffer, command, bytesReceived)
    requires ValidateResponse(buffer, command, bytesReceived)
    requires i < bytesReceived && b != buffer[i]
    ensures CanValidate(buffer[i := b], command, bytesReceived)
    ensures !ValidateResponse(buffer[i := b], command, bytesReceived)
  {
    var n := bytesReceived;
    var tampered := buffer[i := b];
    if 3 <= i {
      assert 4 <= n;
      if i < n - 2 {
        assert tampered[2..n - 2] == buffer[2..n - 2][i - 2 := b];
        ChecksumDetectsByteChange(buffer[2..n - 2], i - 2, b);
      } else {
        assert tampered[2..n - 2] == buffer[2..n - 2];
        Word16Injective(buffer[n - 2], buffer[n - 1], tampered[n - 2], tampered[n - 1]);
      }
    }
  }

  // ---------------------------------------------------------------------------
  // Receive buffer

  /** The buffer a query hands to the validator and the parser: the bytes that
      the read placed before the stop byte, over a zero-initialised buffer of
      64 bytes. */
  function ReceiveBuffer(received: seq<uint8>): (buffer: seq<uint8>)
    requires |received| <= RxBufferSize
    ensures |buffer| == RxBufferSize
    ensures buffer[..|received|] == received
    ensures forall i :: |received| <= i < RxBufferSize ==> buffer[i] == 0
  {
    received + seq(RxBufferSize - |received|, _ => 0)
  }

  /** With a zero-initialised 64-byte buffer, validation never reads outside it
      for a non-zero command: a single received byte leaves index 1 at zero,
      so the header test fails before the checksum is read. */
  lemma ReceiveBufferCanValidate(received: seq<uint8>, command: uint8)
    requires |received| <= RxBufferSize && command != 0
    ensures CanValidate(ReceiveBuffer(received), command, |received|)
  {
    if |received| == 1 {
      assert ReceiveBuffer(received)[1] == 0;
    }
  }

  /** A well-formed response laid into the receive buffer. */
  lemma ReceiveBufferOfFrame(command: uint8, payload: seq<uint8>)
    requires |payload| <= RxBufferSize - 6
    ensures ReceiveBuffer(ResponseFrame(command, payload))
         == ResponseFrame(command, payload) + seq(RxBufferSize - 6 - |payload|, _ => 0)
    ensures ValidateResponse(ReceiveBuffer(ResponseFrame(command, payload)), command, |payload| + 6)
  {
    ValidateAcceptsResponseFrame(command, payload, seq(RxBufferSize - 6 - |payload|, _ => 0));
  }
}
