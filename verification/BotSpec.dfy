/** Constants, packets and the well-behaved host of the Bulk-Only Transport layer. */
module BotSpec {
  import opened Bytes
  import opened Lock
  import SnoopSpec

  const PASSWORD_MAX: nat := SnoopSpec.PASSWORD_MAX
  const CBW_SIZE: nat := 31
  /** Where the opcode of a CBW lies in the buffer that CBW, CSW and short responses share. */
  const OPCODE: nat := 15

  const TEST_READY: byte := 0x00
  const REQUEST_SENSE: byte := 0x03
  const INQUIRY: byte := 0x12
  const MODE_SENSE6: byte := 0x1A
  const START_STOP: byte := 0x1B
  const PREVENT_REMOVE: byte := 0x1E
  const READ_FORMAT_CAPACITY: byte := 0x23
  const READ_CAPACITY: byte := 0x25
  const READ10: byte := 0x28
  const WRITE10: byte := 0x2A
  const WRITE_VERIFY10: byte := 0x2E
  const VERIFY10: byte := 0x2F
  const SYNC_CACHE: byte := 0x35
  const MODE_SENSE10: byte := 0x5A

  const PASSED: nat := 0
  const FAILED: nat := 1
  const PHASE_ERROR: nat := 2
  const NO_ERROR: nat := 0x00
  const ILLEGAL_REQUEST: nat := 0x05
  const INVALID_COMMAND: nat := 0x20
  const LBA_OUT_OF_RANGE: nat := 0x21
  const MEDIUM_ERROR: nat := 0x03
  const WRITE_ERROR: nat := 0x0C
  const PACK_SIZE: nat := 512
  const INQUIRY_SIZE: nat := 36

  const FORMAT_CAPACITY_RESPONSE: seq<byte> := [0, 0, 0, 8, 0, 0, 0, 0x40, 2, 0, 2, 0]
  const READ_CAPACITY_RESPONSE: seq<byte> := [0, 0, 0, 0x3F, 0, 0, 2, 0]
  /** Fixed-format sense data: ILLEGAL REQUEST, LOGICAL BLOCK ADDRESS OUT OF RANGE. */
  const SENSE_OUT_OF_RANGE: seq<byte> := [0x70, 0, 0x05, 0, 0, 0, 0, 10, 0, 0, 0, 0, 0x21, 0, 0, 0, 0, 0]
  const MODE_SENSE6_RESPONSE: seq<byte> := [0x0B, 0, 0, 8, 0, 0, 0, 0x3F, 0, 0, 2, 0]
  const MODE_SENSE10_RESPONSE: seq<byte> := [0, 0x0E, 0, 0, 0, 0, 0, 8, 0, 0, 0, 0x3F, 0, 0, 2, 0]

  /** What the drive says of itself. */
  type Inquiry = b: seq<byte> | |b| == INQUIRY_SIZE && b[0] == 0 witness seq(INQUIRY_SIZE, _ => 0)

  /** The sense data and the status of the command in progress. */
  datatype Sense = Sense(key: nat, asc: nat, status: nat)

  /** A command's tag. */
  type Tag = t: seq<byte> | |t| == 4 witness [0, 0, 0, 0]

  /** What the IN endpoint answers with. */
  datatype Tx = Nak | Data(bytes: seq<byte>) | Csw(tag: Tag, status: nat) | Stall

  /** A USB transfer flag that the interrupt handler has not yet seen. */
  datatype Irq = NoIrq | OutPacket(bytes: seq<byte>) | InDone

  datatype Option<T> = None | Some(value: T)

  /** Where the main loop stands. */
  datatype Pc =
    | Top | ReadStart | ReadStream(n: nat, physical: nat) | ReadEnd(n: nat)
    | CheckWrite | WriteStart | WriteStream(n: nat) | WriteEnd
    | CheckUnlock | TryUnlock | NakRx | FirstCheck | Search
    | SecondCheck(found: Option<nat>, timedOut: bool) | Commit(found: Option<nat>, timedOut: bool)

  /** What the rest of the firmware and the clock contribute to one step of the main loop. */
  datatype Outcome = Outcome(
    pollTime: bool,         // enough time has passed to try an unlock
    writeOk: bool,          // the write stream reached the card
    captured: seq<byte>,    // the captured password that a locked write leaves behind, in its buffer
    capturedLen: nat,       // and its length
    capture: bool,          // that write has made the drive unlock-pending
    found: Option<nat>,     // the scrubbed file was found, with this password length
    timedOut: bool,
    deleted: bool)
  {
    predicate Valid() {
      && |captured| == PASSWORD_MAX && capturedLen <= PASSWORD_MAX + 1
      && (found.Some? ==> 1 <= found.value <= PASSWORD_MAX)
    }
  }

  datatype Event =
    | HostCbw(bytes: seq<byte>)   // the host sends a command
    | HostData(bytes: seq<byte>)  // the host sends the first packet of the data it announced
    | HostIn                      // the host takes what the IN endpoint holds
    | ClearHalt(raise: bool)      // the host clears a stall of the IN endpoint
    | ClearOutHalt                // the host clears a stall of the OUT endpoint
    | OtherFlag(up: bool)         // a setup or reset flag comes or goes
    | Interrupt                   // the pending transfer flag is handled
    | Main(o: Outcome)            // the main loop does its next step
  {
    predicate Valid() {
      && (HostCbw? ==> WellFormed(bytes))
      && (Main? ==> o.Valid())
    }
  }

  /** One executed READ(10). */
  datatype Read = Read(lba: nat, n: nat, lockedAtCheck: bool, lockedAtRun: bool, physical: nat)

  /** One key derivation: the password bytes it used, out of how many, and the salt that it found. */
  datatype Derivation = Derivation(password: seq<byte>, captured: nat, salt: seq<byte>)

  /** The salt as a derivation leaves it. */
  function NextSalt(salt: seq<byte>): seq<byte>
    requires |salt| == 8
  {
    salt[0 := salt[0] + 1]
  }

  /** The bytes of the password buffer that a derivation uses. */
  function UsedBytes(buffer: seq<byte>, length: nat): (r: seq<byte>)
    ensures |r| == Min(length, |buffer|)
  {
    buffer[..Min(length, |buffer|)]
  }

  /** How far the lock has come. */
  function Rank(s: LockState): nat {
    match s case Locked => 0 case UnlockPending => 1 case Unlocked => 2
  }

  /** A sent status, with how many commands had been accepted and the last one's tag. */
  datatype Status = Status(tag: Tag, status: nat, accepted: nat, lastTag: Tag)

  function Value(b: byte): (r: nat)
    ensures r < 256
  {
    b as nat
  }

  /** The number with these bytes, the most significant one first. */
  function Number(b3: byte, b2: byte, b1: byte, b0: byte): nat {
    0x100_0000 * Value(b3) + 0x1_0000 * Value(b2) + 0x100 * Value(b1) + Value(b0)
  }

  lemma NumberFits(b3: byte, b2: byte, b1: byte, b0: byte)
    ensures Number(b3, b2, b1, b0) < TWO32
  {
    hide Value;
  }

  function LittleEndian32(b: seq<byte>, at: nat): nat
    requires at + 4 <= |b|
  {
    Number(b[at + 3], b[at + 2], b[at + 1], b[at])
  }

  function BigEndian32(b: seq<byte>, at: nat): nat
    requires at + 4 <= |b|
  {
    Number(b[at], b[at + 1], b[at + 2], b[at + 3])
  }

  /** The block count of a READ(10) or WRITE(10). */
  function BlockCount(cbw: seq<byte>): nat
    requires |cbw| == CBW_SIZE
  {
    Number(0, 0, cbw[22], cbw[23])
  }

  function TagOf(cbw: seq<byte>): Tag
    requires |cbw| == CBW_SIZE
  {
    cbw[4..8]
  }

  function TransferLength(cbw: seq<byte>): nat
    requires |cbw| == CBW_SIZE
  {
    LittleEndian32(cbw, 8)
  }

  predicate DirectionIn(cbw: seq<byte>)
    requires |cbw| == CBW_SIZE
  {
    cbw[12] >= 0x80
  }

  predicate HasSignature(cbw: seq<byte>)
    requires |cbw| == CBW_SIZE
  {
    cbw[..4] == [0x55, 0x53, 0x42, 0x43]
  }

  predicate IsWrite(op: byte) {
    op == WRITE10 || op == WRITE_VERIFY10
  }

  predicate Supported(op: byte) {
    op in [TEST_READY, REQUEST_SENSE, INQUIRY, MODE_SENSE6, START_STOP, PREVENT_REMOVE, READ_FORMAT_CAPACITY,
           READ_CAPACITY, READ10, WRITE10, WRITE_VERIFY10, VERIFY10, SYNC_CACHE, MODE_SENSE10]
  }

  /** Commands that the drive answers with data of its own. */
  predicate IsQuery(op: byte) {
    op in [INQUIRY, READ_FORMAT_CAPACITY, READ_CAPACITY, MODE_SENSE6, MODE_SENSE10, REQUEST_SENSE]
  }

  /** Commands that the drive refuses, whatever its state. */
  predicate IsRefused(cbw: seq<byte>)
    requires |cbw| == CBW_SIZE
  {
    !Supported(cbw[OPCODE]) || (cbw[OPCODE] == MODE_SENSE10 && cbw[17] != 0x3F)
  }

  /**
   The sense data and the status that a command other than READ and WRITE leaves: MODE SENSE keeps those
   from before, its status included, and REQUEST SENSE keeps the sense data that it reports.
   */
  function SenseAfter(cbw: seq<byte>, before: Sense): Sense
    requires |cbw| == CBW_SIZE
  {
    if IsRefused(cbw) then Sense(ILLEGAL_REQUEST, INVALID_COMMAND, FAILED)
    else if cbw[OPCODE] == MODE_SENSE6 || cbw[OPCODE] == MODE_SENSE10 then before
    else if cbw[OPCODE] == REQUEST_SENSE then before.(status := PASSED)
    else Sense(NO_ERROR, NO_ERROR, PASSED)
  }

  function Bytes32(n: nat): (r: seq<byte>)
    ensures |r| == 4
  {
    [ByteOf(n / 0x100_0000), ByteOf(n / 0x1_0000), ByteOf(n / 0x100), ByteOf(n)]
  }

  /** The whole response to a query: capacities are the current ones, sense data are those from before. */
  function ResponseTo(op: byte, capacity: nat, before: Sense, inquiry: Inquiry): (r: seq<byte>)
    requires capacity > 0
    ensures |r| <= INQUIRY_SIZE && (op != INQUIRY ==> |r| <= CBW_SIZE)
  {
    if op == INQUIRY then inquiry
    else if op == READ_FORMAT_CAPACITY then [0, 0, 0, 8] + Bytes32(capacity) + [2, 0, 2, 0]
    else if op == READ_CAPACITY then Bytes32(capacity - 1) + [0, 0, 2, 0]
    else if op == MODE_SENSE6 then [0x0B, 0, 0, 8] + Bytes32(capacity) + [0, 0, 2, 0]
    else if op == MODE_SENSE10 then [0, 0x0E, 0, 0, 0, 0, 0, 8] + Bytes32(capacity) + [0, 0, 2, 0]
    else if op == REQUEST_SENSE then
      [0x70, 0, ByteOf(before.key), 0, 0, 0, 0, 0x0A, 0, 0, 0, 0, ByteOf(before.asc), 0, 0, 0, 0, 0]
    else []
  }

  /** The number in three bytes, the most significant one first. */
  function BigEndian24(b: seq<byte>, at: nat): nat
    requires at + 3 <= |b|
  {
    Number(0, b[at], b[at + 1], b[at + 2])
  }

  lemma SmallNumbers()
    ensures Number(0, 0, 2, 0) == 512 && Number(0, 0, 0, 8) == 8 && Number(0, 0, 0, 0x0E) == 14
    ensures Value(8) == 8 && Value(0x0A) == 10 && Value(0x0B) == 11
  {
  }

  lemma ByteValue(n: nat)
    requires n < 256
    ensures Value(ByteOf(n)) == n
  {
    ByteOfIs(n);
  }

  // All reports of the capacity say the same: so many blocks of 512 bytes. Each response that carries its own
  // length carries the right one, with a block descriptor of eight bytes.

  lemma CapacityMeans(capacity: nat, before: Sense, inquiry: Inquiry)
    requires 0 < capacity < TWO32
    ensures var r := ResponseTo(READ_CAPACITY, capacity, before, inquiry);
            |r| == 8 && BigEndian32(r, 0) + 1 == capacity && BigEndian32(r, 4) == 512
  {
    hide ByteOf, Number, Value;
    NumberOf(capacity - 1);
    SmallNumbers();
  }

  lemma FormatCapacityMeans(capacity: nat, before: Sense, inquiry: Inquiry)
    requires 0 < capacity < TWO32
    ensures var r := ResponseTo(READ_FORMAT_CAPACITY, capacity, before, inquiry);
            |r| == 12 && BigEndian32(r, 0) == |r| - 4 && BigEndian32(r, 4) == capacity && BigEndian24(r, 9) == 512
  {
    hide ByteOf, Number, Value;
    NumberOf(capacity);
    SmallNumbers();
  }

  lemma ModeSense6Means(capacity: nat, before: Sense, inquiry: Inquiry)
    requires 0 < capacity < TWO32
    ensures var r := ResponseTo(MODE_SENSE6, capacity, before, inquiry);
            && |r| == 12 && Value(r[0]) == |r| - 1 && Value(r[3]) == 8
            && BigEndian32(r, 4) == capacity && BigEndian24(r, 9) == 512
  {
    hide ByteOf, Number, Value;
    NumberOf(capacity);
    SmallNumbers();
  }

  lemma ModeSense10Means(capacity: nat, before: Sense, inquiry: Inquiry)
    requires 0 < capacity < TWO32
    ensures var r := ResponseTo(MODE_SENSE10, capacity, before, inquiry);
            && |r| == 16 && Number(0, 0, r[0], r[1]) == |r| - 2 && Number(0, 0, r[6], r[7]) == 8
            && BigEndian32(r, 8) == capacity && BigEndian24(r, 13) == 512
  {
    hide ByteOf, Number, Value;
    NumberOf(capacity);
    SmallNumbers();
  }

  lemma RequestSenseMeans(capacity: nat, before: Sense, inquiry: Inquiry)
    requires capacity > 0 && before.key < 16 && before.asc < 256
    ensures var r := ResponseTo(REQUEST_SENSE, capacity, before, inquiry);
            |r| == 18 && Value(r[2]) == before.key && Value(r[7]) == |r| - 8 && Value(r[12]) == before.asc
  {
    hide ByteOf, Value;
    ByteValue(before.key);
    ByteValue(before.asc);
    SmallNumbers();
  }

  lemma SenseOutOfRange(capacity: nat, before: Sense, inquiry: Inquiry)
    requires capacity > 0 && before.key == ILLEGAL_REQUEST && before.asc == LBA_OUT_OF_RANGE
    ensures ResponseTo(REQUEST_SENSE, capacity, before, inquiry) == SENSE_OUT_OF_RANGE
  {
    assert ByteOf(0x05) == 0x05 && ByteOf(0x21) == 0x21;
    hide ByteOf;
  }

  /** The first n bytes agree. */
  ghost predicate Front(a: seq<byte>, b: seq<byte>, n: nat) {
    n <= |a| && n <= |b| && forall k :: 0 <= k < n ==> a[k] == b[k]
  }

  /** A command as a host writes it, byte by byte. */
  function Cbw(tag: Tag, length: nat, dataIn: bool, op: byte, lba: nat, n: nat): (cbw: seq<byte>)
    ensures |cbw| == CBW_SIZE
  {
    [0x55, 0x53, 0x42, 0x43] + tag
    + [ByteOf(length), ByteOf(length / 0x100), ByteOf(length / 0x1_0000), ByteOf(length / 0x100_0000)]
    + [if dataIn then 0x80 else 0x00, 0, 10, op, 0]
    + [ByteOf(lba / 0x100_0000), ByteOf(lba / 0x1_0000), ByteOf(lba / 0x100), ByteOf(lba)]
    + [0, ByteOf(n / 0x100), ByteOf(n), 0, 0, 0, 0, 0, 0, 0]
  }

  /** The drive reads every field of a command as the host has written it. */
  lemma CbwRoundTrip(tag: Tag, length: nat, dataIn: bool, op: byte, lba: nat, n: nat)
    requires length < TWO32 && lba < TWO32 && n < 0x1_0000
    ensures var cbw := Cbw(tag, length, dataIn, op, lba, n);
            && HasSignature(cbw) && TagOf(cbw) == tag && TransferLength(cbw) == length && DirectionIn(cbw) == dataIn
            && cbw[OPCODE] == op && BigEndian32(cbw, 17) == lba && BlockCount(cbw) == n
  {
    hide ByteOf, Number;
    NumberOf(length);
    NumberOf(lba);
    NumberOf(n);
    assert ByteOf(n / 0x100_0000) == 0 && ByteOf(n / 0x1_0000) == 0 by { SmallDigits(n); }
    var cbw := Cbw(tag, length, dataIn, op, lba, n);
    assert cbw[..4] == [0x55, 0x53, 0x42, 0x43] && cbw[4..8] == tag;
  }

  lemma NumberOf(n: nat)
    requires n < TWO32
    ensures Number(ByteOf(n / 0x100_0000), ByteOf(n / 0x1_0000), ByteOf(n / 0x100), ByteOf(n)) == n
  {
    hide ByteOf;
    ByteOfIs(n / 0x100_0000);
    ByteOfIs(n / 0x1_0000);
    ByteOfIs(n / 0x100);
    ByteOfIs(n);
    Digits(n);
  }

  lemma SmallDigits(n: nat)
    requires n < 0x1_0000
    ensures ByteOf(n / 0x100_0000) == 0 && ByteOf(n / 0x1_0000) == 0
  {
    assert n / 0x100_0000 == 0 && n / 0x1_0000 == 0;
  }

  /**
   A well-behaved host: a command that reaches the drive has the direction that its CDB asks for, and a
   READ or WRITE of no blocks has no data phase (USB Mass Storage Class Bulk-Only Transport 1.0,
   sections 5.1 and 6.7). The lengths in CBW and CDB may differ.
   */
  predicate WellFormed(cbw: seq<byte>) {
    |cbw| == CBW_SIZE && HasSignature(cbw) ==>
      var op := cbw[OPCODE];
      && (op == READ10 || IsWrite(op) ==> TransferLength(cbw) > 0 ==> BlockCount(cbw) > 0)
      && (Supported(op) && TransferLength(cbw) > 0 ==> DirectionIn(cbw) == !IsWrite(op))
  }

  /** The sectors a locked drive shows. */
  predicate InDecoy(lba: nat, n: nat) {
    lba + n <= LOCKED_SECTORS
  }
}
