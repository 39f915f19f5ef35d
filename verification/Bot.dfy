/** The Bulk-Only Transport layer and the lock: interrupt handlers and main loop over shared state. */
module Bot {
  import opened Bytes
  import opened Memory
  import opened Lock
  import opened CardSpec
  import opened BotSpec
  import opened KdfSpec
  import Kdf

  class Bot {
    // g_bot
    var dataIn: bool
    var dataOut: bool
    var cswPending: bool
    var capacity: nat
    var cbwTag: Tag
    var senseKey: nat
    var senseAsc: nat
    var cswStatus: nat
    var bytesLeft: nat
    var currentLba: nat
    var readPending: bool
    var writePending: bool
    // g_cbw_csw, the inquiry response, and which of the two a response comes from
    const overlay: array<byte>
    const inquiry: Inquiry
    var fromInquiry: bool
    // endpoints and interrupt flags
    var tx: Tx
    var irq: Irq
    var irqEnabled: bool
    var rxAck: bool
    var rxStalled: bool
    var otherFlag: bool
    // the lock
    var lockState: LockState
    var pendingPw: seq<byte>
    var pendingLen: nat
    var salt: seq<byte>
    var dataKey: seq<byte>
    var tweakKey: seq<byte>
    const deviceSalt: seq<byte>
    const rounds: nat
    const cardSectors: nat
    // the main loop and the host
    var pc: Pc
    var hostBusy: bool
    var hostWrites: bool
    // what has happened
    ghost var checkedLocked: bool
    ghost var accepted: nat
    ghost var lastTag: Tag
    ghost var statuses: seq<Status>
    ghost var readLog: seq<Read>
    ghost var derivations: seq<Derivation>

    predicate IsLocked()
      reads this`lockState
    {
      lockState != Unlocked
    }

    // ---------- small pieces ----------

    function Sensed(): Sense
      reads this`senseKey, this`senseAsc, this`cswStatus
    {
      Sense(senseKey, senseAsc, cswStatus)
    }

    /** The memory that the response pointer points to. */
    function ResponseBuffer(): seq<byte>
      reads this`fromInquiry, overlay
    {
      if fromInquiry then inquiry else overlay[..]
    }

    /** A packet of n bytes from the response buffer is queued; bytes beyond that buffer can be any. */
    ghost predicate Sends(n: nat)
      reads this`tx, this`fromInquiry, overlay
    {
      tx.Data? && |tx.bytes| == n && Front(tx.bytes, ResponseBuffer(), Min(n, |ResponseBuffer()|))
    }

    method SetSense(key: nat, asc: nat, status: nat)
      modifies this`senseKey, this`senseAsc, this`cswStatus
      ensures senseKey == key && senseAsc == asc && cswStatus == status
    {
      senseKey := key;
      senseAsc := asc;
      cswStatus := status;
    }

    /** Stalls the data phase: afterwards neither direction is active. */
    method StallActiveDataEndpoints()
      modifies this`dataIn, this`dataOut, this`tx, this`rxStalled
      ensures !dataIn && !dataOut
      ensures tx == if old(dataIn) then Stall else old(tx)
      ensures rxStalled == (old(rxStalled) || old(dataOut))
    {
      if dataIn {
        tx := Stall;
        dataIn := false;
      }
      if dataOut {
        rxStalled := true;
        dataOut := false;
      }
    }

    /** Takes tag, length and direction of an accepted command. */
    method BeginCbwTransfer()
      requires overlay.Length == CBW_SIZE
      modifies this`cbwTag, this`bytesLeft, this`dataIn, this`dataOut, this`cswPending
      modifies this`accepted, this`lastTag
      ensures cbwTag == overlay[4..8] && lastTag == overlay[4..8] && accepted == old(accepted) + 1
      ensures bytesLeft == TransferLength(overlay[..]) && cswPending
      ensures dataIn == (old(dataIn) || (bytesLeft > 0 && DirectionIn(overlay[..])))
      ensures dataOut == (old(dataOut) || (bytesLeft > 0 && !DirectionIn(overlay[..])))
    {
      hide Number;
      cbwTag := overlay[4..8];
      bytesLeft := Number(overlay[11], overlay[10], overlay[9], overlay[8]);
      if bytesLeft != 0 {
        if overlay[12] >= 0x80 {
          dataIn := true;
        } else {
          dataOut := true;
        }
      }
      cswPending := true;
      accepted := accepted + 1;
      lastTag := overlay[4..8];
    }

    /** A fixed response goes to the front of the shared buffer, cut to what the host asked for. */
    method CopyResponse(response: seq<byte>)
      requires overlay.Length == CBW_SIZE && |response| <= CBW_SIZE
      modifies this`bytesLeft, this`fromInquiry, overlay
      ensures bytesLeft == Min(old(bytesLeft), |response|) && !fromInquiry
      ensures forall k :: 0 <= k < bytesLeft ==> overlay[k] == response[k]
      ensures forall k :: bytesLeft <= k < CBW_SIZE ==> overlay[k] == old(overlay[k])
    {
      if bytesLeft > |response| {
        bytesLeft := |response|;
      }
      CopyBytes(overlay, 0, response[..bytesLeft]);
      fromInquiry := false;
    }

    /** A 32-bit value into the shared buffer, most significant byte first. */
    method PutBigEndian32(at: nat, value: nat)
      requires overlay.Length == CBW_SIZE && at + 4 <= OPCODE && value < TWO32
      modifies overlay
      ensures overlay[at..at + 4] == Bytes32(value) && BigEndian32(overlay[..], at) == value
      ensures forall k :: 0 <= k < CBW_SIZE && !(at <= k < at + 4) ==> overlay[k] == old(overlay[k])
    {
      hide ByteOf;
      overlay[at] := ByteOf(value / 0x100_0000);
      overlay[at + 1] := ByteOf(value / 0x1_0000);
      overlay[at + 2] := ByteOf(value / 0x100);
      overlay[at + 3] := ByteOf(value);
      NumberOf(value);
    }

    /** Queues the next packet of a response; the data phase ends with the last one. */
    method SendResponseData()
      modifies this`bytesLeft, this`dataIn, this`tx
      ensures Sends(Min(PACK_SIZE, old(bytesLeft)))
      ensures bytesLeft == old(bytesLeft) - Min(PACK_SIZE, old(bytesLeft))
      ensures dataIn == (old(bytesLeft) > PACK_SIZE && old(dataIn))
    {
      var len := bytesLeft;
      if bytesLeft > PACK_SIZE {
        len := PACK_SIZE;
        bytesLeft := bytesLeft - PACK_SIZE;
      } else {
        bytesLeft := 0;
        dataIn := false;
      }
      var buffer := ResponseBuffer();
      var known := Min(len, |buffer|);
      assert |Zeros(len - known)| == len - known;
      var beyond: seq<byte> :| |beyond| == len - known;
      tx := Data(buffer[..known] + beyond);
    }

    /** Queues the status of the command and ends it. */
    method SendCsw()
      requires overlay.Length == CBW_SIZE
      modifies this`dataIn, this`dataOut, this`cswPending, this`tx, this`statuses, overlay
      ensures !dataIn && !dataOut && !cswPending && tx == Csw(cbwTag, cswStatus)
      ensures statuses == old(statuses) + [Status(cbwTag, cswStatus, accepted, lastTag)]
      ensures overlay[OPCODE] == old(overlay[OPCODE])
      ensures overlay[..13] == [0x55, 0x53, 0x42, 0x53] + cbwTag + [0, 0, 0, 0] + [ByteOf(cswStatus)]
      ensures old(AccountsOk() && cswPending) ==> AccountsOk()
    {
      dataIn, dataOut, cswPending := false, false, false;
      CopyBytes(overlay, 0, [0x55, 0x53, 0x42, 0x53] + cbwTag + Zeros(4) + [ByteOf(cswStatus)]);
      tx := Csw(cbwTag, cswStatus);
      statuses := statuses + [Status(cbwTag, cswStatus, accepted, lastTag)];
    }

    // ---------- SCSI commands ----------

    /** The address and the length of a READ(10) or WRITE(10); from here bytesLeft counts card bytes. */
    method ParseRw10()
      requires overlay.Length == CBW_SIZE
      modifies this`currentLba, this`bytesLeft, this`senseKey, this`senseAsc, this`cswStatus
      ensures currentLba == BigEndian32(overlay[..], 17) && currentLba < TWO32
      ensures bytesLeft == SECTOR_SIZE * BlockCount(overlay[..])
      ensures Sensed() == Sense(NO_ERROR, NO_ERROR, PASSED)
    {
      hide Number;
      NumberFits(overlay[17], overlay[18], overlay[19], overlay[20]);
      currentLba := Number(overlay[17], overlay[18], overlay[19], overlay[20]);
      bytesLeft := Number(0, 0, overlay[22], overlay[23]);
      bytesLeft := bytesLeft * SECTOR_SIZE;
      SetSense(NO_ERROR, NO_ERROR, PASSED);
    }

    /** Whether the parsed read reaches sectors that a locked drive does not show. */
    method AccessesHiddenSectors() returns (hidden: bool)
      ensures hidden == (bytesLeft / SECTOR_SIZE > 0 && !InDecoy(currentLba, bytesLeft / SECTOR_SIZE))
    {
      var lba := currentLba;
      var count := bytesLeft / SECTOR_SIZE;
      if count == 0 {
        return false;
      }
      if lba >= LOCKED_SECTORS {
        return true;
      }
      return count > LOCKED_SECTORS - lba;
    }

    method HandleRead10()
      requires overlay.Length == CBW_SIZE && !dataOut
      modifies this`currentLba, this`bytesLeft, this`senseKey, this`senseAsc, this`cswStatus
      modifies this`dataIn, this`dataOut, this`tx, this`rxStalled, this`checkedLocked
      ensures bytesLeft == SECTOR_SIZE * BlockCount(overlay[..]) && currentLba == BigEndian32(overlay[..], 17)
      ensures currentLba < TWO32 && checkedLocked == IsLocked() && !dataOut && rxStalled == old(rxStalled)
      ensures var n := BlockCount(overlay[..]);
              if IsLocked() && n > 0 && !InDecoy(currentLba, n)
              then
                && !dataIn && Sensed() == Sense(ILLEGAL_REQUEST, LBA_OUT_OF_RANGE, FAILED)
                && tx == (if old(dataIn) then Stall else old(tx))
              else dataIn == old(dataIn) && Sensed() == Sense(NO_ERROR, NO_ERROR, PASSED) && tx == old(tx)
    {
      ParseRw10();
      checkedLocked := IsLocked();
      if IsLocked() {
        var hidden := AccessesHiddenSectors();
        if hidden {
          SetSense(ILLEGAL_REQUEST, LBA_OUT_OF_RANGE, FAILED);
          StallActiveDataEndpoints();
        }
      }
    }

    /** WRITE(10) and WRITE AND VERIFY(10): the next OUT packet starts the write. */
    method HandleWrite10()
      requires overlay.Length == CBW_SIZE
      modifies this`currentLba, this`bytesLeft, this`senseKey, this`senseAsc, this`cswStatus
      ensures bytesLeft == SECTOR_SIZE * BlockCount(overlay[..]) && currentLba == BigEndian32(overlay[..], 17)
      ensures currentLba < TWO32 && Sensed() == Sense(NO_ERROR, NO_ERROR, PASSED)
    {
      ParseRw10();
    }

    /** A query's response is in `buffer`, and `left` is what will be sent of it. */
    ghost predicate ReadyIn(buffer: seq<byte>, left: nat, op: byte, length: nat, before: Sense, capacity: nat) {
      && capacity > 0
      && |buffer| >= (if op == INQUIRY then INQUIRY_SIZE else CBW_SIZE)
      && var r := ResponseTo(op, capacity, before, inquiry);
         && left == (if op == REQUEST_SENSE then length else Min(length, |r|))
         && Front(buffer, r, Min(left, |r|))
    }

    ghost predicate Ready(op: byte, length: nat, before: Sense)
      reads this`bytesLeft, this`capacity, this`fromInquiry, overlay
    {
      ReadyIn(ResponseBuffer(), bytesLeft, op, length, before, capacity)
    }

    method HandleInquiry()
      requires capacity > 0
      modifies this`bytesLeft, this`senseKey, this`senseAsc, this`cswStatus, this`fromInquiry
      ensures Ready(INQUIRY, old(bytesLeft), old(Sensed())) && Sensed() == Sense(NO_ERROR, NO_ERROR, PASSED)
    {
      if bytesLeft > INQUIRY_SIZE {
        bytesLeft := INQUIRY_SIZE;
      }
      fromInquiry := true;
      SetSense(NO_ERROR, NO_ERROR, PASSED);
    }

    method HandleReadFormatCapacity()
      requires overlay.Length == CBW_SIZE && 0 < capacity < TWO32
      modifies this`bytesLeft, this`senseKey, this`senseAsc, this`cswStatus, this`fromInquiry, overlay
      ensures Ready(READ_FORMAT_CAPACITY, old(bytesLeft), old(Sensed()))
      ensures Sensed() == Sense(NO_ERROR, NO_ERROR, PASSED) && overlay[OPCODE] == old(overlay[OPCODE])
    {
      hide Bytes32, BigEndian32;
      CopyResponse(FORMAT_CAPACITY_RESPONSE);
      PutBigEndian32(4, capacity);
      assert overlay[4..8] == Bytes32(capacity);
      SetSense(NO_ERROR, NO_ERROR, PASSED);
    }

    method HandleReadCapacity()
      requires overlay.Length == CBW_SIZE && 0 < capacity < TWO32
      modifies this`bytesLeft, this`senseKey, this`senseAsc, this`cswStatus, this`fromInquiry, overlay
      ensures Ready(READ_CAPACITY, old(bytesLeft), old(Sensed()))
      ensures Sensed() == Sense(NO_ERROR, NO_ERROR, PASSED) && overlay[OPCODE] == old(overlay[OPCODE])
    {
      hide Bytes32, BigEndian32;
      CopyResponse(READ_CAPACITY_RESPONSE);
      PutBigEndian32(0, capacity - 1);
      assert overlay[0..4] == Bytes32(capacity - 1);
      SetSense(NO_ERROR, NO_ERROR, PASSED);
    }

    /** The status is left as the command before has set it. */
    method HandleModeSense6()
      requires overlay.Length == CBW_SIZE && 0 < capacity < TWO32
      modifies this`bytesLeft, this`fromInquiry, overlay
      ensures Ready(MODE_SENSE6, old(bytesLeft), Sensed())
      ensures overlay[OPCODE] == old(overlay[OPCODE])
    {
      hide Bytes32, BigEndian32;
      CopyResponse(MODE_SENSE6_RESPONSE);
      PutBigEndian32(4, capacity);
      assert overlay[4..8] == Bytes32(capacity);
    }

    /** The last byte of the response can overwrite the opcode. */
    method HandleModeSense10()
      requires overlay.Length == CBW_SIZE && 0 < capacity < TWO32 && overlay[OPCODE] != READ10
      modifies this`bytesLeft, this`senseKey, this`senseAsc, this`cswStatus, this`fromInquiry
      modifies this`dataIn, this`dataOut, this`tx, this`rxStalled, overlay
      ensures overlay[OPCODE] != READ10
      ensures if old(overlay[17]) != 0x3F
              then
                && Sensed() == Sense(ILLEGAL_REQUEST, INVALID_COMMAND, FAILED) && !dataIn && !dataOut
                && tx == (if old(dataIn) then Stall else old(tx)) && rxStalled == (old(rxStalled) || old(dataOut))
              else
                && Ready(MODE_SENSE10, old(bytesLeft), old(Sensed())) && Sensed() == old(Sensed())
                && dataIn == old(dataIn) && dataOut == old(dataOut) && tx == old(tx) && rxStalled == old(rxStalled)
    {
      hide Bytes32, BigEndian32;
      if overlay[17] != 0x3F {
        SetSense(ILLEGAL_REQUEST, INVALID_COMMAND, FAILED);
        StallActiveDataEndpoints();
        return;
      }
      CopyResponse(MODE_SENSE10_RESPONSE);
      PutBigEndian32(8, capacity);
      assert overlay[8..12] == Bytes32(capacity);
    }

    /** Reports the sense data of the command before; the opcode is overwritten. */
    method HandleRequestSense()
      requires overlay.Length == CBW_SIZE && capacity > 0
      modifies this`fromInquiry, this`cswStatus, overlay
      ensures Ready(REQUEST_SENSE, bytesLeft, old(Sensed()))
      ensures Sensed() == old(Sensed()).(status := PASSED) && overlay[OPCODE] == 0
    {
      hide ByteOf, ReadyIn;
      var response := [0x70, 0, ByteOf(senseKey), 0, 0, 0, 0, 0x0A, 0, 0, 0, 0, ByteOf(senseAsc), 0, 0, 0, 0, 0];
      assert |response| == 18 && response[OPCODE] == 0;
      SenseReady(response, Sensed());
      CopyBytes(overlay, 0, response);
      assert overlay[..18] == response;
      fromInquiry := false;
      cswStatus := PASSED;
    }

    lemma SenseReady(response: seq<byte>, before: Sense)
      requires response == [0x70, 0, ByteOf(before.key), 0, 0, 0, 0, 0x0A]
                           + [0, 0, 0, 0, ByteOf(before.asc), 0, 0, 0, 0, 0]
      requires capacity > 0
      ensures forall buffer: seq<byte>, left: nat :: |buffer| >= CBW_SIZE && buffer[..18] == response ==>
                ReadyIn(buffer, left, REQUEST_SENSE, left, before, capacity)
    {
      hide ByteOf;
      assert response == ResponseTo(REQUEST_SENSE, capacity, before, inquiry);
      hide ResponseTo;
      forall buffer: seq<byte>, left: nat | |buffer| >= CBW_SIZE && buffer[..18] == response
        ensures ReadyIn(buffer, left, REQUEST_SENSE, left, before, capacity)
      {
        assert forall k :: 0 <= k < 18 ==> buffer[k] == buffer[..18][k];
      }
    }

    method HandleUnsupported()
      modifies this`senseKey, this`senseAsc, this`cswStatus, this`dataIn, this`dataOut, this`tx, this`rxStalled
      ensures Sensed() == Sense(ILLEGAL_REQUEST, INVALID_COMMAND, FAILED) && !dataIn && !dataOut && tx == Stall
      ensures rxStalled == (old(rxStalled) || old(dataOut))
    {
      SetSense(ILLEGAL_REQUEST, INVALID_COMMAND, FAILED);
      dataIn := true;
      StallActiveDataEndpoints();
    }

    /** A READ(10) of sectors that a locked drive does not show. */
    predicate Refused(cbw: seq<byte>)
      requires |cbw| == CBW_SIZE
      reads this`lockState
    {
      IsLocked() && BlockCount(cbw) > 0 && !InDecoy(BigEndian32(cbw, 17), BlockCount(cbw))
    }

    /** The command fails: it is such a read, or one that the drive refuses in any state. */
    predicate Rejects(cbw: seq<byte>)
      requires |cbw| == CBW_SIZE
      reads this`lockState
    {
      if cbw[OPCODE] == READ10 then Refused(cbw) else IsRefused(cbw)
    }

    /** The sense data and the status of a handled command. */
    function Judged(cbw: seq<byte>, before: Sense): Sense
      requires |cbw| == CBW_SIZE
      reads this`lockState
    {
      if cbw[OPCODE] == READ10 && Refused(cbw) then Sense(ILLEGAL_REQUEST, LBA_OUT_OF_RANGE, FAILED)
      else SenseAfter(cbw, before)
    }

    /** How the IN endpoint stands after a command has been handled: a failed data phase is stalled. */
    function Endpoint(cbw: seq<byte>): Tx
      requires |cbw| == CBW_SIZE
      reads this`lockState
    {
      if Rejects(cbw) && !(Supported(cbw[OPCODE]) && TransferLength(cbw) == 0) then Stall else Nak
    }

    /** Sense data, status, direction and endpoint are those of the handled command. */
    ghost predicate Settled(cbw: seq<byte>, before: Sense)
      requires |cbw| == CBW_SIZE
      reads this`senseKey, this`senseAsc, this`cswStatus, this`dataIn, this`dataOut, this`tx, this`lockState
    {
      && Sensed() == Judged(cbw, before) && tx == Endpoint(cbw)
      && (dataIn <==> TransferLength(cbw) > 0 && !IsWrite(cbw[OPCODE]) && !Rejects(cbw))
      && (dataOut <==> TransferLength(cbw) > 0 && IsWrite(cbw[OPCODE]))
    }

    /** The other commands: a fixed response, a status, or a refusal. */
    method HandleOther(op: byte)
      requires overlay.Length == CBW_SIZE && op == overlay[OPCODE] && op != READ10 && !IsWrite(op)
      requires WellFormed(overlay[..]) && HasSignature(overlay[..])
      requires tx == Nak && bytesLeft == TransferLength(overlay[..]) && 0 < capacity < TWO32
      requires dataIn == (bytesLeft > 0 && DirectionIn(overlay[..]))
      requires dataOut == (bytesLeft > 0 && !DirectionIn(overlay[..]))
      modifies this`bytesLeft, this`senseKey, this`senseAsc, this`cswStatus, this`fromInquiry
      modifies this`dataIn, this`dataOut, this`tx, this`rxStalled, overlay
      ensures overlay[OPCODE] != READ10 && Settled(old(overlay[..]), old(Sensed()))
      ensures rxStalled == (old(rxStalled) || old(dataOut))
      ensures IsQuery(op) && !IsRefused(old(overlay[..])) ==> Ready(op, old(bytesLeft), old(Sensed()))
    {
      hide Ready, TransferLength, DirectionIn, HasSignature, Refused;
      if op == INQUIRY {
        HandleInquiry();
      } else if op == READ_FORMAT_CAPACITY {
        HandleReadFormatCapacity();
      } else if op == READ_CAPACITY {
        HandleReadCapacity();
      } else if op == MODE_SENSE6 {
        HandleModeSense6();
      } else if op == MODE_SENSE10 {
        HandleModeSense10();
      } else if op == REQUEST_SENSE {
        HandleRequestSense();
      } else if op in [TEST_READY, PREVENT_REMOVE, VERIFY10, START_STOP, SYNC_CACHE] {
        SetSense(NO_ERROR, NO_ERROR, PASSED);
      } else {
        HandleUnsupported();
      }
    }

    // ---------- what every reachable state keeps ----------

    predicate NoFlags()
      reads this`dataIn, this`dataOut, this`cswPending, this`readPending, this`writePending
    {
      !dataIn && !dataOut && !cswPending && !readPending && !writePending
    }

    /** The main loop is executing a read, or a write. */
    predicate InRead()
      reads this`pc
    {
      pc == ReadStart || pc.ReadStream? || pc.ReadEnd?
    }

    predicate InWrite()
      reads this`pc
    {
      pc == WriteStart || pc.WriteStream? || pc == WriteEnd
    }

    /** The main loop has begun an unlock attempt that found the transport idle. */
    predicate InQuietUnlock()
      reads this`pc
    {
      pc == Search || pc.SecondCheck? || pc.Commit?
    }

    /** The lock: capacity, captured password, derivations and keys go together. */
    ghost predicate LockOk()
      reads this`lockState, this`capacity, this`pendingPw, this`pendingLen
      reads this`derivations, this`salt, this`dataKey, this`tweakKey
    {
      && LOCKED_SECTORS < cardSectors < TWO32 && |deviceSalt| == 8 && rounds >= 1
      && |pendingPw| == PASSWORD_MAX && pendingLen <= PASSWORD_MAX + 1
      && (lockState != Unlocked ==> derivations == [] && salt == deviceSalt && capacity == LOCKED_SECTORS)
      && (lockState == Unlocked ==>
            && pendingLen == 0 && pendingPw == Zeros(PASSWORD_MAX) && capacity == cardSectors - LOCKED_SECTORS
            && |derivations| == 1 && KeysFrom(derivations[0]))
    }

    /** The keys are what RFC 8018 derives from at most 128 password bytes and the device's own salt. */
    ghost predicate KeysFrom(d: Derivation)
      requires |deviceSalt| == 8 && rounds >= 1
      reads this`dataKey, this`tweakKey
    {
      && |d.password| == Min(d.captured, PASSWORD_MAX) && d.salt == deviceSalt
      && dataKey == T1(d.password, deviceSalt, rounds)
      && tweakKey == T1(d.password, NextSalt(deviceSalt), rounds)
    }

    /** Every accepted command but the one in progress has had exactly one status, with its own tag. */
    ghost predicate AccountsOk()
      reads this`accepted, this`statuses, this`cswPending, this`cbwTag, this`lastTag
    {
      && cbwTag == lastTag
      && accepted == |statuses| + (if cswPending then 1 else 0)
      && forall i :: 0 <= i < |statuses| ==> statuses[i].accepted == i + 1 && statuses[i].tag == statuses[i].lastTag
    }

    /** Every executed read was checked under the lock state it ran under. */
    ghost predicate ReadsOk()
      reads this`readLog
    {
      forall r :: r in readLog ==>
        && r.n > 0 && r.lockedAtCheck == r.lockedAtRun
        && (r.lockedAtRun ==> InDecoy(r.lba, r.n) && r.physical == r.lba)
        && (!r.lockedAtRun ==> r.physical == Add32(r.lba, LOCKED_SECTORS))
    }

    /** A read that has been checked and not yet started. */
    ghost predicate ReadChecked()
      reads this`bytesLeft, this`currentLba, this`checkedLocked, this`lockState
    {
      && bytesLeft > 0 && bytesLeft % SECTOR_SIZE == 0 && currentLba < TWO32
      && checkedLocked == IsLocked()
      && (IsLocked() ==> InDecoy(currentLba, bytesLeft / SECTOR_SIZE))
    }

    /** Where a command stands, as flags, endpoint, pending interrupt and host see it. */
    ghost predicate PhaseOk(inRead: bool, inWrite: bool)
      reads this`dataIn, this`dataOut, this`cswPending, this`readPending, this`writePending
      reads this`tx, this`irq, this`hostBusy, this`hostWrites, overlay
    {
      && overlay.Length == CBW_SIZE
      && (dataIn || dataOut ==> cswPending) && !(dataIn && dataOut)
      && (cswPending ==> hostBusy)
      && (tx.Csw? ==> NoFlags())
      && (!hostBusy ==> NoFlags() && !hostWrites && ((irq == NoIrq && tx == Nak) || (irq == InDone && tx.Csw?)))
      && (irq.OutPacket? ==> hostBusy && tx == Nak && !hostWrites && !dataIn && !readPending && !writePending)
      && (irq.OutPacket? && !dataOut ==> NoFlags() && WellFormed(irq.bytes))
      && (irq == InDone ==> !dataOut && (dataIn ==> tx.Data?))
      && (hostWrites ==> irq == NoIrq && dataOut && !writePending)
      && (dataOut ==> tx == Nak && (writePending || inWrite ==> irq == NoIrq))
      && (dataIn && overlay[OPCODE] != READ10 ==> tx.Data? && !readPending && !inRead)
      && (dataIn && overlay[OPCODE] == READ10 ==> tx == Nak && irq == NoIrq && (readPending <==> !inRead))
    }

    /** What the main loop's position says about the command in progress. */
    ghost predicate MainOk()
      reads this`dataIn, this`dataOut, this`cswPending, this`readPending, this`writePending
      reads this`tx, this`irq, this`hostWrites, this`pc
      reads this`bytesLeft, this`currentLba, this`checkedLocked, this`lockState
    {
      && (readPending ==> dataIn && !InRead() && ReadChecked())
      && (InRead() ==> dataIn && tx == Nak && irq == NoIrq && !readPending)
      && (pc == ReadStart ==> ReadChecked())
      && (pc.ReadStream? ==>
            && pc.n > 0 && pc.physical == PhysicalLba(lockState, currentLba) && currentLba < TWO32
            && checkedLocked == IsLocked() && (IsLocked() ==> InDecoy(currentLba, pc.n)))
      && (writePending ==> dataOut && !InWrite())
      && (InWrite() ==> dataOut && !writePending && !hostWrites)
      && (pc == WriteEnd || pc.WriteStream? ==> bytesLeft == 0)
      && (InQuietUnlock() ==> NoFlags() && tx == Nak && irq == NoIrq && !hostWrites)
    }

    /** What the main loop's position says about the lock and the interrupts that are off for an unlock. */
    ghost predicate UnlockOk()
      reads this`pc, this`irqEnabled, this`rxAck, this`lockState, this`pendingLen
    {
      && (irqEnabled <==> !(InQuietUnlock() || pc == NakRx || pc == FirstCheck))
      && (rxAck <==> !(InQuietUnlock() || pc == FirstCheck))
      && (pc == TryUnlock || pc == NakRx || pc == FirstCheck || InQuietUnlock() ==> lockState == UnlockPending)
      && (pc == NakRx || pc == FirstCheck || InQuietUnlock() ==> pendingLen > 0)
      && (pc.SecondCheck? || pc.Commit? ==>
            && (pc.found.Some? ==> 1 <= pc.found.value <= PASSWORD_MAX) && (pc.found.None? ==> pc.timedOut))
    }

    ghost predicate Valid()
      reads this, overlay
    {
      LockOk() && AccountsOk() && ReadsOk() && PhaseOk(InRead(), InWrite()) && MainOk() && UnlockOk()
    }

    constructor (cardSectors: nat, deviceSalt: seq<byte>, rounds: nat, inquiry: Inquiry)
      requires LOCKED_SECTORS < cardSectors < TWO32 && |deviceSalt| == 8 && rounds >= 1
      ensures Valid() && lockState == Locked && derivations == [] && readLog == [] && statuses == [] && accepted == 0
      ensures pc == Top && !hostBusy && irq == NoIrq && !rxStalled && !otherFlag && fresh(overlay)
      ensures this.cardSectors == cardSectors && this.deviceSalt == deviceSalt && this.rounds == rounds
      ensures this.inquiry == inquiry
    {
      dataIn, dataOut, cswPending := false, false, false;
      capacity := LOCKED_SECTORS;
      cbwTag, lastTag := Zeros(4), Zeros(4);
      senseKey, senseAsc, cswStatus, bytesLeft, currentLba := 0, 0, 0, 0, 0;
      readPending, writePending := false, false;
      overlay := new byte[CBW_SIZE];
      tx, irq, irqEnabled, rxAck, rxStalled, otherFlag := Nak, NoIrq, true, true, false, false;
      lockState, pendingPw, pendingLen := Locked, Zeros(PASSWORD_MAX), 0;
      salt, dataKey, tweakKey := deviceSalt, Zeros(32), Zeros(32);
      this.deviceSalt, this.rounds, this.cardSectors := deviceSalt, rounds, cardSectors;
      this.inquiry, fromInquiry := inquiry, false;
      pc, hostBusy, hostWrites := Top, false, false;
      checkedLocked, accepted, statuses, readLog, derivations := true, 0, [], [], [];
    }

    // ---------- interrupt handlers ----------

    /** A completed IN packet: the next response packet, the start of a read, or the status. */
    method HandleBulkIn()
      requires overlay.Length == CBW_SIZE && AccountsOk()
      modifies this`tx, this`dataIn, this`dataOut, this`cswPending, this`readPending, this`bytesLeft
      modifies this`statuses, overlay
      ensures AccountsOk() && overlay[OPCODE] == old(overlay[OPCODE])
      ensures statuses == if !old(dataIn) && old(cswPending)
                          then old(statuses) + [Status(cbwTag, cswStatus, accepted, lastTag)] else old(statuses)
      ensures old(dataIn && overlay[OPCODE] == READ10) ==>
                && readPending && dataIn && tx == old(tx)
                && dataOut == old(dataOut) && cswPending == old(cswPending) && bytesLeft == old(bytesLeft)
      ensures !old(dataIn && overlay[OPCODE] == READ10) ==> readPending == old(readPending)
      ensures old(dataIn && overlay[OPCODE] != READ10) ==>
                && Sends(Min(PACK_SIZE, old(bytesLeft))) && dataIn == (bytesLeft > 0)
                && bytesLeft == old(bytesLeft) - |tx.bytes|
                && dataOut == old(dataOut) && cswPending == old(cswPending)
      ensures !old(dataIn) ==> bytesLeft == old(bytesLeft)
      ensures !old(dataIn) && old(cswPending) ==>
                !dataIn && !dataOut && !cswPending && tx == Csw(cbwTag, cswStatus)
      ensures !old(dataIn) && !old(cswPending) ==>
                !dataIn && !cswPending && dataOut == old(dataOut) && tx == old(tx)
    {
      hide AccountsOk;
      if dataIn {
        if overlay[OPCODE] == READ10 {
          readPending := true;
        } else {
          SendResponseData();
        }
      } else if cswPending {
        SendCsw();
      }
    }

    /** A packet without the signature: everything is stalled and no status will follow. */
    method RejectInvalidCbwSignature()
      modifies this`senseKey, this`senseAsc, this`cswStatus, this`dataIn, this`dataOut, this`tx, this`rxStalled
      ensures !dataIn && !dataOut && tx == Stall && rxStalled && cswStatus == PHASE_ERROR
    {
      SetSense(ILLEGAL_REQUEST, INVALID_COMMAND, PHASE_ERROR);
      dataIn := true;
      dataOut := true;
      StallActiveDataEndpoints();
    }

    /** The parsed address and length are those of the command. */
    predicate Parsed(cbw: seq<byte>)
      requires |cbw| == CBW_SIZE
      reads this`currentLba, this`bytesLeft
    {
      currentLba == BigEndian32(cbw, 17) && bytesLeft == SECTOR_SIZE * BlockCount(cbw)
    }

    /** What the handler of a command leaves behind before anything is answered. */
    ghost predicate Handled(cbw: seq<byte>, before: Sense)
      requires |cbw| == CBW_SIZE
      reads this`dataIn, this`dataOut, this`tx, this`cswStatus, overlay
      reads this`bytesLeft, this`currentLba, this`checkedLocked, this`lockState
      reads this`senseKey, this`senseAsc, this`capacity, this`fromInquiry
    {
      && overlay.Length == CBW_SIZE && (overlay[OPCODE] == READ10 <==> cbw[OPCODE] == READ10)
      && Settled(cbw, before)
      && (cbw[OPCODE] == READ10 || IsWrite(cbw[OPCODE]) ==> Parsed(cbw))
      && (dataIn && cbw[OPCODE] == READ10 ==> ReadChecked())
      && (IsQuery(cbw[OPCODE]) && !IsRefused(cbw) ==> Ready(cbw[OPCODE], TransferLength(cbw), before))
    }

    /** Hands an accepted command to its handler. */
    method DispatchCommand()
      requires overlay.Length == CBW_SIZE && WellFormed(overlay[..]) && HasSignature(overlay[..])
      requires tx == Nak && bytesLeft == TransferLength(overlay[..]) && 0 < capacity < TWO32
      requires dataIn == (bytesLeft > 0 && DirectionIn(overlay[..]))
      requires dataOut == (bytesLeft > 0 && !DirectionIn(overlay[..]))
      modifies this`bytesLeft, this`dataIn, this`dataOut, this`rxStalled, this`fromInquiry
      modifies this`senseKey, this`senseAsc, this`cswStatus, this`tx, this`currentLba, this`checkedLocked, overlay
      ensures Handled(old(overlay[..]), old(Sensed()))
      ensures rxStalled == (old(rxStalled) || (old(dataOut) && !dataOut))
    {
      hide ReadChecked, BigEndian32, LittleEndian32, BlockCount, HasSignature, Ready;
      ghost var cbw := overlay[..];
      if overlay[OPCODE] == READ10 {
        HandleRead10();
        CheckedRead();
      } else if overlay[OPCODE] == WRITE10 || overlay[OPCODE] == WRITE_VERIFY10 {
        HandleWrite10();
      } else {
        HandleOther(overlay[OPCODE]);
      }
    }

    /** What a received packet of a command's size leaves behind before anything is answered. */
    ghost predicate Dispatched(cbw: seq<byte>, before: Sense)
      requires |cbw| == CBW_SIZE
      reads this`dataIn, this`dataOut, this`tx, this`cswStatus, overlay
      reads this`bytesLeft, this`currentLba, this`checkedLocked, this`lockState
      reads this`senseKey, this`senseAsc, this`capacity, this`fromInquiry
      reads this`cswPending, this`cbwTag, this`lastTag
    {
      if HasSignature(cbw) then
        Handled(cbw, before) && cswPending && cbwTag == TagOf(cbw) && lastTag == TagOf(cbw)
      else
        overlay.Length == CBW_SIZE && !dataIn && !dataOut && !cswPending && tx == Stall && cswStatus == PHASE_ERROR
    }

    /** Dispatches the command that has been copied into the shared buffer. */
    method DispatchScsi()
      requires overlay.Length == CBW_SIZE && WellFormed(overlay[..]) && NoFlags() && tx == Nak
      requires AccountsOk() && 0 < capacity < TWO32
      modifies this`cbwTag, this`bytesLeft, this`dataIn, this`dataOut, this`cswPending, this`accepted, this`lastTag
      modifies this`rxStalled, this`fromInquiry
      modifies this`senseKey, this`senseAsc, this`cswStatus, this`tx, this`currentLba, this`checkedLocked, overlay
      ensures Dispatched(old(overlay[..]), old(Sensed())) && AccountsOk()
      ensures dataOut ==> rxStalled == old(rxStalled)
      ensures !HasSignature(old(overlay[..])) ==> rxStalled
      ensures accepted == old(accepted) + (if HasSignature(old(overlay[..])) then 1 else 0)
    {
      hide Handled, TransferLength, DirectionIn, WellFormed;
      ghost var cbw := overlay[..];
      assert cbw[..4] == overlay[..4];
      if overlay[..4] != [0x55, 0x53, 0x42, 0x43] {
        RejectInvalidCbwSignature();
        return;
      }
      BeginCbwTransfer();
      assert overlay[4..8] == TagOf(cbw);
      DispatchCommand();
    }

    lemma CheckedRead()
      requires currentLba < TWO32 && checkedLocked == IsLocked() && bytesLeft % SECTOR_SIZE == 0
      ensures bytesLeft > 0 && (IsLocked() ==> InDecoy(currentLba, bytesLeft / SECTOR_SIZE)) ==> ReadChecked()
    {
    }

    /** What stands after a command has been dispatched and answered as far as it can be. */
    ghost predicate Answered()
      reads this, overlay
    {
      && overlay.Length == CBW_SIZE && !writePending && hostWrites == dataOut && irq == NoIrq
      && (dataIn || dataOut ==> cswPending) && !(dataIn && dataOut)
      && (tx.Csw? ==> NoFlags())
      && (dataOut ==> tx == Nak && !readPending)
      && (readPending ==> dataIn && ReadChecked())
      && (dataIn ==> if overlay[OPCODE] == READ10 then tx == Nak && readPending else tx.Data? && !readPending)
    }

    /** Response data or status, whichever is due first. */
    method AnswerOther()
      requires overlay.Length == CBW_SIZE && AccountsOk() && !dataOut && (dataIn || cswStatus == PASSED ==> cswPending)
      modifies this`statuses, this`bytesLeft, this`dataIn, this`dataOut, this`cswPending, this`tx, overlay
      ensures AccountsOk() && !dataOut && overlay[OPCODE] == old(overlay[OPCODE])
      ensures old(dataIn) ==>
                && Sends(Min(PACK_SIZE, old(bytesLeft))) && bytesLeft == old(bytesLeft) - |tx.bytes|
                && dataIn == (bytesLeft > 0) && cswPending && statuses == old(statuses)
                && ResponseBuffer() == old(ResponseBuffer())
      ensures !old(dataIn) && cswStatus == PASSED ==>
                && !dataIn && tx == Csw(cbwTag, PASSED) && !cswPending
                && statuses == old(statuses) + [Status(cbwTag, PASSED, accepted, lastTag)]
      ensures !old(dataIn) && cswStatus != PASSED ==>
                !dataIn && tx == old(tx) && cswPending == old(cswPending) && statuses == old(statuses)
    {
      hide AccountsOk;
      if dataIn {
        SendResponseData();
      } else if cswStatus == PASSED {
        SendCsw();
      }
    }

    /** A dispatched command is answered at once, unless the host has data to send or a status is owed. */
    method AnswerCommand()
      requires overlay.Length == CBW_SIZE && AccountsOk() && irq == NoIrq && !readPending && !writePending
      requires (dataIn || dataOut ==> cswPending && tx == Nak) && !(dataIn && dataOut)
      requires tx == Nak || tx == Stall
      requires dataIn && overlay[OPCODE] == READ10 ==> ReadChecked()
      requires !cswPending ==> cswStatus != PASSED
      modifies this`hostWrites, this`readPending, this`statuses, this`bytesLeft
      modifies this`dataIn, this`dataOut, this`cswPending, this`tx, overlay
      ensures AccountsOk() && Answered() && overlay[OPCODE] == old(overlay[OPCODE]) && old(statuses) <= statuses
      ensures dataOut == old(dataOut) && readPending == old(dataIn && overlay[OPCODE] == READ10)
      ensures dataOut || readPending ==> cswPending && bytesLeft == old(bytesLeft) && statuses == old(statuses)
      ensures old(dataIn) && old(overlay[OPCODE]) != READ10 ==>
                && Sends(Min(PACK_SIZE, old(bytesLeft))) && bytesLeft == old(bytesLeft) - |tx.bytes|
                && dataIn == (bytesLeft > 0) && cswPending && statuses == old(statuses)
                && ResponseBuffer() == old(ResponseBuffer())
      ensures !old(dataIn) && !old(dataOut) && cswStatus == PASSED ==>
                && !dataIn && tx == Csw(cbwTag, PASSED) && !cswPending
                && statuses == old(statuses) + [Status(cbwTag, PASSED, accepted, lastTag)]
      ensures !old(dataIn) && cswStatus != PASSED ==>
                && tx == old(tx) && !dataIn && !readPending
                && cswPending == old(cswPending) && statuses == old(statuses)
    {
      hide AccountsOk, ReadChecked, Sends;
      hostWrites := dataOut;
      if !dataOut {
        if dataIn && overlay[OPCODE] == READ10 {
          readPending := true;
        } else {
          AnswerOther();
          DataQueued();
        }
      }
    }

    lemma DataQueued()
      ensures forall n: nat :: Sends(n) ==> tx.Data?
    {
    }

    /** A READ(10) with a data phase is queued, or it is stalled with its status still owed. */
    predicate ReadAnswered(cbw: seq<byte>)
      requires |cbw| == CBW_SIZE
      reads this`dataIn, this`cswPending, this`cswStatus, this`tx, this`readPending
      reads this`currentLba, this`bytesLeft, this`lockState
    {
      if Refused(cbw) then cswPending && !dataIn && !readPending && tx == Stall && cswStatus == FAILED
      else readPending && cswPending && cswStatus == PASSED && Parsed(cbw)
    }

    /** A command without a data phase, or a failed one, has its status at once, unless that is FAILED. */
    ghost predicate StatusDue(cbw: seq<byte>)
      requires |cbw| == CBW_SIZE
      reads this`dataIn, this`cswPending, this`cswStatus, this`tx, this`readPending, this`lockState
    {
      && !dataIn && !readPending
      && if cswStatus == PASSED then !cswPending && tx == Csw(TagOf(cbw), PASSED)
         else cswPending && tx == Endpoint(cbw)
    }

    /** The data phase of a command that has not failed is under way. */
    ghost predicate DataDue(cbw: seq<byte>, before: Sense)
      requires |cbw| == CBW_SIZE
      reads this`dataIn, this`cswPending, this`tx, this`bytesLeft, this`capacity, this`hostWrites, this`readPending
      reads this`currentLba
    {
      var (op, length) := (cbw[OPCODE], TransferLength(cbw));
      && cswPending
      && if op == READ10 then readPending && Parsed(cbw)
         else if IsWrite(op) then hostWrites && Parsed(cbw)
         else
           && tx.Data? && dataIn == (bytesLeft > 0)
           && (IsQuery(op) ==> Carries(tx.bytes, bytesLeft, op, length, before, capacity))
    }

    /** A first packet of a response, with `left` bytes to come. */
    ghost predicate Carries(packet: seq<byte>, left: nat, op: byte, length: nat, before: Sense, capacity: nat) {
      && capacity > 0
      && var r := ResponseTo(op, capacity, before, inquiry);
         && |packet| == Min(PACK_SIZE, if op == REQUEST_SENSE then length else Min(length, |r|))
         && left == (if op == REQUEST_SENSE then length - |packet| else 0)
         && Front(packet, r, Min(|packet|, |r|))
    }

    lemma PacketCarries(buffer: seq<byte>, packet: seq<byte>, left: nat, op: byte, length: nat, before: Sense,
                        capacity: nat)
      requires ReadyIn(buffer, left, op, length, before, capacity)
      requires |packet| == Min(PACK_SIZE, left) && Front(packet, buffer, Min(|packet|, |buffer|))
      ensures Carries(packet, left - |packet|, op, length, before, capacity)
    {
      hide ResponseTo;
    }

    /** The response to a query: from what its handler left in `buffer` and `left` to the first packet. */
    lemma QueryAnswered(buffer: seq<byte>, left: nat, op: byte, length: nat, before: Sense)
      requires ReadyIn(buffer, left, op, length, before, capacity)
      requires Sends(Min(PACK_SIZE, left)) && ResponseBuffer() == buffer && bytesLeft == left - |tx.bytes|
      ensures Carries(tx.bytes, bytesLeft, op, length, before, capacity)
    {
      hide ReadyIn, Carries, Front;
      PacketCarries(buffer, tx.bytes, left, op, length, before, capacity);
    }

    /** A received command has been taken up: it is answered as far as it can be without the host. */
    ghost predicate TakenUp(cbw: seq<byte>, before: Sense)
      requires |cbw| == CBW_SIZE
      reads this`dataIn, this`dataOut, this`cswPending, this`cswStatus, this`tx, this`readPending
      reads this`senseKey, this`senseAsc, this`capacity
      reads this`currentLba, this`bytesLeft, this`lockState, this`lastTag, this`hostWrites, overlay
    {
      && overlay.Length == CBW_SIZE && lastTag == TagOf(cbw)
      && (overlay[OPCODE] == READ10 <==> cbw[OPCODE] == READ10)
      && Sensed() == Judged(cbw, before) && (dataOut <==> IsWrite(cbw[OPCODE]) && TransferLength(cbw) > 0)
      && if TransferLength(cbw) == 0 || Rejects(cbw) then StatusDue(cbw) else DataDue(cbw, before)
    }

    /** What the dispatch has left is answered as far as it can be. */
    method AnswerDispatched(ghost cbw: seq<byte>, ghost before: Sense)
      requires |cbw| == CBW_SIZE && Dispatched(cbw, before) && AccountsOk()
      requires irq == NoIrq && !readPending && !writePending
      modifies this`hostWrites, this`readPending, this`statuses, this`bytesLeft
      modifies this`dataIn, this`dataOut, this`cswPending, this`tx, overlay
      ensures AccountsOk() && Answered() && dataOut == old(dataOut)
      ensures HasSignature(cbw) ==>
                && TakenUp(cbw, before)
                && statuses == old(statuses) + (if cswPending then [] else [AnswerTo(cbw, false, accepted)])
      ensures !HasSignature(cbw) ==> NoFlags() && statuses == old(statuses) && tx == Stall
    {
      hide AccountsOk, ReadChecked, BlockCount, HasSignature, BigEndian32, TransferLength, TagOf;
      hide Sends, ReadyIn, Carries;
      ghost var (buffer, left, wasIn) := (ResponseBuffer(), bytesLeft, dataIn);
      AnswerCommand();
      DataQueued();
      if HasSignature(cbw) && IsQuery(cbw[OPCODE]) && wasIn {
        QueryAnswered(buffer, left, cbw[OPCODE], TransferLength(cbw), before);
      }
    }

    /** Dispatches the command in the shared buffer, and answers it as far as it can be. */
    method TakeCommand()
      requires overlay.Length == CBW_SIZE && AccountsOk() && 0 < capacity < TWO32 && irq == NoIrq
      requires tx == Nak && NoFlags() && WellFormed(overlay[..])
      modifies this`cbwTag, this`bytesLeft, this`dataIn, this`dataOut, this`cswPending, this`accepted, this`lastTag
      modifies this`rxStalled, this`fromInquiry
      modifies this`senseKey, this`senseAsc, this`cswStatus, this`tx, this`currentLba, this`checkedLocked, overlay
      modifies this`readPending, this`statuses, this`hostWrites
      ensures AccountsOk() && old(statuses) <= statuses && Answered()
      ensures HasSignature(old(overlay[..])) ==>
                && TakenUp(old(overlay[..]), old(Sensed())) && accepted == old(accepted) + 1
                && statuses == old(statuses)
                               + (if cswPending then [] else [AnswerTo(old(overlay[..]), false, accepted)])
                && (dataOut ==> rxStalled == old(rxStalled))
      ensures !HasSignature(old(overlay[..])) ==>
                && NoFlags() && accepted == old(accepted) && statuses == old(statuses) && rxStalled && tx == Stall
    {
      hide AccountsOk, WellFormed, HasSignature, Dispatched, TakenUp, Answered;
      ghost var cbw := overlay[..];
      ghost var before := Sensed();
      DispatchScsi();
      AnswerDispatched(cbw, before);
    }

    /** A received OUT packet: the first packet of a write, or a command. */
    method HandleBulkOut(packet: seq<byte>)
      requires overlay.Length == CBW_SIZE && AccountsOk() && 0 < capacity < TWO32 && irq == NoIrq && !hostWrites
      requires tx == Nak && !dataIn && !readPending && !writePending
      requires !dataOut ==> NoFlags() && WellFormed(packet)
      modifies this`cbwTag, this`bytesLeft, this`dataIn, this`dataOut, this`cswPending, this`accepted, this`lastTag
      modifies this`rxStalled, this`fromInquiry
      modifies this`senseKey, this`senseAsc, this`cswStatus, this`tx, this`currentLba, this`checkedLocked, overlay
      modifies this`readPending, this`writePending, this`statuses, this`hostWrites
      ensures AccountsOk() && old(statuses) <= statuses
      ensures old(dataOut) ==>
                && writePending && dataOut && !dataIn && !readPending && tx == Nak && !hostWrites
                && cswPending == old(cswPending) && overlay[OPCODE] == old(overlay[OPCODE])
                && bytesLeft == old(bytesLeft) && currentLba == old(currentLba)
                && accepted == old(accepted) && statuses == old(statuses)
                && Sensed() == old(Sensed()) && cbwTag == old(cbwTag) && lastTag == old(lastTag)
                && rxStalled == old(rxStalled)
      ensures !old(dataOut) ==> Answered()
      ensures !old(dataOut) && |packet| == CBW_SIZE && HasSignature(packet) ==>
                && TakenUp(packet, old(Sensed())) && accepted == old(accepted) + 1
                && statuses == old(statuses) + (if cswPending then [] else [AnswerTo(packet, false, accepted)])
                && (dataOut ==> rxStalled == old(rxStalled))
      ensures !old(dataOut) && !(|packet| == CBW_SIZE && HasSignature(packet)) ==>
                && NoFlags() && accepted == old(accepted) && statuses == old(statuses)
                && (|packet| == CBW_SIZE ==> rxStalled && tx == Stall)
    {
      hide AccountsOk, ReadChecked, WellFormed, HasSignature, TakenUp;
      if dataOut {
        writePending := true;
      } else if |packet| == CBW_SIZE {
        CopyBytes(overlay, 0, packet);
        assert overlay[..] == packet;
        TakeCommand();
      }
    }

    lemma CapacityOk()
      requires LockOk()
      ensures 0 < capacity < TWO32
    {
    }

    lemma CardFacts()
      requires Valid()
      ensures LOCKED_SECTORS < cardSectors < TWO32
    {
    }

    lemma InQuietUnlockOff()
      requires UnlockOk() && irqEnabled
      ensures !InQuietUnlock()
    {
    }

    lemma OutPacketFacts()
      requires Valid() && irqEnabled && irq.OutPacket?
      ensures overlay.Length == CBW_SIZE && hostBusy && !hostWrites && tx == Nak
      ensures !dataIn && !readPending && !writePending && !InRead() && !InWrite() && !InQuietUnlock()
      ensures !dataOut ==> NoFlags() && WellFormed(irq.bytes)
    {
    }

    /** A completed IN transfer, as the USB interrupt handles it. */
    method CompleteIn()
      requires Valid() && irqEnabled && irq == InDone
      modifies this`tx, this`irq, this`dataIn, this`dataOut, this`cswPending, this`readPending, this`bytesLeft
      modifies this`statuses, overlay
      ensures Valid() && irq == NoIrq
      ensures old(dataIn) ==>
                && Sends(Min(PACK_SIZE, old(bytesLeft))) && bytesLeft == old(bytesLeft) - |tx.bytes|
                && dataIn == (bytesLeft > 0) && cswPending == old(cswPending) && statuses == old(statuses)
      ensures !old(dataIn) && old(cswPending) ==>
                && tx == Csw(cbwTag, cswStatus)
                && statuses == old(statuses) + [Status(cbwTag, cswStatus, accepted, lastTag)]
      ensures !old(dataIn) && !old(cswPending) ==> tx == Nak && statuses == old(statuses)
      ensures old(NoFlags()) ==> NoFlags()
    {
      hide LockOk, AccountsOk, ReadsOk, UnlockOk, ReadChecked, WellFormed;
      InQuietUnlockOff();
      irq := NoIrq;
      tx := Nak;
      HandleBulkIn();
    }

    /** A received OUT packet, as the USB interrupt handles it. */
    method CompleteOut(packet: seq<byte>)
      requires Valid() && irqEnabled && irq == OutPacket(packet)
      modifies this`cbwTag, this`bytesLeft, this`dataIn, this`dataOut, this`cswPending, this`accepted, this`lastTag
      modifies this`rxStalled, this`fromInquiry
      modifies this`senseKey, this`senseAsc, this`cswStatus, this`tx, this`currentLba, this`checkedLocked, overlay
      modifies this`readPending, this`writePending, this`statuses, this`hostWrites, this`irq
      ensures Valid() && irq == NoIrq && old(statuses) <= statuses
      ensures old(dataOut) ==>
                && writePending && !readPending && accepted == old(accepted) && statuses == old(statuses)
                && Sensed() == old(Sensed()) && cbwTag == old(cbwTag) && lastTag == old(lastTag)
                && rxStalled == old(rxStalled)
      ensures !old(dataOut) && |packet| == CBW_SIZE && HasSignature(packet) ==>
                && TakenUp(packet, old(Sensed())) && accepted == old(accepted) + 1
                && statuses == old(statuses) + (if cswPending then [] else [AnswerTo(packet, false, accepted)])
                && (dataOut ==> rxStalled == old(rxStalled))
      ensures !old(dataOut) && !(|packet| == CBW_SIZE && HasSignature(packet)) ==>
                && NoFlags() && accepted == old(accepted) && statuses == old(statuses)
                && (|packet| == CBW_SIZE ==> rxStalled && tx == Stall)
    {
      hide LockOk, AccountsOk, ReadsOk, UnlockOk, ReadChecked, WellFormed, HasSignature, TakenUp;
      CapacityOk();
      OutPacketFacts();
      irq := NoIrq;
      HandleBulkOut(packet);
    }

    // ---------- the host and the wire ----------

    /** The host sends a command when it has none outstanding and the endpoint takes it. */
    method HostSendsCbw(bytes: seq<byte>)
      requires Valid() && WellFormed(bytes)
      modifies this`irq, this`hostBusy
      ensures Valid()
      ensures if !old(hostBusy) && old(irq) == NoIrq && rxAck && !rxStalled
              then irq == OutPacket(bytes) && hostBusy
              else irq == old(irq) && hostBusy == old(hostBusy)
    {
      hide LockOk, AccountsOk, ReadsOk, ReadChecked, WellFormed;
      if !hostBusy && irq == NoIrq && rxAck && !rxStalled {
        irq := OutPacket(bytes);
        hostBusy := true;
      }
    }

    /** The host sends the first packet of the data that its WRITE(10) announced. */
    method HostSendsData(bytes: seq<byte>)
      requires Valid()
      modifies this`irq, this`hostWrites
      ensures Valid()
      ensures irq == if old(hostWrites) && rxAck && !rxStalled then OutPacket(bytes) else old(irq)
    {
      hide LockOk, AccountsOk, ReadsOk, ReadChecked, WellFormed;
      if hostWrites && rxAck && !rxStalled {
        irq := OutPacket(bytes);
        hostWrites := false;
      }
    }

    /** The host takes a response packet or a status; with the status its command is over. */
    method HostTakesIn()
      requires Valid()
      modifies this`irq, this`hostBusy
      ensures Valid()
      ensures var taken := old(irq) == NoIrq && (tx.Data? || tx.Csw?);
              && irq == (if taken then InDone else old(irq))
              && hostBusy == (old(hostBusy) && !(taken && tx.Csw?))
    {
      hide LockOk, AccountsOk, ReadsOk, ReadChecked, WellFormed;
      if irq == NoIrq && (tx.Data? || tx.Csw?) {
        irq := InDone;
        if tx.Csw? {
          hostBusy := false;
        }
      }
    }

    /** The host clears a stall of the IN endpoint, after which the IN handler may or may not run. */
    method HostClearsHalt(raise: bool)
      requires Valid()
      modifies this`irq, this`tx
      ensures Valid()
      ensures var cleared := old(tx) == Stall && old(irq) == NoIrq;
              && tx == (if cleared then Nak else old(tx))
              && irq == (if cleared && raise then InDone else old(irq))
    {
      hide LockOk, AccountsOk, ReadsOk, ReadChecked, WellFormed;
      if tx == Stall && irq == NoIrq {
        tx := Nak;
        if raise {
          irq := InDone;
        }
      }
    }

    /** The host clears a stall of the OUT endpoint. */
    method HostClearsOutHalt()
      requires Valid()
      modifies this`rxStalled
      ensures Valid() && !rxStalled
    {
      hide LockOk, AccountsOk, ReadsOk, PhaseOk, MainOk, UnlockOk;
      rxStalled := false;
    }

    /** No command, no queued disk work, nothing on the wire. */
    predicate UsbIsIdle()
      reads this`dataIn, this`dataOut, this`cswPending, this`readPending, this`writePending
      reads this`tx, this`irq, this`otherFlag
    {
      NoFlags() && tx == Nak && irq == NoIrq && !otherFlag
    }

    // Shortcuts between the invariant and the few facts that a step uses or leaves.

    lemma InReadFacts()
      requires Valid() && InRead()
      ensures overlay.Length == CBW_SIZE && dataIn && !dataOut && cswPending && !readPending && !writePending
      ensures hostBusy && !hostWrites && tx == Nak && irq == NoIrq && irqEnabled && rxAck
    {
    }

    lemma InWriteFacts()
      requires Valid() && InWrite()
      ensures overlay.Length == CBW_SIZE && !dataIn && dataOut && cswPending && !readPending && !writePending
      ensures hostBusy && !hostWrites && tx == Nak && irq == NoIrq && irqEnabled && rxAck
      ensures pc.WriteStream? || pc == WriteEnd ==> bytesLeft == 0
    {
    }

    lemma InQuietUnlockFacts()
      requires Valid() && InQuietUnlock()
      ensures overlay.Length == CBW_SIZE && NoFlags() && !hostWrites && lockState == UnlockPending
    {
    }

    lemma CommitFacts()
      requires Valid() && pc.Commit?
      ensures pc.found.Some? ==> 1 <= pc.found.value <= PASSWORD_MAX
    {
    }

    /** With the status queued, or with nothing going on, the phases are in order. */
    lemma AtRest()
      requires overlay.Length == CBW_SIZE && NoFlags() && !hostWrites && irq == NoIrq && irqEnabled && rxAck
      requires tx == Nak || (tx.Csw? && hostBusy)
      requires pc == Top || pc == CheckWrite || pc == CheckUnlock
      ensures PhaseOk(InRead(), InWrite()) && MainOk() && UnlockOk()
    {
    }

    lemma WriteStored()
      requires pc == WriteEnd && dataOut && !readPending && !writePending && !hostWrites && irqEnabled && rxAck
      requires bytesLeft == 0
      ensures MainOk() && UnlockOk()
    {
    }

    // ---------- the main loop ----------

    /** Takes up a queued read. */
    method PollRead()
      requires Valid() && pc == Top
      modifies this`pc, this`readPending
      ensures Valid() && pc == (if old(readPending) then ReadStart else CheckWrite) && !readPending
    {
      hide LockOk, AccountsOk, ReadsOk, WellFormed, ReadChecked;
      if readPending {
        readPending := false;
        pc := ReadStart;
      } else {
        pc := CheckWrite;
      }
    }

    /** Takes length and card address of the read; from here they are fixed. */
    method StartRead()
      requires Valid() && pc == ReadStart
      modifies this`pc, this`bytesLeft
      ensures Valid() && pc == ReadStream(old(bytesLeft) / SECTOR_SIZE, PhysicalLba(lockState, currentLba))
    {
      hide LockOk, AccountsOk, ReadsOk, WellFormed;
      var n := bytesLeft / SECTOR_SIZE;
      bytesLeft := 0;
      pc := ReadStream(n, PhysicalLba(lockState, currentLba));
    }

    /** Streams the sectors; interrupts are off meanwhile. */
    method StreamRead()
      requires Valid() && pc.ReadStream?
      modifies this`pc, this`readLog
      ensures Valid() && pc == ReadEnd(old(pc).n)
      ensures readLog == old(readLog) + [Read(currentLba, old(pc).n, checkedLocked, IsLocked(), old(pc).physical)]
    {
      hide LockOk, AccountsOk, WellFormed, ReadChecked;
      readLog := readLog + [Read(currentLba, pc.n, checkedLocked, IsLocked(), pc.physical)];
      pc := ReadEnd(pc.n);
    }

    /** Advances the address and queues the status of the read. */
    method EndRead()
      requires Valid() && pc.ReadEnd?
      modifies this`pc, this`currentLba
      modifies this`dataIn, this`dataOut, this`cswPending, this`tx, this`statuses, overlay
      ensures Valid() && pc == CheckWrite && currentLba == Add32(old(currentLba), old(pc).n)
      ensures tx == Csw(cbwTag, cswStatus)
      ensures statuses == old(statuses) + [Status(cbwTag, cswStatus, accepted, lastTag)]
    {
      hide LockOk, AccountsOk, ReadsOk, PhaseOk, MainOk;
      InReadFacts();
      currentLba := Add32(currentLba, pc.n);
      SendCsw();
      dataIn := false;
      pc := CheckWrite;
      AtRest();
    }

    /** Takes up a queued write. */
    method PollWrite()
      requires Valid() && pc == CheckWrite
      modifies this`pc, this`writePending
      ensures Valid() && pc == (if old(writePending) then WriteStart else CheckUnlock) && !writePending
    {
      hide LockOk, AccountsOk, ReadsOk, WellFormed, ReadChecked;
      if writePending {
        writePending := false;
        pc := WriteStart;
      } else {
        pc := CheckUnlock;
      }
    }

    method StartWrite()
      requires Valid() && pc == WriteStart
      modifies this`pc, this`bytesLeft
      ensures Valid() && pc == WriteStream(old(bytesLeft) / SECTOR_SIZE)
    {
      hide LockOk, AccountsOk, ReadsOk, WellFormed, ReadChecked;
      var n := bytesLeft / SECTOR_SIZE;
      bytesLeft := 0;
      pc := WriteStream(n);
    }

    /** A locked write has captured, continued or dropped a password. */
    method CapturePassword(password: seq<byte>, length: nat, capture: bool)
      requires LockOk() && IsLocked() && |password| == PASSWORD_MAX && length <= PASSWORD_MAX + 1
      modifies this`lockState, this`pendingPw, this`pendingLen
      ensures LockOk() && pendingPw == password && pendingLen == length && IsLocked()
      ensures lockState == if capture then UnlockPending else old(lockState)
    {
      pendingPw := password;
      pendingLen := length;
      if capture {
        lockState := UnlockPending;
      }
    }

    /** What a write stream leaves behind: perhaps a captured password, perhaps an error. */
    method WriteResult(o: Outcome)
      requires LockOk() && o.Valid()
      modifies this`lockState, this`pendingPw, this`pendingLen
      modifies this`senseKey, this`senseAsc, this`cswStatus
      ensures LockOk() && IsLocked() == old(IsLocked())
      ensures pendingPw == if old(IsLocked()) then o.captured else old(pendingPw)
      ensures pendingLen == if old(IsLocked()) then o.capturedLen else old(pendingLen)
      ensures lockState == if old(IsLocked()) && o.capture then UnlockPending else old(lockState)
      ensures Sensed() == if o.writeOk then old(Sensed()) else Sense(MEDIUM_ERROR, WRITE_ERROR, FAILED)
    {
      hide LockOk;
      if IsLocked() {
        CapturePassword(o.captured, o.capturedLen, o.capture);
      }
      if !o.writeOk {
        SetSense(MEDIUM_ERROR, WRITE_ERROR, FAILED);
      }
    }

    /** Stores the sectors; a write to a locked drive may leave a captured password behind. */
    method StreamWrite(o: Outcome)
      requires Valid() && o.Valid() && pc.WriteStream?
      modifies this`pc, this`lockState, this`pendingPw, this`pendingLen
      modifies this`senseKey, this`senseAsc, this`cswStatus
      ensures Valid() && pc == WriteEnd
      ensures pendingPw == if old(IsLocked()) then o.captured else old(pendingPw)
      ensures pendingLen == if old(IsLocked()) then o.capturedLen else old(pendingLen)
      ensures lockState == if old(IsLocked()) && o.capture then UnlockPending else old(lockState)
      ensures Sensed() == if o.writeOk then old(Sensed()) else Sense(MEDIUM_ERROR, WRITE_ERROR, FAILED)
    {
      hide LockOk, AccountsOk, ReadsOk, WellFormed, ReadChecked, PhaseOk, MainOk, UnlockOk;
      InWriteFacts();
      WriteResult(o);
      pc := WriteEnd;
      WriteStored();
    }

    /** Queues the status of the write, and takes packets again. */
    method EndWrite()
      requires Valid() && pc == WriteEnd
      modifies this`pc, this`dataIn, this`dataOut, this`cswPending, this`tx, this`rxStalled, this`statuses, overlay
      ensures Valid() && pc == CheckUnlock && tx == Csw(cbwTag, cswStatus) && !rxStalled
      ensures statuses == old(statuses) + [Status(cbwTag, cswStatus, accepted, lastTag)]
    {
      hide LockOk, AccountsOk, ReadsOk, WellFormed, ReadChecked, PhaseOk, MainOk, UnlockOk;
      InWriteFacts();
      if bytesLeft == 0 {
        dataOut := false;
        SendCsw();
      }
      rxStalled := false;
      pc := CheckUnlock;
      AtRest();
    }

    // ---------- the unlock ----------

    /** Goes for an unlock only while one is pending and enough time has passed. */
    method PollUnlock(o: Outcome)
      requires Valid() && pc == CheckUnlock
      modifies this`pc
      ensures Valid() && pc == if lockState == UnlockPending && o.pollTime then TryUnlock else Top
    {
      hide LockOk, AccountsOk, ReadsOk, WellFormed, ReadChecked;
      pc := if lockState == UnlockPending && o.pollTime then TryUnlock else Top;
    }

    /** With a captured password, turns the USB interrupt off. */
    method BeginUnlock()
      requires Valid() && pc == TryUnlock
      modifies this`pc, this`irqEnabled
      ensures Valid() && pc == (if pendingLen == 0 then Top else NakRx) && irqEnabled == (pendingLen == 0)
    {
      hide LockOk, AccountsOk, ReadsOk, WellFormed, ReadChecked;
      if pendingLen == 0 {
        pc := Top;
        return;
      }
      irqEnabled := false;
      pc := NakRx;
    }

    /** Refuses further OUT packets. */
    method RefusePackets()
      requires Valid() && pc == NakRx
      modifies this`pc, this`rxAck
      ensures Valid() && pc == FirstCheck && !rxAck
    {
      hide LockOk, AccountsOk, ReadsOk, WellFormed, ReadChecked;
      rxAck := false;
      pc := FirstCheck;
    }

    /** Gives up this attempt and lets USB go on. */
    method ResumeUsb()
      requires Valid() && (pc == FirstCheck || InQuietUnlock())
      modifies this`pc, this`rxAck, this`irqEnabled
      ensures Valid() && pc == Top && rxAck && irqEnabled
    {
      hide LockOk, AccountsOk, ReadsOk, WellFormed, ReadChecked;
      rxAck := true;
      irqEnabled := true;
      pc := Top;
    }

    method CheckIdle()
      requires Valid() && pc == FirstCheck
      modifies this`pc, this`rxAck, this`irqEnabled
      ensures Valid() && pc == if UsbIsIdle() then Search else Top
      ensures !NoFlags() || tx != Nak || irq != NoIrq || otherFlag ==> pc == Top && rxAck && irqEnabled
    {
      hide LockOk, AccountsOk, ReadsOk, WellFormed, ReadChecked;
      if UsbIsIdle() {
        pc := Search;
      } else {
        ResumeUsb();
      }
    }

    /** Looks for the file with the scrubbed password. */
    method SearchFile(o: Outcome)
      requires Valid() && o.Valid() && pc == Search
      modifies this`pc, this`rxAck, this`irqEnabled
      ensures Valid() && pc == if o.found.None? && !o.timedOut then Top else SecondCheck(o.found, o.timedOut)
    {
      hide LockOk, AccountsOk, ReadsOk, WellFormed, ReadChecked;
      if o.found.None? && !o.timedOut {
        ResumeUsb();
      } else {
        pc := SecondCheck(o.found, o.timedOut);
      }
    }

    method CheckIdleAgain()
      requires Valid() && pc.SecondCheck?
      modifies this`pc, this`rxAck, this`irqEnabled
      ensures Valid() && pc == if UsbIsIdle() then Commit(old(pc).found, old(pc).timedOut) else Top
      ensures !NoFlags() || tx != Nak || irq != NoIrq || otherFlag ==> pc == Top && rxAck && irqEnabled
    {
      hide LockOk, AccountsOk, ReadsOk, WellFormed, ReadChecked;
      if UsbIsIdle() {
        pc := Commit(pc.found, pc.timedOut);
      } else {
        ResumeUsb();
      }
    }

    /** Derives both keys; the salt is incremented in between. */
    method DeriveKeys(password: seq<byte>)
      requires |salt| == 8 && rounds >= 1
      modifies this`salt, this`dataKey, this`tweakKey
      ensures salt == NextSalt(old(salt))
      ensures dataKey == T1(password, old(salt), rounds) && tweakKey == T1(password, salt, rounds)
    {
      hide T1;
      var saltBytes, data, tweak := new byte[8], new byte[32], new byte[32];
      CopyBytes(saltBytes, 0, salt);
      assert saltBytes[..] == salt;
      Kdf.CryptoUnlock(password, saltBytes, data, tweak, rounds);
      salt, dataKey, tweakKey := saltBytes[..], data[..], tweak[..];
    }

    /** Derives the keys from at most 128 bytes, wipes the password and brings up the hidden volume. */
    method UnlockVolume(passwordLen: nat)
      requires LockOk() && lockState != Unlocked
      modifies this`pendingPw, this`pendingLen, this`capacity, this`lockState
      modifies this`derivations, this`salt, this`dataKey, this`tweakKey
      ensures LockOk() && lockState == Unlocked && old(derivations) == []
      ensures derivations == [Derivation(UsedBytes(old(pendingPw), passwordLen), passwordLen, old(salt))]
    {
      hide T1;
      var used := passwordLen;
      if used > PASSWORD_MAX {
        used := PASSWORD_MAX;
      }
      derivations := derivations + [Derivation(pendingPw[..used], passwordLen, salt)];
      DeriveKeys(pendingPw[..used]);
      pendingPw, pendingLen := Zeros(PASSWORD_MAX), 0;
      capacity := cardSectors - LOCKED_SECTORS;
      lockState := Unlocked;
    }

    /** Brings the drive back on the bus, where nothing is outstanding. */
    method Reenumerate()
      modifies this`hostBusy, this`tx, this`irq, this`irqEnabled, this`rxAck, this`rxStalled
      ensures !hostBusy && tx == Nak && irq == NoIrq && irqEnabled && rxAck && !rxStalled
    {
      hostBusy := false;
      tx, irq := Nak, NoIrq;
      irqEnabled, rxAck, rxStalled := true, true, false;
    }

    /** Forgets every transfer and brings the drive back on the bus. */
    method StartOver()
      requires AccountsOk() && !cswPending
      modifies this`dataIn, this`dataOut, this`cswPending, this`readPending, this`writePending
      modifies this`hostBusy, this`tx, this`irq, this`irqEnabled, this`rxAck, this`rxStalled
      ensures AccountsOk() && NoFlags() && !hostBusy && tx == Nak && irq == NoIrq && irqEnabled && rxAck
    {
      dataIn, dataOut, cswPending := false, false, false;
      readPending, writePending := false, false;
      Reenumerate();
    }

    /** The file is gone or time is up: the hidden volume comes up. */
    method ComeUpUnlocked(passwordLen: nat)
      requires Valid() && InQuietUnlock()
      modifies this`pc, this`rxAck, this`irqEnabled, this`pendingPw, this`pendingLen, this`capacity, this`lockState
      modifies this`dataIn, this`dataOut, this`cswPending, this`readPending, this`writePending
      modifies this`hostBusy, this`tx, this`irq, this`derivations, this`salt, this`dataKey, this`tweakKey
      modifies this`rxStalled
      ensures Valid() && pc == Top && lockState == Unlocked
      ensures old(lockState) == UnlockPending && old(derivations) == []
      ensures derivations == [Derivation(UsedBytes(old(pendingPw), passwordLen), passwordLen, old(salt))]
    {
      hide LockOk, AccountsOk, ReadsOk, PhaseOk, MainOk, UnlockOk;
      InQuietUnlockFacts();
      UnlockVolume(passwordLen);
      StartOver();
      pc := Top;
      AtRest();
    }

    /** The file could not be deleted: the drive comes back as it was. */
    method ComeBackPending()
      requires Valid() && InQuietUnlock()
      modifies this`pc, this`rxAck, this`irqEnabled, this`hostBusy, this`tx, this`irq, this`rxStalled
      ensures Valid() && pc == Top && NoFlags() && !hostBusy && tx == Nak && irq == NoIrq && !rxStalled
    {
      hide LockOk, AccountsOk, ReadsOk, PhaseOk, MainOk, UnlockOk;
      InQuietUnlockFacts();
      Reenumerate();
      pc := Top;
      AtRest();
    }

    /** Keeps only the password's own bytes, as the file that was found delimits them. */
    method TrimPassword(passwordLen: nat)
      requires Valid() && InQuietUnlock() && 1 <= passwordLen <= PASSWORD_MAX
      modifies this`pendingLen
      ensures Valid() && pendingLen == passwordLen
    {
      hide AccountsOk, ReadsOk, PhaseOk;
      pendingLen := passwordLen;
    }

    /**
     Takes the drive off the bus. If the file has been deleted, or time is up, the hidden volume comes
     up; otherwise the drive comes back as it was.
     */
    method CommitUnlock(o: Outcome)
      requires Valid() && pc.Commit?
      modifies this`pc, this`rxAck, this`irqEnabled, this`pendingPw, this`pendingLen, this`capacity, this`lockState
      modifies this`dataIn, this`dataOut, this`cswPending, this`readPending, this`writePending
      modifies this`hostBusy, this`tx, this`irq, this`derivations, this`salt, this`dataKey, this`tweakKey
      modifies this`rxStalled
      ensures Valid() && pc == Top
      ensures var deleted := old(pc).found.Some? && o.deleted;
              var length := if old(pc).found.Some? then old(pc).found.value else old(pendingLen);
              if deleted || old(pc).timedOut
              then
                && lockState == Unlocked && old(derivations) == []
                && derivations == [Derivation(UsedBytes(old(pendingPw), length), length, old(salt))]
              else
                lockState == UnlockPending && pendingLen == length && derivations == old(derivations)
    {
      hide LockOk, AccountsOk, ReadsOk, PhaseOk;
      InQuietUnlockFacts();
      CommitFacts();
      var timedOut := pc.timedOut;
      var passwordLen := pendingLen;
      var deleted := false;
      if pc.found.Some? {
        passwordLen := pc.found.value;
        TrimPassword(passwordLen);
        deleted := o.deleted;
      }
      if deleted || timedOut {
        ComeUpUnlocked(passwordLen);
      } else {
        ComeBackPending();
      }
    }

    // ---------- whole commands ----------

    lemma IdleFacts()
      requires Valid() && pc == Top && !hostBusy && irq == NoIrq
      ensures overlay.Length == CBW_SIZE && NoFlags() && tx == Nak && rxAck && irqEnabled
    {
    }

    lemma TakenUpFacts(cbw: seq<byte>, before: Sense)
      requires Valid() && pc == Top && |cbw| == CBW_SIZE && TakenUp(cbw, before)
      ensures cbwTag == TagOf(cbw) && lastTag == TagOf(cbw) && rxAck && irqEnabled
      ensures Sensed() == Judged(cbw, before)
      ensures IsWrite(cbw[OPCODE]) && TransferLength(cbw) > 0 ==>
                dataOut && hostWrites && cswPending && cswStatus == PASSED && !readPending && !writePending
      ensures cbw[OPCODE] == READ10 && TransferLength(cbw) > 0 ==> cswPending && ReadAnswered(cbw)
    {
      hide TransferLength, Carries, InDecoy, BlockCount, BigEndian32, TagOf;
    }

    lemma QueuedFacts()
      requires Valid() && readPending
      ensures bytesLeft > 0
    {
    }

    lemma LastReadFacts()
      requires ReadsOk() && readLog != []
      ensures readLog[|readLog| - 1].lockedAtCheck == readLog[|readLog| - 1].lockedAtRun
    {
    }

    /** The host sends a command to a drive at rest, and the interrupt takes it up. */
    method TakeUp(cbw: seq<byte>)
      requires Valid() && pc == Top && !hostBusy && irq == NoIrq && !rxStalled
      requires |cbw| == CBW_SIZE && HasSignature(cbw) && WellFormed(cbw)
      modifies this`cbwTag, this`bytesLeft, this`dataIn, this`dataOut, this`cswPending, this`accepted, this`lastTag
      modifies this`rxStalled, this`fromInquiry
      modifies this`senseKey, this`senseAsc, this`cswStatus, this`tx, this`currentLba, this`checkedLocked, overlay
      modifies this`readPending, this`writePending, this`statuses, this`hostWrites, this`irq, this`hostBusy
      ensures Valid() && irq == NoIrq && accepted == old(accepted) + 1 && TakenUp(cbw, old(Sensed()))
      ensures statuses == old(statuses) + (if cswPending then [] else [AnswerTo(cbw, false, accepted)])
      ensures dataOut ==> !rxStalled
    {
      hide LockOk, AccountsOk, ReadsOk, PhaseOk, MainOk, UnlockOk, WellFormed, HasSignature, TakenUp, TagOf;
      IdleFacts();
      HostSendsCbw(cbw);
      CompleteOut(cbw);
    }

    /** The main loop serves a queued read. */
    method ServeRead()
      requires Valid() && pc == Top && readPending
      modifies this`pc, this`readPending, this`bytesLeft, this`readLog, this`currentLba
      modifies this`dataIn, this`dataOut, this`cswPending, this`tx, this`statuses, overlay
      ensures Valid() && pc == CheckWrite && tx == Csw(cbwTag, cswStatus)
      ensures readLog == old(readLog) + [Read(old(currentLba), old(bytesLeft) / SECTOR_SIZE, IsLocked(), IsLocked(),
                                              PhysicalLba(lockState, old(currentLba)))]
      ensures statuses == old(statuses) + [Status(cbwTag, cswStatus, accepted, lastTag)]
    {
      hide LockOk, AccountsOk, ReadsOk, PhaseOk, MainOk, UnlockOk;
      PollRead();
      StartRead();
      StreamRead();
      LastReadFacts();
      EndRead();
    }

    /** The main loop serves a queued write. */
    method ServeWrite(o: Outcome)
      requires Valid() && o.Valid() && pc == Top && !readPending && writePending
      modifies this`pc, this`readPending, this`writePending, this`bytesLeft
      modifies this`lockState, this`pendingPw, this`pendingLen, this`senseKey, this`senseAsc, this`cswStatus
      modifies this`dataIn, this`dataOut, this`cswPending, this`tx, this`rxStalled, this`statuses, overlay
      ensures Valid() && pc == CheckUnlock && tx == Csw(cbwTag, if o.writeOk then old(cswStatus) else FAILED)
      ensures tx.status == cswStatus
      ensures Sensed() == if o.writeOk then old(Sensed()) else Sense(MEDIUM_ERROR, WRITE_ERROR, FAILED)
      ensures old(IsLocked()) ==> pendingPw == o.captured && pendingLen == o.capturedLen
      ensures lockState == if old(IsLocked()) && o.capture then UnlockPending else old(lockState)
      ensures statuses == old(statuses) + [Status(cbwTag, cswStatus, accepted, lastTag)]
    {
      hide LockOk, AccountsOk, ReadsOk, PhaseOk, MainOk, UnlockOk;
      PollRead();
      PollWrite();
      StartWrite();
      StreamWrite(o);
      EndWrite();
    }

    /** The host clears the stall of a refused command and gets its status. */
    method FetchStatus()
      requires Valid() && irqEnabled && irq == NoIrq && tx == Stall && !dataIn && cswPending
      modifies this`tx, this`irq, this`dataIn, this`dataOut, this`cswPending, this`readPending, this`bytesLeft
      modifies this`statuses, overlay
      ensures Valid() && irq == NoIrq && tx == Csw(cbwTag, cswStatus)
      ensures statuses == old(statuses) + [Status(cbwTag, cswStatus, accepted, lastTag)]
    {
      hide LockOk, AccountsOk, ReadsOk, PhaseOk, MainOk, UnlockOk;
      HostClearsHalt(true);
      CompleteIn();
    }

    /** A READ(10) that has been taken up: served, or its refusal fetched. */
    method FinishRead10(cbw: seq<byte>)
      requires Valid() && pc == Top && irq == NoIrq && irqEnabled
      requires |cbw| == CBW_SIZE && ReadAnswered(cbw) && cbwTag == TagOf(cbw) && lastTag == TagOf(cbw)
      modifies this`pc, this`readPending, this`bytesLeft, this`readLog, this`currentLba, this`irq
      modifies this`dataIn, this`dataOut, this`cswPending, this`tx, this`statuses, overlay
      ensures Valid() && irq == NoIrq && tx == Csw(TagOf(cbw), if Refused(cbw) then FAILED else PASSED)
      ensures tx.status == cswStatus && (Refused(cbw) ==> pc == Top)
      ensures readLog == old(readLog) + if Refused(cbw) then [] else [ReadOf(cbw, lockState)]
      ensures statuses == old(statuses) + [AnswerTo(cbw, Refused(cbw), accepted)]
    {
      hide LockOk, AccountsOk, ReadsOk, PhaseOk, MainOk, UnlockOk, BigEndian32, BlockCount, TagOf;
      if readPending {
        ServeRead();
      } else {
        FetchStatus();
      }
    }

    /**
     A READ(10) from start to end on a drive at rest. If the drive is locked and the command leaves the
     decoy, nothing is read and the status is FAILED. Otherwise exactly the sectors it asks for are read,
     once, and the status is PASSED.
     */
    method ExecuteRead10(cbw: seq<byte>)
      requires Valid() && pc == Top && !hostBusy && irq == NoIrq && !rxStalled
      requires |cbw| == CBW_SIZE && HasSignature(cbw) && WellFormed(cbw)
      requires cbw[OPCODE] == READ10 && TransferLength(cbw) > 0
      modifies this, overlay
      ensures Valid() && lockState == old(lockState) && irq == NoIrq && (Refused(cbw) ==> pc == Top)
      ensures Sensed() == Judged(cbw, old(Sensed())) && accepted == old(accepted) + 1
      ensures tx == Csw(TagOf(cbw), if Refused(cbw) then FAILED else PASSED) && tx.status == cswStatus
      ensures readLog == old(readLog) + if Refused(cbw) then [] else [ReadOf(cbw, lockState)]
      ensures statuses == old(statuses) + [AnswerTo(cbw, Refused(cbw), accepted)]
    {
      hide LockOk, AccountsOk, ReadsOk, PhaseOk, MainOk, UnlockOk;
      hide WellFormed, HasSignature, TagOf, TransferLength, ReadAnswered, Refused, AnswerTo, ReadOf, TakenUp, Judged;
      TakeUp(cbw);
      TakenUpFacts(cbw, old(Sensed()));
      FinishRead10(cbw);
    }

    /** A write command and its first data packet reach a drive at rest. */
    method TakeUpWrite(cbw: seq<byte>, packet: seq<byte>)
      requires Valid() && pc == Top && !hostBusy && irq == NoIrq && !rxStalled
      requires |cbw| == CBW_SIZE && HasSignature(cbw) && WellFormed(cbw)
      requires IsWrite(cbw[OPCODE]) && TransferLength(cbw) > 0
      modifies this`cbwTag, this`bytesLeft, this`dataIn, this`dataOut, this`cswPending, this`accepted, this`lastTag
      modifies this`rxStalled, this`fromInquiry
      modifies this`senseKey, this`senseAsc, this`cswStatus, this`tx, this`currentLba, this`checkedLocked, overlay
      modifies this`readPending, this`writePending, this`statuses, this`hostWrites, this`irq, this`hostBusy
      ensures Valid() && writePending && !readPending && irq == NoIrq && cswStatus == PASSED
      ensures Sensed() == Sense(NO_ERROR, NO_ERROR, PASSED) && accepted == old(accepted) + 1
      ensures cbwTag == TagOf(cbw) && lastTag == TagOf(cbw) && statuses == old(statuses)
    {
      hide LockOk, AccountsOk, ReadsOk, PhaseOk, MainOk, UnlockOk;
      hide WellFormed, HasSignature, BigEndian32, BlockCount, TagOf, TransferLength;
      hide TakenUp;
      TakeUp(cbw);
      TakenUpFacts(cbw, old(Sensed()));
      HostSendsData(packet);
      CompleteOut(packet);
    }

    /** The sense data and status with which a command ends, after a write that did or did not reach the card. */
    function Verdict(cbw: seq<byte>, before: Sense, writeOk: bool): Sense
      requires |cbw| == CBW_SIZE
      reads this`lockState
    {
      if IsWrite(cbw[OPCODE]) && TransferLength(cbw) > 0 && !writeOk then Sense(MEDIUM_ERROR, WRITE_ERROR, FAILED)
      else Judged(cbw, before)
    }

    lemma WritePasses(cbw: seq<byte>, before: Sense)
      requires |cbw| == CBW_SIZE && IsWrite(cbw[OPCODE])
      ensures Judged(cbw, before) == Sense(NO_ERROR, NO_ERROR, PASSED)
    {
    }

    /** A WRITE(10) from start to end on a drive at rest: its status tells whether the card took it. */
    method ExecuteWrite10(cbw: seq<byte>, packet: seq<byte>, o: Outcome)
      requires Valid() && pc == Top && !hostBusy && irq == NoIrq && !rxStalled && o.Valid()
      requires |cbw| == CBW_SIZE && HasSignature(cbw) && WellFormed(cbw)
      requires IsWrite(cbw[OPCODE]) && TransferLength(cbw) > 0
      modifies this, overlay
      ensures Valid() && pc == CheckUnlock && readLog == old(readLog) && irq == NoIrq
      ensures lockState == if old(IsLocked()) && o.capture then UnlockPending else old(lockState)
      ensures tx == Csw(TagOf(cbw), if o.writeOk then PASSED else FAILED) && tx.status == cswStatus
      ensures Sensed() == old(Verdict(cbw, Sensed(), o.writeOk)) && accepted == old(accepted) + 1
      ensures statuses == old(statuses) + [AnswerTo(cbw, !o.writeOk, accepted)]
    {
      hide LockOk, AccountsOk, ReadsOk, PhaseOk, MainOk, UnlockOk, WellFormed, HasSignature, TransferLength;
      hide BlockCount, IsWrite, TagOf, Judged;
      WritePasses(cbw, Sensed());
      TakeUpWrite(cbw, packet);
      ServeWrite(o);
    }

    /** A command without a data phase whose status is never sent: it has failed, and no stall tells the host. */
    predicate Unanswered(cbw: seq<byte>, before: Sense)
      requires |cbw| == CBW_SIZE
      reads this`lockState
    {
      TransferLength(cbw) == 0 && Supported(cbw[OPCODE]) && Judged(cbw, before).status != PASSED
    }

    /** Such a command: a MODE SENSE(10) for one page, with no data phase. */
    lemma UnansweredInstance(before: Sense)
      ensures var cbw := Cbw([1, 0, 0, 0], 0, false, MODE_SENSE10, 0, 0);
              HasSignature(cbw) && WellFormed(cbw) && Unanswered(cbw, before)
    {
      hide ByteOf;
      CbwRoundTrip([1, 0, 0, 0], 0, false, MODE_SENSE10, 0, 0);
      ZeroByte();
    }

    lemma ZeroByte()
      ensures ByteOf(0) == 0
    {
    }

    lemma DueFacts(cbw: seq<byte>, before: Sense)
      requires Valid() && pc == Top && |cbw| == CBW_SIZE && TakenUp(cbw, before)
      requires TransferLength(cbw) == 0 || Rejects(cbw)
      ensures Sensed() == Judged(cbw, before) && StatusDue(cbw) && cbwTag == TagOf(cbw) && lastTag == TagOf(cbw)
      ensures irqEnabled && (cswStatus != PASSED ==> (tx == Stall <==> !Unanswered(cbw, before)))
      ensures tx == Stall || tx == Nak || tx.Csw?
    {
    }

    /** A command without data, or a failed one, from start to end on a drive at rest. */
    method ExecuteWithoutData(cbw: seq<byte>)
      requires Valid() && pc == Top && !hostBusy && irq == NoIrq && !rxStalled
      requires |cbw| == CBW_SIZE && HasSignature(cbw) && WellFormed(cbw)
      requires TransferLength(cbw) == 0 || Rejects(cbw)
      modifies this, overlay
      ensures Valid() && lockState == old(lockState) && irq == NoIrq && readLog == old(readLog)
      ensures Sensed() == Judged(cbw, old(Sensed())) && accepted == old(accepted) + 1
      ensures if Unanswered(cbw, old(Sensed()))
              then tx == Nak && cswPending && statuses == old(statuses)
              else
                && tx == Csw(TagOf(cbw), cswStatus)
                && statuses == old(statuses) + [Status(TagOf(cbw), cswStatus, accepted, TagOf(cbw))]
    {
      hide LockOk, AccountsOk, ReadsOk, PhaseOk, MainOk, UnlockOk;
      hide WellFormed, HasSignature, TagOf, TransferLength, Rejects, TakenUp, Judged;
      TakeUp(cbw);
      DueFacts(cbw, old(Sensed()));
      if cswStatus != PASSED && tx == Stall {
        FetchStatus();
      }
    }

    lemma DataFacts(cbw: seq<byte>, before: Sense)
      requires Valid() && pc == Top && |cbw| == CBW_SIZE && TakenUp(cbw, before)
      requires TransferLength(cbw) > 0 && !Rejects(cbw) && cbw[OPCODE] != READ10 && !IsWrite(cbw[OPCODE])
      ensures Sensed() == Judged(cbw, before) && DataDue(cbw, before)
      ensures cbwTag == TagOf(cbw) && lastTag == TagOf(cbw) && irqEnabled
    {
      hide Carries, Judged, Rejects, TransferLength;
    }

    /** The host takes one packet, and gets the next one. */
    method NextPacket()
      requires Valid() && irqEnabled && irq == NoIrq && tx.Data? && dataIn && cswPending
      modifies this`tx, this`irq, this`hostBusy, this`dataIn, this`dataOut, this`cswPending, this`readPending
      modifies this`bytesLeft, this`statuses, overlay
      ensures Valid() && irq == NoIrq && tx.Data? && cswPending && dataIn == (bytesLeft > 0)
      ensures |tx.bytes| == Min(PACK_SIZE, old(bytesLeft)) && bytesLeft == old(bytesLeft) - |tx.bytes|
      ensures statuses == old(statuses)
    {
      hide LockOk, AccountsOk, ReadsOk, PhaseOk, MainOk, UnlockOk;
      HostTakesIn();
      CompleteIn();
    }

    /** The host takes the rest of a response, packet by packet. */
    method TakeData() returns (data: seq<byte>)
      requires Valid() && irqEnabled && irq == NoIrq && tx.Data? && cswPending && dataIn == (bytesLeft > 0)
      modifies this`tx, this`irq, this`hostBusy, this`dataIn, this`dataOut, this`cswPending, this`readPending
      modifies this`bytesLeft, this`statuses, overlay
      ensures Valid() && irq == NoIrq && tx == Csw(cbwTag, cswStatus)
      ensures |data| == |old(tx).bytes| + old(bytesLeft) && old(tx).bytes <= data
      ensures statuses == old(statuses) + [Status(cbwTag, cswStatus, accepted, lastTag)]
    {
      hide LockOk, AccountsOk, ReadsOk, PhaseOk, MainOk, UnlockOk;
      data := tx.bytes;
      while dataIn
        invariant Valid() && irq == NoIrq && tx.Data? && cswPending && dataIn == (bytesLeft > 0)
        invariant |data| == |old(tx).bytes| + old(bytesLeft) - bytesLeft && old(tx).bytes <= data
        invariant statuses == old(statuses)
        decreases bytesLeft
      {
        NextPacket();
        data := data + tx.bytes;
      }
      HostTakesIn();
      CompleteIn();
    }

    /** The data that a query gets: as much of its response as there is and the host asked for. */
    ghost predicate Reply(data: seq<byte>, cbw: seq<byte>, before: Sense, capacity: nat)
      requires |cbw| == CBW_SIZE
    {
      var (op, length) := (cbw[OPCODE], TransferLength(cbw));
      IsQuery(op) ==>
        && capacity > 0
        && var r := ResponseTo(op, capacity, before, inquiry);
           && |data| == (if op == REQUEST_SENSE then length else Min(length, |r|))
           && Front(data, r, Min(|data|, |r|))
    }

    lemma CarriesReply(packet: seq<byte>, left: nat, data: seq<byte>, cbw: seq<byte>, before: Sense, capacity: nat)
      requires |cbw| == CBW_SIZE && packet <= data && |data| == |packet| + left
      requires IsQuery(cbw[OPCODE]) ==> Carries(packet, left, cbw[OPCODE], TransferLength(cbw), before, capacity)
      ensures Reply(data, cbw, before, capacity)
    {
      hide ResponseTo, TransferLength;
    }

    /** A command that gets data other than sectors, from start to end on a drive at rest. */
    method ExecuteDataIn(cbw: seq<byte>) returns (data: seq<byte>)
      requires Valid() && pc == Top && !hostBusy && irq == NoIrq && !rxStalled
      requires |cbw| == CBW_SIZE && HasSignature(cbw) && WellFormed(cbw)
      requires TransferLength(cbw) > 0 && !Rejects(cbw) && cbw[OPCODE] != READ10 && !IsWrite(cbw[OPCODE])
      modifies this, overlay
      ensures Valid() && lockState == old(lockState) && irq == NoIrq && readLog == old(readLog)
      ensures Sensed() == Judged(cbw, old(Sensed())) && Reply(data, cbw, old(Sensed()), capacity)
      ensures capacity == old(capacity) && tx == Csw(TagOf(cbw), cswStatus) && accepted == old(accepted) + 1
      ensures statuses == old(statuses) + [Status(TagOf(cbw), cswStatus, accepted, TagOf(cbw))]
    {
      hide LockOk, AccountsOk, ReadsOk, PhaseOk, MainOk, UnlockOk;
      hide WellFormed, HasSignature, TagOf, TransferLength, Rejects, TakenUp, Judged, Carries, Reply, IsQuery, IsWrite;
      TakeUp(cbw);
      DataFacts(cbw, old(Sensed()));
      ghost var (packet, left) := (tx.bytes, bytesLeft);
      data := TakeData();
      CarriesReply(packet, left, data, cbw, old(Sensed()), capacity);
    }

    /**
     Any command from start to end on a drive at rest, with a host that clears stalls, sends its data and
     takes what it gets: its data, its sense data and its one status. Exactly the commands that are
     Unanswered get no status: their host finds the IN endpoint empty.
     */
    method ExecuteCommand(cbw: seq<byte>, packet: seq<byte>, o: Outcome) returns (data: seq<byte>)
      requires Valid() && pc == Top && !hostBusy && irq == NoIrq && !rxStalled && o.Valid()
      requires |cbw| == CBW_SIZE && HasSignature(cbw) && WellFormed(cbw)
      modifies this, overlay
      ensures Valid() && irq == NoIrq
      ensures Sensed() == old(Verdict(cbw, Sensed(), o.writeOk))
      ensures if old(Unanswered(cbw, Sensed()))
              then tx == Nak && cswPending && statuses == old(statuses)
              else
                && tx == Csw(TagOf(cbw), cswStatus)
                && statuses == old(statuses) + [Status(TagOf(cbw), cswStatus, accepted, TagOf(cbw))]
      ensures readLog == old(readLog) + if cbw[OPCODE] == READ10 && TransferLength(cbw) > 0 && !old(Refused(cbw))
                                        then [ReadOf(cbw, lockState)] else []
      ensures TransferLength(cbw) > 0 && !old(Rejects(cbw)) ==> Reply(data, cbw, old(Sensed()), old(capacity))
    {
      hide LockOk, AccountsOk, ReadsOk, PhaseOk, MainOk, UnlockOk;
      hide WellFormed, HasSignature, TagOf, TransferLength, Refused, ReadOf, Judged, ResponseTo, Front;
      data := [];
      if TransferLength(cbw) == 0 || Rejects(cbw) {
        ExecuteWithoutData(cbw);
      } else if cbw[OPCODE] == READ10 {
        ExecuteRead10(cbw);
      } else if IsWrite(cbw[OPCODE]) {
        ExecuteWrite10(cbw, packet, o);
      } else {
        data := ExecuteDataIn(cbw);
      }
    }

    /** The host learns the last address and the sector size: on a locked drive, those of the decoy alone. */
    method ReadCapacity(cbw: seq<byte>) returns (data: seq<byte>)
      requires Valid() && pc == Top && !hostBusy && irq == NoIrq && !rxStalled
      requires |cbw| == CBW_SIZE && HasSignature(cbw) && WellFormed(cbw)
      requires cbw[OPCODE] == READ_CAPACITY && TransferLength(cbw) >= 8
      modifies this, overlay
      ensures Valid() && tx == Csw(TagOf(cbw), PASSED) && |data| == 8
      ensures BigEndian32(data, 0) + 1 == if lockState == Unlocked then cardSectors - LOCKED_SECTORS else LOCKED_SECTORS
      ensures BigEndian32(data, 4) == SECTOR_SIZE
    {
      hide LockOk, AccountsOk, ReadsOk, PhaseOk, MainOk, UnlockOk;
      hide WellFormed, HasSignature, TagOf, TransferLength, BigEndian32, Reply;
      data := ExecuteDataIn(cbw);
      CapacityFacts();
      CapacityReported(data, cbw, old(Sensed()));
    }

    lemma CapacityFacts()
      requires LockOk()
      ensures 0 < capacity < TWO32
      ensures capacity == if lockState == Unlocked then cardSectors - LOCKED_SECTORS else LOCKED_SECTORS
    {
    }

    lemma CapacityReported(data: seq<byte>, cbw: seq<byte>, before: Sense)
      requires |cbw| == CBW_SIZE && cbw[OPCODE] == READ_CAPACITY && TransferLength(cbw) >= 8
      requires Reply(data, cbw, before, capacity) && 0 < capacity < TWO32
      ensures |data| == 8 && BigEndian32(data, 0) + 1 == capacity && BigEndian32(data, 4) == SECTOR_SIZE
    {
      hide BigEndian32, TransferLength, ResponseTo;
      CapacityMeans(capacity, before, inquiry);
      assert data == ResponseTo(READ_CAPACITY, capacity, before, inquiry);
    }

    lemma AtTop()
      requires Valid() && pc == Top
      ensures irqEnabled && rxAck
    {
    }

    /** After a status, the host takes it, and clears a stall of the OUT endpoint if there is one. */
    method ComeToRest()
      requires Valid() && pc == Top && irq == NoIrq && tx.Csw?
      modifies this`tx, this`irq, this`hostBusy, this`dataIn, this`dataOut, this`cswPending, this`readPending
      modifies this`bytesLeft, this`statuses, this`rxStalled, overlay
      ensures Valid() && !hostBusy && irq == NoIrq && !rxStalled && statuses == old(statuses)
    {
      hide LockOk, AccountsOk, ReadsOk, PhaseOk, MainOk, UnlockOk;
      AtTop();
      StatusFacts();
      HostTakesIn();
      CompleteIn();
      HostClearsOutHalt();
    }

    lemma StatusFacts()
      requires Valid() && tx.Csw?
      ensures NoFlags()
    {
    }

    /** The host of a refused READ(10) asks why: the address is out of range. */
    method AskWhyRefused(read: seq<byte>, sense: seq<byte>) returns (data: seq<byte>)
      requires Valid() && pc == Top && !hostBusy && irq == NoIrq && !rxStalled
      requires |read| == CBW_SIZE && HasSignature(read) && WellFormed(read)
      requires read[OPCODE] == READ10 && TransferLength(read) > 0 && Refused(read)
      requires |sense| == CBW_SIZE && HasSignature(sense) && WellFormed(sense)
      requires sense[OPCODE] == REQUEST_SENSE && TransferLength(sense) >= 18
      modifies this, overlay
      ensures Valid() && readLog == old(readLog) && tx == Csw(TagOf(sense), PASSED)
      ensures statuses == old(statuses) + [AnswerTo(read, true, old(accepted) + 1), AnswerTo(sense, false, accepted)]
      ensures |data| == TransferLength(sense) && data[..18] == SENSE_OUT_OF_RANGE
    {
      hide LockOk, AccountsOk, ReadsOk, PhaseOk, MainOk, UnlockOk;
      hide WellFormed, HasSignature, TagOf, TransferLength, Refused, Reply;
      ExecuteRead10(read);
      ComeToRest();
      ghost var before := Sensed();
      assert before.key == ILLEGAL_REQUEST && before.asc == LBA_OUT_OF_RANGE;
      data := ExecuteDataIn(sense);
      SenseReported(data, sense, before, capacity);
    }

    lemma SenseReported(data: seq<byte>, cbw: seq<byte>, before: Sense, capacity: nat)
      requires |cbw| == CBW_SIZE && cbw[OPCODE] == REQUEST_SENSE && TransferLength(cbw) >= 18
      requires Reply(data, cbw, before, capacity) && before.key == ILLEGAL_REQUEST && before.asc == LBA_OUT_OF_RANGE
      ensures |data| == TransferLength(cbw) && data[..18] == SENSE_OUT_OF_RANGE
    {
      hide TransferLength;
      assert ResponseTo(REQUEST_SENSE, capacity, before, inquiry) == SENSE_OUT_OF_RANGE by {
        SenseOutOfRange(capacity, before, inquiry);
      }
      hide ResponseTo;
    }

    lemma AnsweredFacts()
      requires Valid() && tx.Csw? && pc == CheckUnlock
      ensures NoFlags() && irqEnabled && rxAck
    {
    }

    /** The host takes the status of its last command, after which the transport is idle. */
    method SettleTransport()
      requires Valid() && pc == CheckUnlock && tx.Csw? && irq == NoIrq && !otherFlag
      modifies this`tx, this`irq, this`hostBusy, this`dataIn, this`dataOut, this`cswPending, this`readPending
      modifies this`bytesLeft, this`statuses, overlay
      ensures Valid() && UsbIsIdle()
    {
      hide LockOk, AccountsOk, ReadsOk, PhaseOk, MainOk, UnlockOk;
      AnsweredFacts();
      HostTakesIn();
      CompleteIn();
    }

    /** With an idle transport and a captured password, the next poll gets as far as the search. */
    method ReachSearch(o: Outcome)
      requires Valid() && pc == CheckUnlock && UsbIsIdle()
      requires lockState == UnlockPending && pendingLen > 0 && o.pollTime
      modifies this`pc, this`rxAck, this`irqEnabled
      ensures Valid() && pc == Search
    {
      hide LockOk, AccountsOk, ReadsOk, PhaseOk, MainOk, UnlockOk;
      PollUnlock(o);
      BeginUnlock();
      RefusePackets();
      CheckIdle();
    }

    /** The hidden volume is up, under the two keys that RFC 8018 derives from this password and the device's salt. */
    ghost predicate UnlockedBy(password: seq<byte>)
      reads this`lockState, this`dataKey, this`tweakKey
    {
      && lockState == Unlocked && |deviceSalt| == 8 && rounds >= 1
      && dataKey == T1(password, deviceSalt, rounds) && tweakKey == T1(password, NextSalt(deviceSalt), rounds)
    }

    lemma UnlockedKeys()
      requires LockOk() && lockState == Unlocked
      ensures |derivations| == 1 && dataKey == T1(derivations[0].password, deviceSalt, rounds)
      ensures tweakKey == T1(derivations[0].password, NextSalt(deviceSalt), rounds)
    {
    }

    /** The end of an unlock attempt: the file is found or not, deleted or not, and time is up or not. */
    method FinishUnlock(o: Outcome)
      requires Valid() && pc == Search && UsbIsIdle() && o.Valid()
      modifies this`pc, this`rxAck, this`irqEnabled, this`pendingPw, this`pendingLen, this`capacity, this`lockState
      modifies this`dataIn, this`dataOut, this`cswPending, this`readPending, this`writePending, this`rxStalled
      modifies this`hostBusy, this`tx, this`irq, this`derivations, this`salt, this`dataKey, this`tweakKey
      ensures Valid() && pc == Top
      ensures var length := if o.found.Some? then o.found.value else old(pendingLen);
              if (o.found.Some? && o.deleted) || o.timedOut
              then UnlockedBy(UsedBytes(old(pendingPw), length))
              else lockState == UnlockPending && pendingLen == length
    {
      hide LockOk, AccountsOk, ReadsOk, PhaseOk, MainOk, UnlockOk, T1, UsedBytes;
      SaltFacts();
      InQuietUnlockFacts();
      SearchFile(o);
      if pc == Top {
        return;
      }
      CheckIdleAgain();
      CommitUnlock(o);
      if lockState == Unlocked {
        UnlockedKeys();
      }
    }

    lemma SaltFacts()
      requires LockOk()
      ensures |deviceSalt| == 8 && rounds >= 1 && |pendingPw| == PASSWORD_MAX
    {
    }

    // ---------- whole runs ----------

    /** A setup or reset flag comes or goes. */
    method SetOtherFlag(up: bool)
      requires Valid()
      modifies this`otherFlag
      ensures Valid() && otherFlag == up
    {
      hide LockOk, AccountsOk, ReadsOk, PhaseOk, MainOk, UnlockOk;
      otherFlag := up;
    }

    /** What was done stays done, and the lock never goes back. */
    twostate predicate Later()
      reads this
    {
      && old(statuses) <= statuses && old(readLog) <= readLog && old(derivations) <= derivations
      && old(accepted) <= accepted && Rank(old(lockState)) <= Rank(lockState)
    }

    /** The next step of the main loop while it serves disk commands. */
    method DiskStep(o: Outcome)
      requires Valid() && o.Valid() && (pc == Top || pc == CheckWrite || InRead() || InWrite())
      modifies this`pc, this`readPending, this`writePending, this`bytesLeft, this`readLog, this`currentLba
      modifies this`lockState, this`pendingPw, this`pendingLen, this`senseKey, this`senseAsc, this`cswStatus
      modifies this`dataIn, this`dataOut, this`cswPending, this`tx, this`rxStalled, this`statuses, overlay
      ensures Valid() && Later()
    {
      hide LockOk, AccountsOk, ReadsOk, PhaseOk, MainOk, UnlockOk;
      match pc
      case Top => PollRead();
      case ReadStart => StartRead();
      case ReadStream(_, _) => StreamRead();
      case ReadEnd(_) => EndRead();
      case CheckWrite => PollWrite();
      case WriteStart => StartWrite();
      case WriteStream(_) => StreamWrite(o);
      case WriteEnd => EndWrite();
    }

    /** The next step of the main loop while it sees to an unlock. */
    method UnlockStep(o: Outcome)
      requires Valid() && o.Valid() && !(pc == Top || pc == CheckWrite || InRead() || InWrite())
      modifies this`pc, this`rxAck, this`irqEnabled, this`pendingPw, this`pendingLen, this`capacity, this`lockState
      modifies this`dataIn, this`dataOut, this`cswPending, this`readPending, this`writePending
      modifies this`hostBusy, this`tx, this`irq, this`derivations, this`salt, this`dataKey, this`tweakKey
      modifies this`rxStalled
      ensures Valid() && Later()
    {
      hide LockOk, AccountsOk, ReadsOk, PhaseOk, MainOk, UnlockOk;
      match pc
      case CheckUnlock => PollUnlock(o);
      case TryUnlock => BeginUnlock();
      case NakRx => RefusePackets();
      case FirstCheck => CheckIdle();
      case Search => SearchFile(o);
      case SecondCheck(_, _) => CheckIdleAgain();
      case Commit(_, _) =>
        InQuietUnlockFacts();
        CommitUnlock(o);
    }

    /** The next step of the main loop. */
    method MainStep(o: Outcome)
      requires Valid() && o.Valid()
      modifies this, overlay
      ensures Valid() && Later()
    {
      hide LockOk, AccountsOk, ReadsOk, PhaseOk, MainOk, UnlockOk;
      if pc == Top || pc == CheckWrite || InRead() || InWrite() {
        DiskStep(o);
      } else {
        UnlockStep(o);
      }
    }

    /** One event. An event that is not enabled changes nothing. */
    method Step(e: Event)
      requires Valid() && e.Valid()
      modifies this, overlay
      ensures Valid() && Later()
    {
      hide LockOk, AccountsOk, ReadsOk, PhaseOk, MainOk, UnlockOk;
      match e
      case HostCbw(bytes) => HostSendsCbw(bytes);
      case HostData(bytes) => HostSendsData(bytes);
      case HostIn => HostTakesIn();
      case ClearHalt(raise) => HostClearsHalt(raise);
      case ClearOutHalt => HostClearsOutHalt();
      case OtherFlag(up) => SetOtherFlag(up);
      case Interrupt =>
        if irqEnabled {
          match irq
          case NoIrq =>
          case InDone => CompleteIn();
          case OutPacket(packet) => CompleteOut(packet);
        }
      case Main(o) => MainStep(o);
    }

    /**
     Every run, with host, interrupts and the steps of the main loop interleaved in any way; what EndRead
     does is one such step.
     Reads: each one runs under the lock state it was checked under, and while the drive is locked it
     stays in the decoy. Statuses: the i-th one answers the i-th accepted command, with its tag.
     Lock: it never goes back, keys are derived at most once, from at most 128 password bytes and the
     device's own salt, and an unlocked drive has no password left and shows the rest of the card.
     */
    method Run(events: seq<Event>) returns (ghost trace: seq<LockState>)
      requires Valid() && forall e :: e in events ==> e.Valid()
      modifies this, overlay
      ensures Valid() && Later()
      ensures |trace| == |events| + 1 && trace[0] == old(lockState) && trace[|events|] == lockState
      ensures forall i, j :: 0 <= i <= j < |trace| ==> Rank(trace[i]) <= Rank(trace[j])
      ensures forall r :: r in readLog ==>
                && r.lockedAtCheck == r.lockedAtRun
                && (r.lockedAtRun ==> InDecoy(r.lba, r.n) && r.physical == r.lba)
                && (!r.lockedAtRun ==> r.physical == Add32(r.lba, LOCKED_SECTORS))
      ensures |statuses| <= accepted <= |statuses| + 1
      ensures forall i :: 0 <= i < |statuses| ==>
                statuses[i].accepted == i + 1 && statuses[i].tag == statuses[i].lastTag
      ensures if lockState == Unlocked
              then
                && |derivations| == 1 && derivations[0].salt == deviceSalt
                && |derivations[0].password| == Min(derivations[0].captured, PASSWORD_MAX)
                && dataKey == T1(derivations[0].password, deviceSalt, rounds)
                && tweakKey == T1(derivations[0].password, NextSalt(deviceSalt), rounds)
                && pendingLen == 0 && pendingPw == Zeros(PASSWORD_MAX) && capacity == cardSectors - LOCKED_SECTORS
              else derivations == [] && capacity == LOCKED_SECTORS
    {
      hide T1, PhaseOk, MainOk, UnlockOk;
      trace := [lockState];
      for i := 0 to |events|
        invariant Valid() && Later()
        invariant |trace| == i + 1 && trace[0] == old(lockState) && trace[i] == lockState
        invariant forall i, j :: 0 <= i <= j < |trace| ==> Rank(trace[i]) <= Rank(trace[j])
      {
        Step(events[i]);
        trace := trace + [lockState];
      }
    }
  }

  /** The executed read that a READ(10) stands for. */
  function ReadOf(cbw: seq<byte>, state: LockState): Read
    requires |cbw| == CBW_SIZE
  {
    var (lba, locked) := (BigEndian32(cbw, 17), state != Unlocked);
    Read(lba, BlockCount(cbw), locked, locked, PhysicalLba(state, lba))
  }

  /** The status that answers a command, the last one of `accepted`. */
  function AnswerTo(cbw: seq<byte>, failed: bool, accepted: nat): Status
    requires |cbw| == CBW_SIZE
  {
    Status(TagOf(cbw), if failed then FAILED else PASSED, accepted, TagOf(cbw))
  }
}
