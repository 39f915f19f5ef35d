/** From a password that the host saves in a file to the keys of the hidden volume. */
module Unlocking {
  import opened Bytes
  import opened Memory
  import opened Lock
  import opened SnoopSpec
  import opened ScrubMeaning
  import opened CardSpec
  import opened KdfSpec
  import UnlockFile
  import WritePath
  import BotSpec
  import Bot

  /** What the main loop sees of a finished write stream. */
  method WriteOutcome(w: WritePath.WritePath) returns (o: BotSpec.Outcome)
    requires w.Valid()
    ensures o.Valid() && o.captured == w.snooper.m.pw && o.capturedLen == w.snooper.m.len
    ensures o.capture == w.snooper.m.pending && o.writeOk == (w.sense != WritePath.WRITE_ERROR)
  {
    o := BotSpec.Outcome(true, w.sense != WritePath.WRITE_ERROR, w.snooper.pendingPw[..], w.snooper.pendingPwLen,
                         w.snooper.lockState == UnlockPending, BotSpec.None, false, false);
  }

  /** Bot and write path of one locked drive: two views of the same lock, on separate buffers. */
  ghost predicate OneDrive(bot: Bot.Bot, w: WritePath.WritePath)
    reads bot, bot.overlay, w, w.snooper, w.snooper.pendingPw
  {
    && bot.Valid() && w.Valid() && bot.IsLocked() && w.snooper.lockState == bot.lockState
    && bot.overlay != w.udiskOutBuf && bot.overlay != w.udiskInBuf && bot.overlay != w.endp1Rbuff
    && bot.overlay != w.snooper.pendingPw
  }

  /** The write stream of one WRITE(10) to a locked drive, and what the main loop sees of it. */
  method StreamStored(w: WritePath.WritePath, total: nat, lba: nat, stream: seq<byte>, accepts: seq<bool>,
                      ghost e: WritePath.Entry)
    returns (o: BotSpec.Outcome)
    requires w.Valid() && lba < TWO32 && |stream| == SECTOR_SIZE * total
    requires total > 0 ==> w.endp1Rbuff[..] == SectorsAt(stream, 0, 1)
    requires |accepts| == WritePath.Chunks(total)
    requires e == WritePath.Entry(w.snooper.lockState, w.aes, w.card, w.snooper.m, w.snooper.nextWriteLba, lba)
    modifies w`card, w`sense, w.snooper, w.snooper.pendingPw, w.udiskOutBuf, w.udiskInBuf
    ensures w.Valid() && o.Valid() && o.captured == w.snooper.m.pw && o.capturedLen == w.snooper.m.len
    ensures o.capture == w.snooper.m.pending
    ensures o.writeOk <==> e.Takes(total, accepts)
    ensures o.writeOk ==> w.Stored(e, stream, total)
  {
    hide SectorsAt, WritePath.WritePath.Stored;
    w.sense := WritePath.NO_SENSE;
    ghost var committed := w.WriteStream(total, lba, stream, accepts, e);
    o := WriteOutcome(w);
  }

  /** The main loop serves a queued write with the stream. */
  method ServeStream(bot: Bot.Bot, w: WritePath.WritePath, total: nat, lba: nat, stream: seq<byte>,
                     accepts: seq<bool>, ghost e: WritePath.Entry)
    returns (stored: bool)
    requires OneDrive(bot, w) && lba < TWO32 && |stream| == SECTOR_SIZE * total
    requires bot.pc == BotSpec.Top && !bot.readPending && bot.writePending && bot.cswStatus == BotSpec.PASSED
    requires total > 0 ==> w.endp1Rbuff[..] == SectorsAt(stream, 0, 1)
    requires |accepts| == WritePath.Chunks(total)
    requires e == WritePath.Entry(w.snooper.lockState, w.aes, w.card, w.snooper.m, w.snooper.nextWriteLba, lba)
    modifies bot, bot.overlay, w`card, w`sense, w.snooper, w.snooper.pendingPw, w.udiskOutBuf, w.udiskInBuf
    ensures bot.Valid() && bot.pc == BotSpec.CheckUnlock
    ensures bot.irq == old(bot.irq) && bot.otherFlag == old(bot.otherFlag)
    ensures bot.tx == BotSpec.Csw(old(bot.cbwTag), if stored then BotSpec.PASSED else BotSpec.FAILED)
    ensures bot.pendingPw == w.snooper.m.pw && bot.pendingLen == w.snooper.m.len
    ensures w.snooper.m.pending ==> bot.lockState == UnlockPending
    ensures w.Valid() && (stored ==> w.Stored(e, stream, total))
    ensures stored <==> e.Takes(total, accepts)
  {
    hide SectorsAt, Bot.Bot.Valid, WritePath.WritePath.Valid, WritePath.WritePath.Stored;
    hide WritePath.Entry.Takes, WritePath.Chunks;
    var o := StreamStored(w, total, lba, stream, accepts, e);
    bot.ServeWrite(o);
    stored := o.writeOk;
  }

  /** A WRITE(10) of the stream, from the command to its status. */
  method StoreStream(bot: Bot.Bot, w: WritePath.WritePath, cbw: seq<byte>, total: nat, lba: nat, stream: seq<byte>,
                     accepts: seq<bool>, ghost e: WritePath.Entry)
    returns (stored: bool)
    requires OneDrive(bot, w)
    requires bot.pc == BotSpec.Top && !bot.hostBusy && bot.irq == BotSpec.NoIrq && !bot.rxStalled
    requires |cbw| == BotSpec.CBW_SIZE && BotSpec.HasSignature(cbw) && BotSpec.WellFormed(cbw)
    requires BotSpec.IsWrite(cbw[BotSpec.OPCODE]) && BotSpec.TransferLength(cbw) > 0
    requires total == BotSpec.BlockCount(cbw) && lba == BotSpec.BigEndian32(cbw, 17)
    requires |stream| == SECTOR_SIZE * total
    requires total > 0 ==> w.endp1Rbuff[..] == SectorsAt(stream, 0, 1)
    requires |accepts| == WritePath.Chunks(total)
    requires e == WritePath.Entry(w.snooper.lockState, w.aes, w.card, w.snooper.m, w.snooper.nextWriteLba, lba)
    modifies bot, bot.overlay, w`card, w`sense, w.snooper, w.snooper.pendingPw, w.udiskOutBuf, w.udiskInBuf
    ensures bot.Valid() && bot.pc == BotSpec.CheckUnlock && bot.irq == BotSpec.NoIrq
    ensures bot.otherFlag == old(bot.otherFlag)
    ensures bot.tx == BotSpec.Csw(BotSpec.TagOf(cbw), if stored then BotSpec.PASSED else BotSpec.FAILED)
    ensures bot.pendingPw == w.snooper.m.pw && bot.pendingLen == w.snooper.m.len
    ensures w.snooper.m.pending ==> bot.lockState == UnlockPending
    ensures w.Valid() && (stored ==> w.Stored(e, stream, total))
    ensures stored <==> e.Takes(total, accepts)
  {
    hide SectorsAt, Bot.Bot.Valid, WritePath.WritePath.Valid, WritePath.WritePath.Stored;
    hide BotSpec.HasSignature, BotSpec.WellFormed, BotSpec.TransferLength, BotSpec.TagOf, BotSpec.IsWrite;
    hide BotSpec.Number, BotSpec.BlockCount, WritePath.Entry.Takes, WritePath.Chunks;
    BotSpec.NumberFits(cbw[17], cbw[18], cbw[19], cbw[20]);
    bot.TakeUpWrite(cbw, w.endp1Rbuff[..]);
    stored := ServeStream(bot, w, total, lba, stream, accepts, e);
  }

  /** A file that the host saves: `size` bytes at byte q of the stream, with one password at byte j. */
  ghost predicate PasswordFile(stream: seq<byte>, q: nat, size: nat, j: nat, p: nat) {
    && q % SECTOR_SIZE == 0 && size <= UnlockFile.FILE_MAX_SIZE && q + size <= |stream|
    && |PREFIX| <= j && 1 <= p <= PASSWORD_MAX && j + p <= size
    && UnlockFile.OnlyValue(stream, q + j) && NoTerminator(stream, q + j, q + j + p)
    && (j + p < size ==> IsTerminator(stream[q + j + p]))
  }

  /** After the write the captured place, bytes and length are those of the file, and so is the card. */
  lemma FileStored(e: WritePath.Entry, w: WritePath.WritePath, stream: seq<byte>, total: nat,
                   q: nat, size: nat, j: nat, p: nat)
    requires w.Stored(e, stream, total) && |stream| == SECTOR_SIZE * total
    requires e.state != Unlocked && Fresh(e.Treatment().start) && Announced(e.m)
    requires PasswordFile(stream, q, size, j, p)
    ensures var m := w.snooper.m;
            && SECTOR_SIZE * m.lba + size <= |w.card| && m.offset == j && m.pending
            && UnlockFile.HoldsScrubbedPassword(w.card[SECTOR_SIZE * m.lba..SECTOR_SIZE * m.lba + size], j, m.len)
            && Min(m.len, size - j) == p && m.pw[..p] == stream[q + j..q + j + p]
            && m.len == Min(ValueLength(stream, q + j), PASSWORD_MAX + 1)
            && BotSpec.UsedBytes(m.pw, m.len) == KeptBytes(stream, q + j)
  {
    hide Run, Fresh, UnlockFile.HoldsScrubbedPassword, UnlockFile.OnlyValue, NoTerminator, WritePath.WritePath.Valid;
    hide Add32, Splice;
    var start := e.Treatment().start;
    assert start.at == PlaceAt(e.lba, 0) by { StartPlace(e.lba); }
    UnlockFile.FileRoundTrip(start, stream, e.lba, q, size, j, p);
    assert Head(stream, total) == stream by { WholeHead(stream, total); }
    FilePlace(|e.card|, e.lba, total, q, size);
    SplicedFile(e.card, e.lba, Run(start, stream).bytes, q, size);
    CapturedValue(start, stream, e.lba, q + j, p);
  }

  /** The length of the value at v, which may run on beyond the end of its file. */
  function ValueLength(stream: seq<byte>, v: nat): nat
    requires v <= |stream|
  {
    UnlockFile.ValueEnd(stream, v) - v
  }

  /** The bytes of the value at v that a capture keeps. */
  function KeptBytes(stream: seq<byte>, v: nat): seq<byte>
    requires v <= |stream|
  {
    stream[v..v + Min(ValueLength(stream, v), PASSWORD_MAX)]
  }

  lemma CapturedValue(s: Scan, stream: seq<byte>, lba: nat, v: nat, p: nat)
    requires Fresh(s) && s.at == PlaceAt(lba, 0) && UnlockFile.OnlyValue(stream, v)
    requires 1 <= p && v + p <= |stream| && NoTerminator(stream, v, v + p)
    ensures var m := EndOfBuffer(Run(s, stream).m);
            && m.len == Min(ValueLength(stream, v), PASSWORD_MAX + 1)
            && BotSpec.UsedBytes(m.pw, m.len) == KeptBytes(stream, v)
  {
    hide Run, PlaceAt, UnlockFile.OnlyValue, NoTerminator, Fresh;
    UnlockFile.ValueEndIs(stream, v, v + p);
    UnlockFile.OnlyValueCaptured(s, stream, v, lba);
  }

  /**
   The kept bytes are a password that starts the value exactly if nothing follows it in the value, or
   what follows it is cut off by the buffer.
   */
  lemma KeptIsPassword(stream: seq<byte>, v: nat, p: nat)
    requires 1 <= p && v + p <= |stream| && NoTerminator(stream, v, v + p)
    ensures KeptBytes(stream, v) == stream[v..v + p]
            <==> p == PASSWORD_MAX || (p < PASSWORD_MAX && ValueLength(stream, v) == p)
  {
    hide NoTerminator;
    UnlockFile.ValueEndIs(stream, v, v + p);
    assert |KeptBytes(stream, v)| == Min(ValueLength(stream, v), PASSWORD_MAX);
  }

  /** A file inside the stream starts at a sector of the card that has not wrapped around. */
  lemma FilePlace(cardBytes: nat, lba: nat, total: nat, q: nat, size: nat)
    requires cardBytes % SECTOR_SIZE == 0 && cardBytes / SECTOR_SIZE < TWO32
    requires SECTOR_SIZE * (lba + total) <= cardBytes && q % SECTOR_SIZE == 0
    requires 0 < size && q + size <= SECTOR_SIZE * total
    ensures Add32(lba, q / SECTOR_SIZE) == lba + q / SECTOR_SIZE
    ensures SECTOR_SIZE * (lba + q / SECTOR_SIZE) == SECTOR_SIZE * lba + q
  {
  }

  lemma SplicedFile(card: seq<byte>, lba: nat, data: seq<byte>, q: nat, size: nat)
    requires SECTOR_SIZE * lba + |data| <= |card| && q + size <= |data|
    ensures var after := Splice(card, SECTOR_SIZE * lba, data);
            after[SECTOR_SIZE * lba + q..SECTOR_SIZE * lba + q + size] == data[q..q + size]
  {
  }

  /** The file as the unlock reads it back, from the sector where the password was seen. */
  method ReadFile(card: seq<byte>, lba: nat, size: nat) returns (contents: array<byte>)
    requires size <= UnlockFile.FILE_MAX_SIZE && SECTOR_SIZE * lba + size <= |card|
    ensures fresh(contents) && contents.Length == UnlockFile.FILE_MAX_SIZE
    ensures contents[..size] == card[SECTOR_SIZE * lba..SECTOR_SIZE * lba + size]
  {
    contents := new byte[UnlockFile.FILE_MAX_SIZE];
    CopyBytes(contents, 0, card[SECTOR_SIZE * lba..SECTOR_SIZE * lba + size]);
  }

  /** The search finds the scrubbed file, and with it the password's exact length. */
  method FindFile(w: WritePath.WritePath, captured: nat, stream: seq<byte>, total: nat,
                  q: nat, size: nat, j: nat, p: nat, ghost e: WritePath.Entry)
    returns (length: nat)
    requires w.Stored(e, stream, total) && |stream| == SECTOR_SIZE * total
    requires e.state != Unlocked && Fresh(e.Treatment().start) && Announced(e.m)
    requires PasswordFile(stream, q, size, j, p) && captured == w.snooper.m.len
    ensures length == p
  {
    hide Fresh, Announced, PasswordFile, UnlockFile.HoldsScrubbedPassword;
    FileStored(e, w, stream, total, q, size, j, p);
    FileSize(stream, q, size, j, p);
    var contents := ReadFile(w.card, w.snooper.pendingPwLba, size);
    var found;
    found, length := UnlockFile.MatchesScrubbedPassword(contents, size, w.snooper.pendingPwOffset, captured);
  }

  lemma FileSize(stream: seq<byte>, q: nat, size: nat, j: nat, p: nat)
    requires PasswordFile(stream, q, size, j, p)
    ensures size <= UnlockFile.FILE_MAX_SIZE && 1 <= p <= PASSWORD_MAX && q + j + p <= |stream|
  {
  }

  /** The password is what the derivation uses of the captured bytes. */
  lemma UsedIsPassword(buffer: seq<byte>, password: seq<byte>)
    requires |password| <= |buffer| && buffer[..|password|] == password
    ensures BotSpec.UsedBytes(buffer, |password|) == password
  {
  }

  /** The unlock attempt, with what the search and the deletion come to. */
  method UnlockWith(bot: Bot.Bot, found: BotSpec.Option<nat>, deleted: bool, timedOut: bool)
    requires bot.Valid() && bot.pc == BotSpec.CheckUnlock && bot.UsbIsIdle()
    requires bot.lockState == UnlockPending && bot.pendingLen > 0
    requires found.Some? ==> 1 <= found.value <= PASSWORD_MAX
    modifies bot, bot.overlay
    ensures bot.Valid()
    ensures var length := if found.Some? then found.value else old(bot.pendingLen);
            if (found.Some? && deleted) || timedOut
            then bot.UnlockedBy(BotSpec.UsedBytes(old(bot.pendingPw), length))
            else bot.lockState == UnlockPending && bot.pendingLen == length
  {
    hide Bot.Bot.LockOk, Bot.Bot.AccountsOk, Bot.Bot.ReadsOk, Bot.Bot.PhaseOk, Bot.Bot.MainOk, Bot.Bot.UnlockOk;
    hide Bot.Bot.UnlockedBy, BotSpec.UsedBytes;
    var o := BotSpec.Outcome(true, true, Zeros(PASSWORD_MAX), 0, false, found, timedOut, deleted);
    bot.ReachSearch(o);
    bot.FinishUnlock(o);
  }

  /** The snooper's copy of the length that was found. */
  method KeepLength(w: WritePath.WritePath, length: nat)
    requires w.Valid() && 0 < length <= PASSWORD_MAX
    modifies w.snooper
    ensures w.Valid() && w.snooper.m.len == length
  {
    w.snooper.TrimPassword(length);
  }

  /**
   The whole way. On a locked drive at rest the host saves a file with one password of 1 to 128 bytes, in
   one WRITE(10) that may be cut into many chunks. If the write succeeds, the next unlock attempt finds
   the scrubbed file, provided the volume can be mounted. The drive comes up unlocked once the file is
   deleted or time is up, with the keys that RFC 8018 derives from exactly that password; otherwise it
   stays pending, with the length of that password. Without a volume it comes up when time is up, with
   the keys of the bytes that the capture kept.
   */
  method SavePassword(bot: Bot.Bot, w: WritePath.WritePath, cbw: seq<byte>, total: nat, lba: nat, stream: seq<byte>,
                      q: nat, size: nat, j: nat, p: nat, mounted: bool, deleted: bool, timedOut: bool,
                      accepts: seq<bool>, ghost e: WritePath.Entry)
    returns (stored: bool)
    requires OneDrive(bot, w) && !bot.otherFlag
    requires bot.pc == BotSpec.Top && !bot.hostBusy && bot.irq == BotSpec.NoIrq && !bot.rxStalled
    requires |cbw| == BotSpec.CBW_SIZE && BotSpec.HasSignature(cbw) && BotSpec.WellFormed(cbw)
    requires BotSpec.IsWrite(cbw[BotSpec.OPCODE]) && BotSpec.TransferLength(cbw) > 0
    requires total == BotSpec.BlockCount(cbw) && lba == BotSpec.BigEndian32(cbw, 17)
    requires |stream| == SECTOR_SIZE * total
    requires total > 0 ==> w.endp1Rbuff[..] == SectorsAt(stream, 0, 1)
    requires |accepts| == WritePath.Chunks(total)
    requires e == WritePath.Entry(w.snooper.lockState, w.aes, w.card, w.snooper.m, w.snooper.nextWriteLba, lba)
    requires Fresh(e.Treatment().start) && Announced(e.m) && PasswordFile(stream, q, size, j, p)
    modifies bot, bot.overlay, w`card, w`sense, w.snooper, w.snooper.pendingPw, w.udiskOutBuf, w.udiskInBuf
    ensures bot.Valid()
    ensures stored <==> e.Takes(total, accepts)
    ensures stored && mounted && (deleted || timedOut) ==> bot.UnlockedBy(stream[q + j..q + j + p])
    ensures stored && mounted && !deleted && !timedOut ==>
              bot.lockState == UnlockPending && bot.pendingLen == p && w.Valid() && w.snooper.m.len == p
    ensures stored && !mounted && timedOut ==> bot.UnlockedBy(KeptBytes(stream, q + j))
    ensures stored && !mounted && !timedOut ==>
              bot.lockState == UnlockPending && bot.pendingLen == Min(ValueLength(stream, q + j), PASSWORD_MAX + 1)
  {
    hide SectorsAt, Bot.Bot.Valid, WritePath.WritePath.Valid, WritePath.WritePath.Stored, Fresh, Announced;
    hide BotSpec.HasSignature, BotSpec.WellFormed, BotSpec.TransferLength, BotSpec.TagOf, BotSpec.IsWrite;
    hide BotSpec.Number, BotSpec.BlockCount, BotSpec.UsedBytes, PasswordFile, UnlockFile.HoldsScrubbedPassword;
    hide KeptBytes, ValueLength, Bot.Bot.UnlockedBy;
    FileSize(stream, q, size, j, p);
    stored := StoreStream(bot, w, cbw, total, lba, stream, accepts, e);
    if stored {
      FileStored(e, w, stream, total, q, size, j, p);
      UsedIsPassword(w.snooper.m.pw, stream[q + j..q + j + p]);
      bot.SettleTransport();
      var found := BotSpec.None;
      if mounted {
        var length := FindFile(w, bot.pendingLen, stream, total, q, size, j, p, e);
        found := BotSpec.Some(length);
      }
      UnlockWith(bot, found, deleted, timedOut);
      if mounted {
        KeepLength(w, p);
      }
    }
  }

  /** A sector with one saved line is a password file, with the line's own bytes as the password. */
  lemma LineIsPasswordFile(v: seq<byte>, e: seq<byte>)
    requires UnlockFile.IsLineText(v) && UnlockFile.IsLineEnd(e) && 1 <= |v| <= 128
    ensures var d := UnlockFile.OneLineFile(v, e);
            && PasswordFile(d, 0, 9 + |v| + |e|, 9, |v|)
            && d[9..9 + |v|] == v && KeptBytes(d, 9) == v && ValueLength(d, 9) == |v|
  {
    hide UnlockFile.OneLineFile, UnlockFile.OnlyValue, NoTerminator, UnlockFile.IsLineText, UnlockFile.ValueEnd;
    UnlockFile.OneLineIsOnlyValue(v, e);
    UnlockFile.ValueEndIs(UnlockFile.OneLineFile(v, e), 9, 9 + |v|);
  }

  /**
   The same in bytes: a sector that reads "password:", 1 to 128 bytes of text and a line end, written to a
   locked drive at rest that accepts it, unlocks the drive under exactly this text.
   */
  method SaveLine(bot: Bot.Bot, w: WritePath.WritePath, cbw: seq<byte>, lba: nat, v: seq<byte>, e: seq<byte>,
                  mounted: bool, deleted: bool, timedOut: bool, ghost entry: WritePath.Entry)
    requires OneDrive(bot, w) && !bot.otherFlag
    requires bot.pc == BotSpec.Top && !bot.hostBusy && bot.irq == BotSpec.NoIrq && !bot.rxStalled
    requires |cbw| == BotSpec.CBW_SIZE && BotSpec.HasSignature(cbw) && BotSpec.WellFormed(cbw)
    requires BotSpec.IsWrite(cbw[BotSpec.OPCODE]) && BotSpec.TransferLength(cbw) > 0
    requires BotSpec.BlockCount(cbw) == 1 && lba == BotSpec.BigEndian32(cbw, 17)
    requires UnlockFile.IsLineText(v) && UnlockFile.IsLineEnd(e) && 1 <= |v| <= 128
    requires w.endp1Rbuff[..] == UnlockFile.OneLineFile(v, e)
    requires entry == WritePath.Entry(w.snooper.lockState, w.aes, w.card, w.snooper.m, w.snooper.nextWriteLba, lba)
    requires Fresh(entry.Treatment().start) && Announced(entry.m) && entry.OnCard(1)
    modifies bot, bot.overlay, w`card, w`sense, w.snooper, w.snooper.pendingPw, w.udiskOutBuf, w.udiskInBuf
    ensures bot.Valid()
    ensures (mounted && deleted) || timedOut ==> bot.UnlockedBy(v)
    ensures !(mounted && deleted) && !timedOut ==> bot.lockState == UnlockPending && bot.pendingLen == |v|
  {
    hide Bot.Bot.Valid, WritePath.WritePath.Valid, Fresh, Announced, PasswordFile, Bot.Bot.UnlockedBy;
    hide BotSpec.HasSignature, BotSpec.WellFormed, BotSpec.TransferLength, BotSpec.IsWrite, BotSpec.BlockCount;
    hide BotSpec.Number, UnlockFile.OneLineFile, KeptBytes, ValueLength;
    var d := UnlockFile.OneLineFile(v, e);
    LineIsPasswordFile(v, e);
    assert SectorsAt(d, 0, 1) == d;
    var stored := SavePassword(bot, w, cbw, 1, lba, d, 0, 9 + |v| + |e|, 9, |v|, mounted, deleted, timedOut, [true],
                               entry);
  }
}
