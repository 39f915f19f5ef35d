/** One READ(10) from the command to the sectors that the host gets. */
module Reading {
  import opened Bytes
  import opened Lock
  import opened CardSpec
  import opened XtsSpec
  import BotSpec
  import Bot
  import ReadRingSpec
  import ReadPipe

  /** What the host reads at `lba`: the card's own sector, or on an unlocked drive the decrypted hidden one. */
  function Shown(state: LockState, aes: Aes, card: seq<byte>, lba: nat): seq<byte>
    requires SECTOR_SIZE * (lba + (if state == Unlocked then LOCKED_SECTORS else 0) + 1) <= |card|
  {
    if state == Unlocked
    then XtsBytes(aes.dec, aes, lba + LOCKED_SECTORS, SectorsAt(card, SECTOR_SIZE * (lba + LOCKED_SECTORS), 1))
    else SectorsAt(card, SECTOR_SIZE * lba, 1)
  }

  /** The sectors that a READ(10) may be served: the decoy, or the reported capacity of the hidden volume. */
  predicate InReach(state: LockState, cardSectors: nat, lba: nat, n: nat) {
    lba + n <= if state == Unlocked then cardSectors - LOCKED_SECTORS else LOCKED_SECTORS
  }

  lemma BlockCountFits(cbw: seq<byte>)
    requires |cbw| == BotSpec.CBW_SIZE
    ensures BotSpec.BlockCount(cbw) <= 0xffff
  {
    hide BotSpec.Value;
    assert BotSpec.Value(0) == 0 by { ZeroValue(); }
  }

  lemma ZeroValue()
    ensures BotSpec.Value(0) == 0
  {
  }

  /** Within reach the physical address does not wrap, so each sector is the one shown at its own address. */
  lemma ShownSector(job: ReadRingSpec.Job, state: LockState, cardSectors: nat, lba: nat, i: nat)
    requires LOCKED_SECTORS < cardSectors < TWO32 && |job.card| == SECTOR_SIZE * cardSectors
    requires InReach(state, cardSectors, lba, job.n) && i < job.n <= 0xffff
    requires job.lba == PhysicalLba(state, lba) && job.decrypt == (state == Unlocked)
    ensures job.Valid() && job.HostSector(i) == Shown(state, job.aes, job.card, lba + i)
  {
    hide XtsBytes, SectorsAt;
  }

  /** The host has got the n sectors shown from `lba` on, in order. */
  predicate Got(sent: seq<seq<byte>>, state: LockState, aes: Aes, card: seq<byte>, lba: nat, n: nat) {
    && SECTOR_SIZE * (lba + (if state == Unlocked then LOCKED_SECTORS else 0) + n) <= |card|
    && |sent| == n && forall i :: 0 <= i < n ==> sent[i] == Shown(state, aes, card, lba + i)
  }

  /** The ring streams one job. */
  method StreamJob(pipe: ReadPipe.ReadPipe, job: ReadRingSpec.Job, state: LockState, cardSectors: nat, lba: nat)
    requires LOCKED_SECTORS < cardSectors < TWO32 && |job.card| == SECTOR_SIZE * cardSectors
    requires InReach(state, cardSectors, lba, job.n) && 0 < job.n <= 0xffff
    requires job.lba == PhysicalLba(state, lba) && job.decrypt == (state == Unlocked)
    requires |pipe.hw.ring| == ReadRingSpec.RING_SECTORS && pipe.hw.usb == ReadRingSpec.Idle
    modifies pipe
    ensures Got(pipe.hw.sent, state, job.aes, job.card, lba, job.n)
    ensures |pipe.hw.ring| == ReadRingSpec.RING_SECTORS && pipe.hw.usb == ReadRingSpec.Idle
  {
    hide Shown, ReadRingSpec.Job.HostSector;
    forall i | 0 <= i < job.n
      ensures job.Valid() && job.HostSector(i) == Shown(state, job.aes, job.card, lba + i)
    {
      ShownSector(job, state, cardSectors, lba, i);
    }
    assert job.Valid() by { ShownSector(job, state, cardSectors, lba, 0); }
    pipe.ReadStream(job);
  }

  /** The main loop serves a queued read, with the ring in between. */
  method ServeThroughRing(bot: Bot.Bot, pipe: ReadPipe.ReadPipe, aes: Aes, card: seq<byte>)
    requires bot.Valid() && bot.pc == BotSpec.Top && bot.readPending && |card| == SECTOR_SIZE * bot.cardSectors
    requires InReach(bot.lockState, bot.cardSectors, bot.currentLba, bot.bytesLeft / SECTOR_SIZE)
    requires 0 < bot.bytesLeft / SECTOR_SIZE <= 0xffff
    requires |pipe.hw.ring| == ReadRingSpec.RING_SECTORS && pipe.hw.usb == ReadRingSpec.Idle
    modifies bot`pc, bot`readPending, bot`bytesLeft, bot`readLog, bot`currentLba
    modifies bot`dataIn, bot`dataOut, bot`cswPending, bot`tx, bot`statuses, bot.overlay, pipe
    ensures bot.Valid() && bot.tx == BotSpec.Csw(bot.cbwTag, bot.cswStatus)
    ensures Got(pipe.hw.sent, bot.lockState, aes, card, old(bot.currentLba), old(bot.bytesLeft) / SECTOR_SIZE)
    ensures |pipe.hw.ring| == ReadRingSpec.RING_SECTORS && pipe.hw.usb == ReadRingSpec.Idle
  {
    hide Bot.Bot.LockOk, Bot.Bot.AccountsOk, Bot.Bot.ReadsOk, Bot.Bot.PhaseOk, Bot.Bot.MainOk, Bot.Bot.UnlockOk;
    hide Got, InReach;
    bot.CardFacts();
    bot.PollRead();
    bot.StartRead();
    var job := ReadRingSpec.Job(bot.pc.n, bot.pc.physical, !bot.IsLocked(), aes, card);
    StreamJob(pipe, job, bot.lockState, bot.cardSectors, bot.currentLba);
    bot.StreamRead();
    bot.EndRead();
  }

  /**
   A READ(10) on a drive at rest, through the command layer and the ring. A refused one hands the host
   nothing and ends FAILED. Any other hands it exactly the n sectors shown at its addresses, in order: on
   a locked drive those of the card itself, all below LOCKED_SECTORS.
   */
  method ReadSectors(bot: Bot.Bot, pipe: ReadPipe.ReadPipe, cbw: seq<byte>, aes: Aes, card: seq<byte>)
    requires bot.Valid() && bot.pc == BotSpec.Top && !bot.hostBusy && bot.irq == BotSpec.NoIrq && !bot.rxStalled
    requires |cbw| == BotSpec.CBW_SIZE && BotSpec.HasSignature(cbw) && BotSpec.WellFormed(cbw)
    requires cbw[BotSpec.OPCODE] == BotSpec.READ10 && BotSpec.TransferLength(cbw) > 0
    requires |card| == SECTOR_SIZE * bot.cardSectors
    requires bot.lockState == Unlocked ==>
               InReach(Unlocked, bot.cardSectors, BotSpec.BigEndian32(cbw, 17), BotSpec.BlockCount(cbw))
    requires |pipe.hw.ring| == ReadRingSpec.RING_SECTORS && pipe.hw.usb == ReadRingSpec.Idle
    modifies bot, bot.overlay, pipe
    ensures bot.Valid() && bot.lockState == old(bot.lockState) && bot.irq == BotSpec.NoIrq
    ensures bot.tx == BotSpec.Csw(BotSpec.TagOf(cbw), if bot.Refused(cbw) then BotSpec.FAILED else BotSpec.PASSED)
    ensures bot.Refused(cbw) ==> pipe.hw == old(pipe.hw)
    ensures var (lba, n) := (BotSpec.BigEndian32(cbw, 17), BotSpec.BlockCount(cbw));
            !bot.Refused(cbw) ==>
              InReach(bot.lockState, bot.cardSectors, lba, n) && Got(pipe.hw.sent, bot.lockState, aes, card, lba, n)
    ensures |pipe.hw.ring| == ReadRingSpec.RING_SECTORS && pipe.hw.usb == ReadRingSpec.Idle
  {
    hide Bot.Bot.LockOk, Bot.Bot.AccountsOk, Bot.Bot.ReadsOk, Bot.Bot.PhaseOk, Bot.Bot.MainOk, Bot.Bot.UnlockOk;
    hide BotSpec.HasSignature, BotSpec.WellFormed, BotSpec.TransferLength, BotSpec.TagOf;
    hide BotSpec.BigEndian32, BotSpec.BlockCount, Got, Bot.Bot.TakenUp, Bot.Bot.Judged, Bot.AnswerTo;
    hide BotSpec.IsWrite;
    BlockCountFits(cbw);
    bot.TakeUp(cbw);
    bot.TakenUpFacts(cbw, old(bot.Sensed()));
    if bot.readPending {
      bot.QueuedFacts();
      ServeThroughRing(bot, pipe, aes, card);
    } else {
      bot.FetchStatus();
    }
  }
}
