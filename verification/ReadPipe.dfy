/** READ(10) as the firmware runs it: polling loops beside two DMA engines that run on their own. */
module ReadPipe {
  import opened Bytes
  import opened ReadRingSpec

  class ReadPipe {
    var emmcDone: nat
    var usbDone: nat
    var emmcSlot: nat
    var usbSlot: nat
    var emmcPausedForUsbBuffer: bool
    var usbFirstPacket: bool
    var hw: Hw
    /** How often the loops may still poll before a busy engine completes: the hardware is fair. */
    var patience: nat

    constructor (ring: seq<Sector>)
      requires |ring| == RING_SECTORS
      ensures |hw.ring| == RING_SECTORS && hw.usb == Idle
    {
      emmcDone, usbDone, emmcSlot, usbSlot := 0, 0, 0, 0;
      emmcPausedForUsbBuffer, usbFirstPacket := false, true;
      hw := Hw(ring, Finished, 0, 0, Idle, []);
      patience := 0;
    }

    function At(pc: Pc): State
      reads this`emmcDone, this`usbDone, this`emmcSlot, this`usbSlot, this`emmcPausedForUsbBuffer,
            this`usbFirstPacket, this`hw
    {
      State(hw, Pipe(emmcDone, usbDone, emmcSlot, usbSlot, emmcPausedForUsbBuffer, usbFirstPacket), pc)
    }

    /** The work left for the loop, wherever it stands. */
    function Left(job: Job): nat
      reads this`emmcDone, this`usbDone, this`emmcSlot, this`usbSlot, this`emmcPausedForUsbBuffer,
            this`usbFirstPacket, this`hw
    {
      var w := Work(job, At(Sample));
      if w < 0 then 0 else w
    }

    /** One hardware event; if it completes nothing, both engines are where they were. */
    method Act(job: Job, ghost pc: Pc, e: Event)
      requires job.Valid() && Inv(job, At(pc)) && pc != Stopped
      modifies this`hw
      ensures Inv(job, At(pc)) && Left(job) <= old(Left(job))
      ensures Left(job) == old(Left(job)) ==> hw.sd == old(hw.sd) && hw.usb == old(hw.usb)
      ensures (e == SdBlock && old(hw.sd) == Running) || (e == UsbDone && old(hw.usb.Sending?)) ==>
                Left(job) < old(Left(job))
    {
      hide Inv;
      HardwareKeepsInv(job, At(pc), e);
      SizedByInv(job, At(pc));
      EventWork(job, At(pc), e);
      hw := Hardware(job, hw, e);
    }

    /**
     The engines do any number of things between two pieces of the loop. If nothing is completed
     although an engine is busy, patience runs down; when it is gone an engine completes.
     */
    method Interfere(job: Job, ghost pc: Pc)
      requires job.Valid() && Inv(job, At(pc)) && pc != Stopped
      modifies this`hw, this`patience
      ensures Inv(job, At(pc)) && Left(job) <= old(Left(job))
      ensures Left(job) == old(Left(job)) ==>
                && hw.sd == old(hw.sd) && hw.usb == old(hw.usb)
                && (if Busy(hw) then patience < old(patience) else patience == old(patience))
    {
      hide Inv, Left;
      var started := hw;
      var count: nat :| 0 <= count;
      for i := 0 to count
        invariant Inv(job, At(pc)) && Left(job) <= old(Left(job)) && patience == old(patience)
        invariant Left(job) == old(Left(job)) ==> hw.sd == old(hw.sd) && hw.usb == old(hw.usb)
      {
        var e: Event := *;
        Act(job, pc, e);
      }
      if hw.sd != started.sd || hw.usb != started.usb {
        var renewed :| 0 <= renewed;
        patience := renewed;
      } else if Busy(hw) {
        if patience == 0 {
          Act(job, pc, if hw.sd == Running then SdBlock else UsbDone);
        } else {
          patience := patience - 1;
        }
      }
    }

    /** Hands the next slot to USB, and lets the card go on if it waited for the room. */
    method QueueUsbReadSector(job: Job, ghost pc: Pc)
      requires job.Valid() && Inv(job, At(pc)) && (pc.Send? || pc.DrainSend?)
      requires (pc.u || usbFirstPacket) && (pc.Send? ==> HasSafeSector(At(pc).pipe))
      modifies this`usbDone, this`usbSlot, this`usbFirstPacket, this`emmcPausedForUsbBuffer, this`hw
      ensures Inv(job, At(if pc.Send? then Poll else DrainSample))
      ensures Left(job) < old(Left(job))
    {
      hide Inv;
      ghost var next := if pc.Send? then Poll else DrainSample;
      QueueKeepsInv(job, At(pc), next);
      QueueWork(job, At(pc));
      usbFirstPacket := false;
      hw := hw.(usb := Sending(usbSlot));
      usbDone := usbDone + 1;
      usbSlot := NextSlot(usbSlot);
      if emmcPausedForUsbBuffer {
        emmcPausedForUsbBuffer := false;
        hw := hw.(sd := Running);
      }
    }

    /** Decrypts the completed slot in place, moves the DMA on, and lets the card go on if there is room. */
    method TakeCompletedBlock(job: Job)
      requires job.Valid() && Inv(job, At(Poll)) && hw.sd == BlockGap
      modifies this`emmcDone, this`emmcSlot, this`emmcPausedForUsbBuffer, this`hw
      ensures Inv(job, At(Sample)) && Left(job) < old(Left(job))
    {
      hide Inv, Job.Treat;
      SizedByInv(job, At(Poll));
      TakeKeepsInv(job, At(Poll));
      TakeWork(job, At(Poll));
      hw := hw.(ring := hw.ring[emmcSlot := job.Treat(emmcDone, hw.ring[emmcSlot])]);
      emmcDone := emmcDone + 1;
      emmcSlot := NextSlot(emmcSlot);
      hw := hw.(dmaSlot := emmcSlot);
      if HasSpace(At(Sample).pipe) {
        hw := hw.(sd := Running);
        emmcPausedForUsbBuffer := false;
      } else {
        hw := hw.(sd := Gap);
        emmcPausedForUsbBuffer := true;
      }
    }

    method TakeLastCompletedBlock(job: Job)
      requires job.Valid() && Inv(job, At(Poll)) && hw.sd == TransferDone
      modifies this`emmcDone, this`hw
      ensures Inv(job, At(DrainSample))
    {
      hide Inv, Job.Treat;
      SizedByInv(job, At(Poll));
      TakeLastKeepsInv(job, At(Poll));
      hw := hw.(ring := hw.ring[emmcSlot := job.Treat(emmcDone, hw.ring[emmcSlot])], sd := Finished);
      emmcDone := emmcDone + 1;
    }

    /** One turn of the main loop: read the flag, queue a sector if one is ready, look after the card. */
    method Turn(job: Job) returns (done: bool)
      requires job.Valid() && Inv(job, At(Sample))
      modifies this
      ensures Inv(job, At(if done then DrainSample else Sample))
      ensures !done ==> Left(job) <= old(Left(job))
      ensures !done && Left(job) == old(Left(job)) ==> patience < old(patience)
    {
      hide Inv, Left, Job.HostSector;
      Interfere(job, Sample);
      IdleIsReady(job, At(Sample));
      var usbTxDone := hw.usb == Flagged;
      MoveKeepsInv(job, At(Sample), Send(usbTxDone));

      Interfere(job, Send(usbTxDone));
      if HasSafeSector(At(Sample).pipe) && (usbTxDone || usbFirstPacket) {
        QueueUsbReadSector(job, Send(usbTxDone));
      } else {
        MoveKeepsInv(job, At(Send(usbTxDone)), Poll);
      }

      Interfere(job, Poll);
      NotFinishedAtPoll(job, At(Poll));
      if hw.sd == BlockGap {
        TakeCompletedBlock(job);
      } else if hw.sd == TransferDone {
        TakeLastCompletedBlock(job);
        return true;
      } else {
        MoveKeepsInv(job, At(Poll), Sample);
      }
      return false;
    }

    /** One turn of the drain loop. */
    method DrainTurn(job: Job)
      requires job.Valid() && Inv(job, At(DrainSample)) && usbDone < emmcDone
      modifies this
      ensures Inv(job, At(DrainSample)) && Left(job) <= old(Left(job))
      ensures Left(job) == old(Left(job)) ==> patience < old(patience)
    {
      hide Inv, Left, Job.HostSector;
      Interfere(job, DrainSample);
      IdleIsReady(job, At(DrainSample));
      var usbTxDone := hw.usb == Flagged;
      MoveKeepsInv(job, At(DrainSample), DrainSend(usbTxDone));

      Interfere(job, DrainSend(usbTxDone));
      if usbTxDone || usbFirstPacket {
        QueueUsbReadSector(job, DrainSend(usbTxDone));
      } else {
        MoveKeepsInv(job, At(DrainSend(usbTxDone)), DrainSample);
      }
    }

    /**
     Streams n card sectors to the host. Whatever the two engines do in between, the host ends up with
     exactly these sectors, each once, in order and decrypted under its own address; with fair
     hardware every loop ends.
     */
    method ReadStream(job: Job)
      requires job.Valid() && |hw.ring| == RING_SECTORS && hw.usb == Idle
      modifies this
      ensures |hw.sent| == job.n && forall i :: 0 <= i < job.n ==> hw.sent[i] == job.HostSector(i)
      ensures |hw.ring| == RING_SECTORS && hw.usb == Idle
    {
      hide Inv, Left, Job.HostSector;
      emmcDone, usbDone, emmcSlot, usbSlot := 0, 0, 0, 0;
      emmcPausedForUsbBuffer, usbFirstPacket := false, true;
      hw := Hw(hw.ring, Running, 0, 0, Idle, []);
      InitInv(job, hw.ring);

      var done := false;
      while !done
        invariant Inv(job, At(if done then DrainSample else Sample))
        decreases !done, if done then 0 else Left(job), patience
      {
        IdleIsReady(job, At(Sample));
        done := Turn(job);
      }

      while usbDone < emmcDone
        invariant Inv(job, At(DrainSample))
        decreases Left(job), patience
      {
        IdleIsReady(job, At(DrainSample));
        DrainTurn(job);
      }

      MoveKeepsInv(job, At(DrainSample), LastWait);
      while hw.usb != Flagged
        invariant Inv(job, At(LastWait))
        decreases Left(job), patience
      {
        IdleIsReady(job, At(LastWait));
        Interfere(job, LastWait);
      }
      AllSent(job, At(LastWait));
      SizedByInv(job, At(LastWait));
      hw := hw.(usb := Idle);
    }
  }
}
