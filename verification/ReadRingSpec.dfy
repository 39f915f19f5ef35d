/**
 The READ(10) pipeline as a step system: the polling loop of the firmware, the SD DMA that fills ring
 slots and the USB DMA that empties them, interleaved in any order.
 */
module ReadRingSpec {
  import opened Bytes
  import opened XtsSpec

  const RING_SECTORS: nat := 60

  type Sector = s: seq<byte> | |s| == SECTOR_SIZE witness Zeros(SECTOR_SIZE)

  /** One read: n sectors of the card from `lba` on, decrypted if the drive is unlocked. */
  datatype Job = Job(n: nat, lba: nat, decrypt: bool, aes: Aes, card: seq<byte>)
  {
    predicate Valid() {
      0 < n <= 0xffff && SECTOR_SIZE * (lba + n) <= |card| && lba + n <= TWO32
    }

    function CardSector(i: nat): Sector
      requires Valid() && i < n
    {
      SectorsAt(card, SECTOR_SIZE * (lba + i), 1)
    }

    /** A sector as the drive hands it on, each under its own address. */
    function Treat(i: nat, s: Sector): Sector {
      if decrypt then XtsBytes(aes.dec, aes, Add32(lba, i), s) else s
    }

    function HostSector(i: nat): Sector
      requires Valid() && i < n
    {
      Treat(i, CardSector(i))
    }
  }

  /** The card side: filling a slot, stopped at a gap, a completion flag up, or finished. */
  datatype Sd = Running | Gap | BlockGap | TransferDone | Finished

  /** The USB side: nothing queued yet, a slot in flight, or its completion flag up. */
  datatype Usb = Idle | Sending(slot: nat) | Flagged

  /** Everything the two DMA engines own or change. */
  datatype Hw = Hw(ring: seq<Sector>, sd: Sd, dmaSlot: nat, sdDone: nat, usb: Usb, sent: seq<Sector>)

  /** The counters and flags of the polling loop. */
  datatype Pipe = Pipe(emmcDone: nat, usbDone: nat, emmcSlot: nat, usbSlot: nat, paused: bool, first: bool)

  /** Where the polling loop stands; `u` is the transfer flag it has read. */
  datatype Pc = Sample | Send(u: bool) | Poll | DrainSample | DrainSend(u: bool) | LastWait | Stopped

  datatype State = State(hw: Hw, pipe: Pipe, pc: Pc)

  function NextSlot(slot: nat): nat {
    if slot + 1 == RING_SECTORS then 0 else slot + 1
  }

  predicate HasSafeSector(p: Pipe) {
    p.emmcDone > 1 && p.usbDone < p.emmcDone - 1
  }

  predicate HasSpace(p: Pipe) {
    p.emmcDone - p.usbDone < RING_SECTORS - 2
  }

  // ---------- steps ----------

  datatype Event =
    | Cpu                  // the polling loop does its next piece of work
    | SdWrites(x: Sector)  // the slot being filled holds x for the moment
    | SdBlock              // the slot is filled and a completion flag goes up
    | UsbDone              // the slot in flight has been sent and the transfer flag goes up

  /** What the hardware does; an event that is not enabled does nothing. */
  function Hardware(job: Job, h: Hw, e: Event): Hw
    requires job.Valid() && |h.ring| == RING_SECTORS
  {
    match e
    case Cpu => h
    case SdWrites(x) =>
      if h.sd == Running && h.dmaSlot < RING_SECTORS then h.(ring := h.ring[h.dmaSlot := x]) else h
    case SdBlock =>
      if h.sd == Running && h.dmaSlot < RING_SECTORS && h.sdDone < job.n then
        h.(ring := h.ring[h.dmaSlot := job.CardSector(h.sdDone)], sdDone := h.sdDone + 1,
           sd := if h.sdDone + 1 == job.n then TransferDone else BlockGap)
      else h
    case UsbDone =>
      if h.usb.Sending? && h.usb.slot < RING_SECTORS then
        h.(sent := h.sent + [h.ring[h.usb.slot]], usb := Flagged)
      else h
  }

  /** Queues the next slot for USB, and lets the card go on if it waited for the room. */
  function QueueSector(h: Hw, p: Pipe): (Hw, Pipe) {
    (h.(usb := Sending(p.usbSlot), sd := if p.paused then Running else h.sd),
     p.(usbDone := p.usbDone + 1, usbSlot := NextSlot(p.usbSlot), first := false, paused := false))
  }

  /** A completed slot is decrypted in place; then the card goes on or waits for room. */
  function TakeBlock(job: Job, h: Hw, p: Pipe): (Hw, Pipe)
    requires |h.ring| == RING_SECTORS && p.emmcSlot < RING_SECTORS
  {
    var ring := h.ring[p.emmcSlot := job.Treat(p.emmcDone, h.ring[p.emmcSlot])];
    var p' := p.(emmcDone := p.emmcDone + 1, emmcSlot := NextSlot(p.emmcSlot));
    (h.(ring := ring, dmaSlot := p'.emmcSlot, sd := if HasSpace(p') then Running else Gap),
     p'.(paused := !HasSpace(p')))
  }

  function TakeLastBlock(job: Job, h: Hw, p: Pipe): (Hw, Pipe)
    requires |h.ring| == RING_SECTORS && p.emmcSlot < RING_SECTORS
  {
    var ring := h.ring[p.emmcSlot := job.Treat(p.emmcDone, h.ring[p.emmcSlot])];
    (h.(ring := ring, sd := Finished), p.(emmcDone := p.emmcDone + 1))
  }

  predicate Sized(s: State) {
    |s.hw.ring| == RING_SECTORS && s.pipe.emmcSlot < RING_SECTORS
  }

  function CpuStep(job: Job, s: State): State
    requires Sized(s)
  {
    var (h, p) := (s.hw, s.pipe);
    match s.pc
    case Sample => s.(pc := Send(h.usb == Flagged))
    case Send(u) =>
      if HasSafeSector(p) && (u || p.first) then
        var (h', p') := QueueSector(h, p); State(h', p', Poll)
      else s.(pc := Poll)
    case Poll =>
      if h.sd == BlockGap then var (h', p') := TakeBlock(job, h, p); State(h', p', Sample)
      else if h.sd == TransferDone then var (h', p') := TakeLastBlock(job, h, p); State(h', p', DrainSample)
      else s.(pc := Sample)
    case DrainSample =>
      s.(pc := if p.usbDone < p.emmcDone then DrainSend(h.usb == Flagged) else LastWait)
    case DrainSend(u) =>
      if u || p.first then
        var (h', p') := QueueSector(h, p); State(h', p', DrainSample)
      else s.(pc := DrainSample)
    case LastWait =>
      if h.usb == Flagged then s.(hw := h.(usb := Idle), pc := Stopped) else s
    case Stopped => s
  }

  function Do(job: Job, s: State, e: Event): State
    requires job.Valid() && Sized(s)
  {
    if e == Cpu then CpuStep(job, s) else s.(hw := Hardware(job, s.hw, e))
  }

  /** Before the loop: the card has been told to start, nothing is queued. */
  function Init(ring: seq<Sector>): State {
    State(Hw(ring, Running, 0, 0, Idle, []), Pipe(0, 0, 0, 0, false, true), Sample)
  }

  // ---------- what every reachable state keeps ----------

  /** Counters, slots and flags. */
  ghost predicate Counts(job: Job, s: State)
    requires job.Valid()
  {
    var (h, p) := (s.hw, s.pipe);
    && |h.ring| == RING_SECTORS
    && p.usbDone <= p.emmcDone <= h.sdDone <= job.n
    && h.sdDone == p.emmcDone + (if h.sd in {BlockGap, TransferDone} then 1 else 0)
    && (h.sd in {Running, Gap, BlockGap} ==> h.sdDone < job.n)
    && (h.sd in {TransferDone, Finished} ==> h.sdDone == job.n)
    && p.usbSlot == p.usbDone % RING_SECTORS
    && p.emmcSlot == (if h.sd == Finished then p.emmcDone - 1 else p.emmcDone) % RING_SECTORS
    && h.dmaSlot == p.emmcSlot
    && (p.paused <==> h.sd == Gap)
    && p.emmcDone - p.usbDone <= (if h.sd in {Gap, Finished} then 58 else 57)
    && (h.sd == Gap ==> p.emmcDone - p.usbDone == 58)
    && (p.first <==> p.usbDone == 0)
    && (h.sd != Finished && p.usbDone > 0 ==> p.usbDone < p.emmcDone)
    && (s.pc != Stopped ==> (p.first <==> h.usb == Idle))
    && (h.usb.Sending? ==> h.usb.slot == (p.usbDone - 1) % RING_SECTORS)
    && (s.pc in {Sample, Poll} || s.pc.Send? ==> h.sd != Finished)
    && (s.pc in {DrainSample, LastWait, Stopped} || s.pc.DrainSend? ==> h.sd == Finished)
    && ((s.pc.Send? || s.pc.DrainSend?) && s.pc.u ==> h.usb == Flagged)
    && (s.pc.DrainSend? ==> p.usbDone < p.emmcDone)
    && (s.pc in {LastWait, Stopped} ==> p.usbDone == job.n)
    && (s.pc == Stopped ==> h.usb == Idle)
  }

  /** How many sectors the host has. */
  function SentCount(s: State): nat
    requires s.hw.usb.Sending? ==> s.pipe.usbDone > 0
  {
    s.pipe.usbDone - if s.hw.usb.Sending? then 1 else 0
  }

  /** Slots and sectors: what the ring and the host hold. */
  ghost predicate Contents(job: Job, s: State)
    requires job.Valid() && Counts(job, s)
  {
    var (h, p) := (s.hw, s.pipe);
    && |h.sent| == SentCount(s)
    && (forall i :: 0 <= i < |h.sent| ==> h.sent[i] == job.HostSector(i))
    && (forall i :: SentCount(s) <= i < p.emmcDone ==> h.ring[i % RING_SECTORS] == job.HostSector(i))
    && (h.sd in {BlockGap, TransferDone} ==> h.ring[p.emmcSlot] == job.CardSector(p.emmcDone))
  }

  ghost predicate Inv(job: Job, s: State)
    requires job.Valid()
  {
    Counts(job, s) && Contents(job, s)
  }

  /** No two of fewer than 60 consecutive sectors share a slot. */
  lemma SlotsDiffer(i: nat, j: nat)
    requires i < j < i + RING_SECTORS
    ensures i % RING_SECTORS != j % RING_SECTORS
  {
  }

  lemma NextSlotIs(i: nat)
    ensures NextSlot(i % RING_SECTORS) == (i + 1) % RING_SECTORS
  {
  }

  lemma InitInv(job: Job, ring: seq<Sector>)
    requires job.Valid() && |ring| == RING_SECTORS
    ensures Inv(job, Init(ring))
  {
  }

  lemma {:induction false} HardwareKeepsInv(job: Job, s: State, e: Event)
    requires job.Valid() && Inv(job, s)
    ensures Inv(job, s.(hw := Hardware(job, s.hw, e)))
  {
    hide Job.HostSector, Job.CardSector;
    match e
    case Cpu =>
    case SdWrites(x) => FillKeepsInv(job, s, e);
    case SdBlock => FillKeepsInv(job, s, e);
    case UsbDone => SentKeepsInv(job, s);
  }

  lemma {:induction false} FillKeepsInv(job: Job, s: State, e: Event)
    requires job.Valid() && Inv(job, s) && (e.SdWrites? || e.SdBlock?)
    ensures Inv(job, s.(hw := Hardware(job, s.hw, e)))
  {
    hide Job.HostSector, Job.CardSector;
    var (h, p) := (s.hw, s.pipe);
    if h.sd == Running {
      forall i | SentCount(s) <= i < p.emmcDone
        ensures i % RING_SECTORS != h.dmaSlot
      {
        SlotsDiffer(i, p.emmcDone);
      }
    }
  }

  lemma SentKeepsInv(job: Job, s: State)
    requires job.Valid() && Inv(job, s)
    ensures Inv(job, s.(hw := Hardware(job, s.hw, UsbDone)))
  {
    hide Job.HostSector, Job.CardSector;
  }

  /** Queueing sector usbDone keeps the invariant, and frees the slot sent before it. */
  lemma {:induction false} QueueKeepsInv(job: Job, s: State, next: Pc)
    requires job.Valid() && Inv(job, s)
    requires s.pc.Send? || s.pc.DrainSend?
    requires s.pc.u || s.pipe.first
    requires s.pc.Send? ==> HasSafeSector(s.pipe)
    requires next == if s.pc.Send? then Poll else DrainSample
    ensures var (h, p) := QueueSector(s.hw, s.pipe); Inv(job, State(h, p, next))
  {
    hide Job.HostSector, Job.CardSector;
    NextSlotIs(s.pipe.usbDone);
  }

  /** Taking a completed block keeps the invariant: the block is decrypted under its own address. */
  lemma {:induction false} TakeKeepsInv(job: Job, s: State)
    requires job.Valid() && Inv(job, s)
    requires s.pc == Poll && s.hw.sd == BlockGap
    ensures var (h, p) := TakeBlock(job, s.hw, s.pipe); Inv(job, State(h, p, Sample))
  {
    hide Job.CardSector, Job.Treat;
    var (h, p) := (s.hw, s.pipe);
    NextSlotIs(p.emmcDone);
    forall i | SentCount(s) <= i < p.emmcDone
      ensures i % RING_SECTORS != p.emmcDone % RING_SECTORS
    {
      SlotsDiffer(i, p.emmcDone);
    }
  }

  lemma {:induction false} TakeLastKeepsInv(job: Job, s: State)
    requires job.Valid() && Inv(job, s)
    requires s.pc == Poll && s.hw.sd == TransferDone
    ensures var (h, p) := TakeLastBlock(job, s.hw, s.pipe); Inv(job, State(h, p, DrainSample))
  {
    hide Job.CardSector, Job.Treat;
    var (h, p) := (s.hw, s.pipe);
    forall i | SentCount(s) <= i < p.emmcDone
      ensures i % RING_SECTORS != p.emmcDone % RING_SECTORS
    {
      SlotsDiffer(i, p.emmcDone);
    }
  }

  lemma {:induction false} CpuKeepsInv(job: Job, s: State)
    requires job.Valid() && Inv(job, s)
    ensures Inv(job, CpuStep(job, s))
  {
    hide QueueSector, TakeBlock, TakeLastBlock, Job.HostSector, Job.CardSector;
    match s.pc
    case Send(u) =>
      if HasSafeSector(s.pipe) && (u || s.pipe.first) { QueueKeepsInv(job, s, Poll); }
    case DrainSend(u) =>
      if u || s.pipe.first { QueueKeepsInv(job, s, DrainSample); }
    case Poll =>
      if s.hw.sd == BlockGap { TakeKeepsInv(job, s); }
      else if s.hw.sd == TransferDone { TakeLastKeepsInv(job, s); }
    case _ =>
  }

  // ---------- every run ----------

  /** The pipeline after a run of events, in whatever order they came. */
  function Run(job: Job, ring: seq<Sector>, events: seq<Event>): State
    requires job.Valid() && |ring| == RING_SECTORS
  {
    if events == [] then Init(ring)
    else
      var s := Run(job, ring, events[..|events| - 1]);
      if Sized(s) then Do(job, s, events[|events| - 1]) else s
  }

  lemma {:induction false} RunInv(job: Job, ring: seq<Sector>, events: seq<Event>)
    requires job.Valid() && |ring| == RING_SECTORS
    ensures Inv(job, Run(job, ring, events))
  {
    hide Inv;
    if events == [] {
      InitInv(job, ring);
    } else {
      RunInv(job, ring, events[..|events| - 1]);
      var s := Run(job, ring, events[..|events| - 1]);
      SizedByInv(job, s);
      if events[|events| - 1] == Cpu {
        CpuKeepsInv(job, s);
      } else {
        HardwareKeepsInv(job, s, events[|events| - 1]);
      }
    }
  }

  lemma SizedByInv(job: Job, s: State)
    requires job.Valid() && Inv(job, s)
    ensures Sized(s)
  {
  }

  /**
   Safety of the ring: until the card has finished, USB stays behind the last completed sector; the slot
   the card is filling is neither the slot in flight to the host nor a completed slot that waits to be
   sent; every slot handed to USB holds its sector, decrypted under its own address, while it is in flight.
   */
  lemma RingSafety(job: Job, ring: seq<Sector>, events: seq<Event>)
    requires job.Valid() && |ring| == RING_SECTORS
    ensures var s := Run(job, ring, events);
            var (h, p) := (s.hw, s.pipe);
            && p.usbDone <= p.emmcDone <= job.n && p.emmcDone - p.usbDone <= 58 && |h.ring| == RING_SECTORS
            && (h.sd != Finished && p.usbDone > 0 ==> p.usbDone < p.emmcDone)
            && (h.sd == Running && h.usb.Sending? ==> h.dmaSlot != h.usb.slot)
            && (h.sd == Running ==> forall i :: p.usbDone <= i < p.emmcDone ==> h.dmaSlot != i % RING_SECTORS)
            && (h.usb.Sending? ==>
                  0 < p.usbDone && h.usb.slot < RING_SECTORS
                  && h.ring[h.usb.slot] == job.HostSector(p.usbDone - 1))
  {
    hide Run, Job.HostSector, Job.CardSector;
    RunInv(job, ring, events);
    var s := Run(job, ring, events);
    if s.hw.sd == Running {
      forall i: nat | SentCount(s) <= i < s.pipe.emmcDone
        ensures i % RING_SECTORS != s.hw.dmaSlot
      {
        SlotsDiffer(i, s.pipe.emmcDone);
      }
    }
  }

  /**
   Refinement: in every run the host has received the first sectors of the job, each once and in
   order; when the loop has stopped it has received all n.
   */
  lemma RingRefinement(job: Job, ring: seq<Sector>, events: seq<Event>)
    requires job.Valid() && |ring| == RING_SECTORS
    ensures var s := Run(job, ring, events);
            && |s.hw.sent| <= job.n
            && (forall i :: 0 <= i < |s.hw.sent| ==> s.hw.sent[i] == job.HostSector(i))
            && (s.pc == Stopped ==> |s.hw.sent| == job.n)
  {
    hide Run, Job.HostSector, Job.CardSector;
    RunInv(job, ring, events);
  }

  // ---------- progress ----------

  /** What is left to do: two events for every sector on either side, and the loop's end. */
  function Work(job: Job, s: State): int {
    2 * (job.n - s.pipe.emmcDone) - (if s.hw.sd in {BlockGap, TransferDone} then 1 else 0)
    + 2 * (job.n - s.pipe.usbDone) + (if s.hw.usb.Sending? then 1 else 0)
    + (if s.pc == Stopped then 0 else 1)
  }

  /** Hardware has something to do. */
  predicate Busy(h: Hw) {
    h.sd == Running || h.usb.Sending?
  }

  /** A step does one piece of the work or none; the completion of a busy engine is a piece of it. */
  lemma {:induction false} WorkStep(job: Job, s: State, e: Event)
    requires job.Valid() && Inv(job, s)
    ensures 0 <= Work(job, s)
    ensures Sized(s) && Work(job, s) - 1 <= Work(job, Do(job, s, e)) <= Work(job, s)
    ensures (e == SdBlock && s.hw.sd == Running) || (e == UsbDone && s.hw.usb.Sending?) ==>
              Work(job, Do(job, s, e)) == Work(job, s) - 1
    ensures Work(job, s) == 0 <==> s.pc == Stopped
  {
  }

  /** How many steps the loop alone takes, with idle hardware, before it finds a piece of the work. */
  function Wait(s: State): nat {
    var ready := s.pipe.first || (s.pc.Send? && s.pc.u) || (s.pc.DrainSend? && s.pc.u);
    match s.pc
    case Sample => if s.hw.sd == Gap then 1 else 2
    case Send(u) => if s.hw.sd != Gap then 1 else if ready then 0 else 3
    case Poll => if s.hw.sd == Gap then 2 else 0
    case DrainSample => 1
    case DrainSend(u) => if ready then 0 else 2
    case LastWait => 0
    case Stopped => 0
  }

  lemma WaitStep(job: Job, s: State)
    requires job.Valid() && Inv(job, s) && !Busy(s.hw) && s.pc != Stopped
    ensures var s' := CpuStep(job, s);
            Work(job, s') < Work(job, s)
            || (s' == s.(pc := s'.pc) && s'.pc != Stopped && Wait(s') < Wait(s))
  {
    hide Job.HostSector, Job.CardSector, Contents, Job.Treat;
  }

  /** The loop alone, for k steps. */
  function CpuSteps(job: Job, s: State, k: nat): State
    requires job.Valid() && Inv(job, s)
    decreases k
  {
    if k == 0 then s else
      CpuKeepsInv(job, s);
      CpuSteps(job, CpuStep(job, s), k - 1)
  }

  /** No state is stuck: with idle hardware the loop does a piece of the work within four steps. */
  lemma {:induction false} NeverStuck(job: Job, s: State)
    requires job.Valid() && Inv(job, s) && !Busy(s.hw) && s.pc != Stopped
    ensures exists k: nat :: k <= 4 && Work(job, CpuSteps(job, s, k)) < Work(job, s)
  {
    var k := StepsToWork(job, s);
  }

  lemma {:induction false} StepsToWork(job: Job, s: State) returns (k: nat)
    requires job.Valid() && Inv(job, s) && !Busy(s.hw) && s.pc != Stopped
    ensures k <= Wait(s) + 1 <= 4 && Work(job, CpuSteps(job, s, k)) < Work(job, s)
    decreases Wait(s)
  {
    hide Inv, CpuStep, Work, Wait;
    SizedByInv(job, s);
    WaitBound(s);
    WaitStep(job, s);
    CpuKeepsInv(job, s);
    var s' := CpuStep(job, s);
    if Work(job, s') < Work(job, s) {
      assert CpuSteps(job, s', 0) == s';
      k := 1;
    } else {
      SameWork(job, s, s');
      k := StepsToWork(job, s');
      k := k + 1;
    }
  }

  lemma WaitBound(s: State)
    ensures Wait(s) <= 3
  {
  }

  lemma SameWork(job: Job, s: State, s': State)
    requires s' == s.(pc := s'.pc) && s.pc != Stopped && s'.pc != Stopped
    ensures Work(job, s') == Work(job, s)
  {
  }

  lemma EventWork(job: Job, s: State, e: Event)
    requires job.Valid() && Inv(job, s)
    ensures var s' := s.(hw := Hardware(job, s.hw, e));
            && Work(job, s') <= Work(job, s) && 0 <= Work(job, s'.(pc := Sample))
            && (Work(job, s') == Work(job, s) ==> s'.hw.sd == s.hw.sd && s'.hw.usb == s.hw.usb)
            && ((e == SdBlock && s.hw.sd == Running) || (e == UsbDone && s.hw.usb.Sending?) ==>
                  Work(job, s') < Work(job, s))
  {
  }

  lemma QueueWork(job: Job, s: State)
    requires job.Valid() && Inv(job, s) && (s.pc.Send? || s.pc.DrainSend?) && (s.pc.u || s.pipe.first)
    ensures var (h, p) := QueueSector(s.hw, s.pipe); 0 <= Work(job, State(h, p, Sample)) < Work(job, s)
  {
  }

  lemma TakeWork(job: Job, s: State)
    requires job.Valid() && Inv(job, s) && s.pc == Poll && s.hw.sd == BlockGap
    ensures var (h, p) := TakeBlock(job, s.hw, s.pipe); 0 <= Work(job, State(h, p, Sample)) < Work(job, s)
  {
  }

  // ---------- moving on without doing work ----------

  /** The moves of the loop that only read a flag or find nothing to do. */
  predicate Moves(s: State, next: Pc) {
    match s.pc
    case Sample => next == Send(s.hw.usb == Flagged)
    case Send(u) => next == Poll
    case Poll => next == Sample && s.hw.sd in {Running, Gap}
    case DrainSample =>
      if s.pipe.usbDone < s.pipe.emmcDone then next == DrainSend(s.hw.usb == Flagged) else next == LastWait
    case DrainSend(u) => next == DrainSample
    case LastWait => false
    case Stopped => false
  }

  lemma MoveKeepsInv(job: Job, s: State, next: Pc)
    requires job.Valid() && Inv(job, s) && Moves(s, next)
    ensures Inv(job, s.(pc := next)) && Work(job, s.(pc := next)) == Work(job, s)
  {
    hide Job.HostSector, Job.CardSector;
  }

  /** With idle hardware, a card that waits for room leaves a sector that can be queued. */
  lemma IdleIsReady(job: Job, s: State)
    requires job.Valid() && Inv(job, s) && s.pc in {Sample, DrainSample, LastWait}
    ensures 0 <= Work(job, s.(pc := Sample))
    ensures !s.hw.usb.Sending? ==> s.hw.usb == Flagged || s.pipe.first
    ensures s.hw.sd == Gap ==> HasSafeSector(s.pipe)
    ensures s.pc == LastWait ==> !s.pipe.first
    ensures s.pc != Sample ==> s.hw.sd == Finished
  {
  }

  lemma AllSent(job: Job, s: State)
    requires job.Valid() && Inv(job, s) && s.pc == LastWait && s.hw.usb == Flagged
    ensures |s.hw.sent| == job.n && forall i :: 0 <= i < job.n ==> s.hw.sent[i] == job.HostSector(i)
  {
  }

  lemma NotFinishedAtPoll(job: Job, s: State)
    requires job.Valid() && Inv(job, s) && s.pc == Poll
    ensures s.hw.sd != Finished
  {
  }
}
