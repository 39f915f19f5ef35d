/** From the host to the card and back: both streaming paths, with their ciphers, put together. */
module RoundTrip {
  import opened Bytes
  import opened Lock
  import opened SnoopSpec
  import opened ScrubMeaning
  import opened XtsSpec
  import opened CardSpec
  import WritePath
  import ReadRingSpec
  import ReadPipe

  /** The capacity an unlocked drive reports. */
  function UnlockedCapacity(cardSectors: nat): nat
    requires LOCKED_SECTORS <= cardSectors
  {
    cardSectors - LOCKED_SECTORS
  }

  /** Within the reported capacity, addresses of an unlocked drive stay on the hidden part of the card. */
  lemma WithinCapacity(cardSectors: nat, lba: nat, n: nat)
    requires LOCKED_SECTORS <= cardSectors < TWO32 && lba + n <= UnlockedCapacity(cardSectors)
    ensures PhysicalLba(Unlocked, lba) == lba + LOCKED_SECTORS
    ensures PhysicalLba(Unlocked, lba) + n <= cardSectors
  {
  }

  /** Sector i of `data` after it has been spliced into a card at sector `lba`. */
  lemma SplicedSector(card: seq<byte>, lba: nat, data: seq<byte>, i: nat)
    requires SECTOR_SIZE * lba + |data| <= |card| && SECTOR_SIZE * (i + 1) <= |data|
    ensures SectorsAt(Splice(card, SECTOR_SIZE * lba, data), SECTOR_SIZE * (lba + i), 1)
         == SectorsAt(data, SECTOR_SIZE * i, 1)
  {
  }

  /** Reading an unlocked drive gives back, sector by sector, what was written to it. */
  lemma {:induction false} UnlockedReadBack(e: WritePath.Entry, stream: seq<byte>, total: nat,
                                             job: ReadRingSpec.Job, from: nat, i: nat)
    requires e.Valid() && e.state == Unlocked && e.aes.Inverse()
    requires |stream| == SECTOR_SIZE * total && total > 0
    requires SECTOR_SIZE * (e.Physical() + total) <= |e.card|
    requires job.Valid() && job.decrypt && job.aes == e.aes && job.lba == e.Physical() + from
    requires job.card == CommittedCard(e.card, e.Treatment(), e.Physical(), stream, total)
    requires i < job.n && from + i < total
    ensures job.HostSector(i) == SectorsAt(stream, SECTOR_SIZE * (from + i), 1)
  {
    hide Add32, XtsBytes, Splice, SectorsAt;
    var k := from + i;
    assert Head(stream, total) == stream by { WholeHead(stream, total); }
    var coded := XtsBytes(e.aes.enc, e.aes, e.Physical(), stream);
    SplicedSector(e.card, e.Physical(), coded, k);
    assert job.CardSector(i) == SectorsAt(coded, SECTOR_SIZE * k, 1);
    OneSector(coded, k);
    OneSector(stream, k);
    Add32Shift(e.Physical(), from, i);
    XtsRoundTrip(e.aes, e.Physical(), stream, k, k + 1);
  }

  /**
   Reading a locked drive gives back the scrubbed stream, also when the write went on with a value or a
   match that an adjacent write before it had left open.
   */
  lemma LockedReadBack(e: WritePath.Entry, stream: seq<byte>, total: nat, job: ReadRingSpec.Job, from: nat, i: nat)
    requires e.Valid() && e.state != Unlocked
    requires |stream| == SECTOR_SIZE * total && total > 0
    requires SECTOR_SIZE * (e.lba + total) <= |e.card|
    requires job.Valid() && !job.decrypt && job.lba == e.lba + from
    requires job.card == CommittedCard(e.card, e.Treatment(), e.lba, stream, total)
    requires i < job.n && from + i < total
    ensures var left := ScrubbedAfter(Before(e.Treatment().start.m), stream);
            job.HostSector(i) == SectorsAt(left, SECTOR_SIZE * (from + i), 1)
  {
    hide Run, Splice, SectorsAt, ScrubbedAfter, Before;
    var start := e.Treatment().start;
    assert Head(stream, total) == stream by { WholeHead(stream, total); }
    ScanFrom(start, stream);
    SplicedSector(e.card, e.lba, ScrubbedAfter(Before(start.m), stream), from + i);
  }

  lemma OneSector(d: seq<byte>, k: nat)
    requires SECTOR_SIZE * (k + 1) <= |d|
    ensures Sectors(d, k, k + 1) == SectorsAt(d, SECTOR_SIZE * k, 1)
  {
  }

  lemma Add32Shift(lba: nat, from: nat, i: nat)
    ensures Add32(lba + from, i) == Add32(lba, from + i)
  {
  }

  /**
   A WRITE(10) to an unlocked drive and a later READ(10) of any part of it, both within the reported
   capacity: once the write has succeeded the host reads what it wrote, and the rest of the card is
   as it was.
   */
  method WriteThenRead(w: WritePath.WritePath, pipe: ReadPipe.ReadPipe, total: nat, lba: nat, stream: seq<byte>,
                       accepts: seq<bool>, from: nat, n: nat, ghost e: WritePath.Entry)
    returns (ghost written: bool)
    requires w.Valid() && w.snooper.lockState == Unlocked && w.aes.Inverse()
    requires LOCKED_SECTORS <= |w.card| / SECTOR_SIZE && |stream| == SECTOR_SIZE * total
    requires lba + total <= UnlockedCapacity(|w.card| / SECTOR_SIZE)
    requires 0 < n <= 0xffff && from + n <= total && |accepts| == WritePath.Chunks(total)
    requires w.endp1Rbuff[..] == SectorsAt(stream, 0, 1)
    requires e == WritePath.Entry(w.snooper.lockState, w.aes, w.card, w.snooper.m, w.snooper.nextWriteLba, lba)
    requires |pipe.hw.ring| == ReadRingSpec.RING_SECTORS && pipe.hw.usb == ReadRingSpec.Idle
    modifies w`card, w`sense, w.snooper, w.snooper.pendingPw, w.udiskOutBuf, w.udiskInBuf, pipe
    ensures w.Valid()
    ensures written <==> forall k :: 0 <= k < |accepts| ==> accepts[k]
    ensures written ==> |pipe.hw.sent| == n
    ensures written ==> forall i :: 0 <= i < n ==>
                          pipe.hw.sent[i] == SectorsAt(stream, SECTOR_SIZE * (from + i), 1)
    ensures written ==> SameOutside(old(w.card), w.card, lba + LOCKED_SECTORS, total)
    ensures !written ==> w.sense == WritePath.WRITE_ERROR
  {
    hide SectorsAt, CommittedCard, Between, XtsBytes, ReadRingSpec.Job.HostSector;
    WithinCapacity(|w.card| / SECTOR_SIZE, lba, total);
    ghost var committed := w.WriteStream(total, lba, stream, accepts, e);
    written := committed == total;
    var job := ReadRingSpec.Job(n, PhysicalLba(w.snooper.lockState, lba + from), true, w.aes, w.card);
    WithinCapacity(|w.card| / SECTOR_SIZE, lba + from, n);
    pipe.ReadStream(job);
    if written {
      forall i | 0 <= i < n
        ensures job.HostSector(i) == SectorsAt(stream, SECTOR_SIZE * (from + i), 1)
      {
        UnlockedReadBack(e, stream, total, job, from, i);
      }
      CommittedOutside(e, stream, total);
    }
  }

  lemma CommittedOutside(e: WritePath.Entry, stream: seq<byte>, total: nat)
    requires |stream| == SECTOR_SIZE * total && total > 0
    requires SECTOR_SIZE * (e.Physical() + total) <= |e.card|
    ensures SameOutside(e.card, CommittedCard(e.card, e.Treatment(), e.Physical(), stream, total), e.Physical(), total)
  {
    hide XtsBytes, Run;
  }
}
