/** WRITE(10): USB packets into one of two buffers, scrubbed or encrypted in place, then to the card. */
module WritePath {
  import opened Bytes
  import opened Memory
  import opened Lock
  import opened SnoopSpec
  import opened Snooper
  import opened XtsSpec
  import Xts
  import BotSpec
  import opened CardSpec

  const BUF_SECTORS: nat := 60

  const NO_SENSE := BotSpec.Sense(BotSpec.NO_ERROR, BotSpec.NO_ERROR, BotSpec.PASSED)
  const WRITE_ERROR := BotSpec.Sense(BotSpec.MEDIUM_ERROR, BotSpec.WRITE_ERROR, BotSpec.FAILED)

  class WritePath {
    const snooper: Snooper
    const udiskOutBuf: array<byte>
    const udiskInBuf: array<byte>
    const endp1Rbuff: array<byte>
    var aes: Aes
    var card: seq<byte>
    var sense: BotSpec.Sense

    ghost predicate Valid()
      reads this`card, snooper, snooper.pendingPw
    {
      && snooper.Valid()
      && udiskOutBuf.Length == udiskInBuf.Length == SECTOR_SIZE * BUF_SECTORS
      && endp1Rbuff.Length == SECTOR_SIZE
      && udiskOutBuf != udiskInBuf && endp1Rbuff != udiskOutBuf && endp1Rbuff != udiskInBuf
      && snooper.pendingPw != udiskOutBuf && snooper.pendingPw != udiskInBuf && snooper.pendingPw != endp1Rbuff
      && |card| % SECTOR_SIZE == 0 && |card| / SECTOR_SIZE < TWO32
    }

    constructor (snooper: Snooper, aes: Aes, card: seq<byte>)
      requires snooper.Valid() && |card| % SECTOR_SIZE == 0 && |card| / SECTOR_SIZE < TWO32
      ensures Valid() && this.snooper == snooper && this.aes == aes && this.card == card
      ensures fresh(udiskOutBuf) && fresh(udiskInBuf) && fresh(endp1Rbuff)
    {
      this.snooper := snooper;
      udiskOutBuf := new byte[SECTOR_SIZE * BUF_SECTORS];
      udiskInBuf := new byte[SECTOR_SIZE * BUF_SECTORS];
      endp1Rbuff := new byte[SECTOR_SIZE];
      this.aes := aes;
      this.card := card;
      sense := NO_SENSE;
    }

    /** The card's own write: all n sectors if the card accepts them, anything within them otherwise. */
    method CardWrite(buf: array<byte>, lba: nat, n: nat, accepts: bool) returns (ok: bool)
      requires SECTOR_SIZE * n <= buf.Length && SECTOR_SIZE * (lba + n) <= |card|
      modifies this`card
      ensures ok == accepts
      ensures ok ==> card == Splice(old(card), SECTOR_SIZE * lba, buf[..SECTOR_SIZE * n])
      ensures SameOutside(old(card), card, lba, n)
    {
      ok := accepts;
      if ok {
        card := Splice(card, SECTOR_SIZE * lba, buf[..SECTOR_SIZE * n]);
      } else {
        assert |Zeros(SECTOR_SIZE * n)| == SECTOR_SIZE * n;
        var partial: seq<byte> :| |partial| == SECTOR_SIZE * n;
        card := Splice(card, SECTOR_SIZE * lba, partial);
      }
    }

    /**
     Writes one chunk, which succeeds exactly if it lies on the card and the card accepts it; a chunk that
     does not lie on the card is refused untouched, and one of no sectors is no work.
     */
    method WriteChunkToSd(buf: array<byte>, lba: nat, n: nat, accepts: bool) returns (ok: bool)
      requires SECTOR_SIZE * n <= buf.Length
      requires |card| % SECTOR_SIZE == 0
      modifies this`card
      ensures |card| == |old(card)|
      ensures ok <==> n == 0 || (accepts && SECTOR_SIZE * (lba + n) <= |old(card)|)
      ensures n == 0 ==> card == old(card)
      ensures ok && n > 0 ==> card == Splice(old(card), SECTOR_SIZE * lba, buf[..SECTOR_SIZE * n])
      ensures !ok && SECTOR_SIZE * (lba + n) <= |old(card)| ==> SameOutside(old(card), card, lba, n)
      ensures !ok && SECTOR_SIZE * (lba + n) > |old(card)| ==> card == old(card)
    {
      if n == 0 {
        return true;
      }
      var cardSectors := |card| / SECTOR_SIZE;
      if lba >= cardSectors || n > cardSectors - lba {
        return false;
      }
      ok := CardWrite(buf, lba, n, accepts);
    }

    /** The buffer that is not in use, so that a chunk can be received beside the one being written. */
    method AlternateWriteBuf(buf: array<byte>) returns (other: array<byte>)
      requires udiskOutBuf != udiskInBuf && (buf == udiskOutBuf || buf == udiskInBuf)
      ensures other != buf && (other == udiskOutBuf || other == udiskInBuf)
    {
      other := if buf == udiskOutBuf then udiskInBuf else udiskOutBuf;
    }

    /** Fills buf with sectors k..k + n of the stream; the very first packet is in its own buffer already. */
    method ReceiveChunk(buf: array<byte>, n: nat, firstPacket: bool, stream: seq<byte>, k: nat)
      returns (first: bool)
      requires SECTOR_SIZE * n <= buf.Length && n > 0 && buf != endp1Rbuff
      requires SECTOR_SIZE * (k + n) <= |stream| && endp1Rbuff.Length == SECTOR_SIZE
      requires firstPacket ==> endp1Rbuff[..] == SectorsAt(stream, SECTOR_SIZE * k, 1)
      modifies buf
      ensures buf[..SECTOR_SIZE * n] == SectorsAt(stream, SECTOR_SIZE * k, n)
      ensures !first
    {
      var received := 0;
      first := firstPacket;
      if first {
        CopyBytes(buf, 0, endp1Rbuff[..]);
        received := 1;
        first := false;
      }
      while received < n
        invariant received <= n && !first
        invariant buf[..SECTOR_SIZE * received] == SectorsAt(stream, SECTOR_SIZE * k, received)
      {
        ghost var before := buf[..SECTOR_SIZE * received];
        var packet := SectorsAt(stream, SECTOR_SIZE * (k + received), 1);
        CopyBytes(buf, SECTOR_SIZE * received, packet);
        assert buf[..SECTOR_SIZE * (received + 1)] == before + packet;
        received := received + 1;
      }
    }

    method ReadClock() returns (now: nat) {
      now := *;
    }

    /** Treats one received chunk in place, as the lock state asks for, and writes it. */
    method WriteReceivedChunk(buf: array<byte>, lba: nat, n: nat, accepts: bool)
      returns (ok: bool, ghost stored: seq<byte>)
      requires Valid() && (buf == udiskOutBuf || buf == udiskInBuf)
      requires 0 < n <= BUF_SECTORS && lba < TWO32
      modifies this`card, snooper, snooper.pendingPw, buf
      ensures Valid() && (snooper.lockState == Unlocked) == old(snooper.lockState == Unlocked)
      ensures |stored| == SECTOR_SIZE * n && |card| == |old(card)|
      ensures old(snooper.lockState) == Unlocked ==>
                && stored == XtsBytes(aes.enc, aes, PhysicalLba(Unlocked, lba), SectorsAt(old(buf[..]), 0, n))
                && snooper.m == old(snooper.m) && snooper.nextWriteLba == old(snooper.nextWriteLba)
      ensures old(snooper.lockState) != Unlocked ==>
                Snooped(snooper.m, snooper.nextWriteLba, stored)
                == SnoopSpec.SnoopWrite(old(snooper.m), old(snooper.nextWriteLba), lba, SectorsAt(old(buf[..]), 0, n))
      ensures var physical := PhysicalLba(old(snooper.lockState), lba);
              && (ok <==> accepts && SECTOR_SIZE * (physical + n) <= |old(card)|)
              && (ok ==> card == Splice(old(card), SECTOR_SIZE * physical, stored))
              && (!ok && SECTOR_SIZE * (physical + n) <= |old(card)| ==> SameOutside(old(card), card, physical, n))
              && (!ok && SECTOR_SIZE * (physical + n) > |old(card)| ==> card == old(card))
    {
      hide XtsBytes, Run, SnoopSpec.SnoopWrite, Splice, Add32;
      var physical := PhysicalLba(snooper.lockState, lba);
      ghost var data := SectorsAt(buf[..], 0, n);
      assert data == buf[..SECTOR_SIZE * n];
      if snooper.lockState != Unlocked {
        var now := ReadClock();
        snooper.SnoopWrite(buf, SECTOR_SIZE * n, lba, now);
      }
      if snooper.lockState == Unlocked {
        Xts.XtsBuf(buf, 0, aes, physical, n, aes.enc);
      }
      stored := buf[..SECTOR_SIZE * n];
      ok := WriteChunkToSd(buf, physical, n, accepts);
    }

    /**
     The state between two chunks: the first `done` sectors of the stream are on the card as the
     treatment chosen on entry makes them, and the snooper stands at their end.
     */
    ghost predicate Stored(e: Entry, stream: seq<byte>, done: nat)
      reads this`card, this`aes, snooper, snooper.pendingPw
    {
      && Valid() && e.Valid() && SECTOR_SIZE * done <= |stream|
      && (snooper.lockState == Unlocked <==> e.state == Unlocked) && aes == e.aes
      && (done > 0 ==> SECTOR_SIZE * (e.Physical() + done) <= |e.card|)
      && card == CommittedCard(e.card, e.Treatment(), e.Physical(), stream, done)
      && (e.state != Unlocked ==>
            Between(e.m, e.nextLba, e.lba, stream, done, snooper.m, snooper.nextWriteLba))
    }

    /** Stores one received chunk. */
    method StoreChunk(buf: array<byte>, at: nat, n: nat, accepts: bool,
                      ghost e: Entry, ghost stream: seq<byte>, ghost done: nat)
      returns (ok: bool)
      requires Stored(e, stream, done) && (buf == udiskOutBuf || buf == udiskInBuf)
      requires 0 < n <= BUF_SECTORS && SECTOR_SIZE * (done + n) <= |stream| && at == Add32(e.lba, done)
      requires SectorsAt(buf[..], 0, n) == SectorsAt(stream, SECTOR_SIZE * done, n)
      modifies this`card, snooper, snooper.pendingPw, buf
      ensures ok <==> accepts && SECTOR_SIZE * (e.Physical() + done + n) <= |e.card|
      ensures ok ==> Stored(e, stream, done + n)
      ensures !ok ==> Valid() && (snooper.lockState == Unlocked <==> e.state == Unlocked)
      ensures !ok ==> FailedChunk(old(card), card, e.Physical() + done, n)
    {
      hide SectorsAt, CommittedCard, TreatedChunk, Between, Splice, SameOutside, Add32, SnoopSpec.SnoopWrite, XtsBytes;
      assert e.Physical() + done < TWO32 by { CardBound(|e.card|, e.Physical(), done); }
      PhysicalAdvance(e.state, e.lba, done);
      if e.state != Unlocked {
        ScrubbedChunk(e.m, e.nextLba, e.lba, stream, done, n, snooper.m, snooper.nextWriteLba);
      } else {
        EncryptedChunk(aes, e.Physical(), stream, done, n);
      }
      ghost var stored;
      ok, stored := WriteReceivedChunk(buf, at, n, accepts);
      assert stored == TreatedChunk(e.Treatment(), stream, done, n);
      if ok {
        CommittedExtend(e.card, e.Treatment(), e.Physical(), stream, done, n);
      }
    }

    lemma BufferFacts()
      requires Valid()
      ensures udiskOutBuf.Length == udiskInBuf.Length == SECTOR_SIZE * BUF_SECTORS
      ensures endp1Rbuff.Length == SECTOR_SIZE && endp1Rbuff != udiskOutBuf && endp1Rbuff != udiskInBuf
      ensures udiskOutBuf != udiskInBuf && snooper.pendingPw != udiskOutBuf && snooper.pendingPw != udiskInBuf
    {
    }

    lemma NothingStored(e: Entry, stream: seq<byte>)
      requires Valid() && e == Entry(snooper.lockState, aes, card, snooper.m, snooper.nextWriteLba, e.lba)
      requires e.lba < TWO32
      ensures Stored(e, stream, 0) && Add32(e.lba, 0) == e.lba
    {
      hide CommittedCard, Between;
      NothingYet(card, e.Treatment(), e.Physical(), stream, snooper.m, snooper.nextWriteLba, e.lba);
    }

    lemma StoredFacts(e: Entry, stream: seq<byte>, done: nat)
      requires Stored(e, stream, done)
      ensures Valid() && (snooper.lockState == Unlocked <==> e.state == Unlocked)
      ensures card == CommittedCard(e.card, e.Treatment(), e.Physical(), stream, done)
      ensures done > 0 ==> SECTOR_SIZE * (e.Physical() + done) <= |e.card|
    {
      hide CommittedCard, Between, Valid;
    }

    /**
     One WRITE(10): `total` sectors of host data for `lba`, cut into chunks of at most 60 sectors over
     two alternating buffers. On success the card holds the treated stream and nothing else has
     changed; it succeeds exactly if every chunk lies on the card and is accepted. Otherwise exactly the
     chunks before the first one that fails are known to be stored, only the failing chunk's sectors are
     unknown, and the status is FAILED.
     */
    method WriteStream(total: nat, lba: nat, stream: seq<byte>, accepts: seq<bool>, ghost e: Entry)
      returns (ghost committed: nat)
      requires Valid() && lba < TWO32 && |stream| == SECTOR_SIZE * total
      requires total > 0 ==> endp1Rbuff[..] == SectorsAt(stream, 0, 1)
      requires |accepts| == Chunks(total)
      requires e == Entry(snooper.lockState, aes, card, snooper.m, snooper.nextWriteLba, lba)
      modifies this`card, this`sense, snooper, snooper.pendingPw, udiskOutBuf, udiskInBuf
      ensures Valid() && (snooper.lockState == Unlocked <==> e.state == Unlocked)
      ensures committed <= total && (committed > 0 ==> SECTOR_SIZE * (e.Physical() + committed) <= |e.card|)
      ensures committed == total <==> e.Takes(total, accepts)
      ensures committed == total ==> Stored(e, stream, total) && sense == old(sense)
      ensures committed < total ==>
                && sense == WRITE_ERROR && committed % BUF_SECTORS == 0
                && (forall k :: 0 <= k < committed / BUF_SECTORS ==> accepts[k])
                && !(accepts[committed / BUF_SECTORS] && e.OnCard(committed + Min(BUF_SECTORS, total - committed)))
                && FailedChunk(CommittedCard(e.card, e.Treatment(), e.Physical(), stream, committed), card,
                               e.Physical() + committed, Min(BUF_SECTORS, total - committed))
    {
      hide SectorsAt, CommittedCard, FailedChunk, Between, Add32, Stored, Valid, Chunks, Entry.OnCard, Entry.Takes;
      var sectorsLeft, at := total, lba;
      var buf := udiskOutBuf;
      var firstPacket := true;
      var i := 0;
      committed := 0;
      BufferFacts();
      NoChunks(e, accepts);
      NothingStored(e, stream);
      StoredFacts(e, stream, 0);

      if sectorsLeft > 0 {
        var n := if sectorsLeft > BUF_SECTORS then BUF_SECTORS else sectorsLeft;
        firstPacket := ReceiveChunk(buf, n, firstPacket, stream, 0);

        while sectorsLeft > 0
          invariant Stored(e, stream, committed) && sense == old(sense)
          invariant Valid() && (snooper.lockState == Unlocked <==> e.state == Unlocked)
          invariant committed > 0 ==> SECTOR_SIZE * (e.Physical() + committed) <= |e.card|
          invariant 0 < sectorsLeft <= total && committed == total - sectorsLeft && at == Add32(lba, committed)
          invariant buf == udiskOutBuf || buf == udiskInBuf
          invariant n == Min(BUF_SECTORS, sectorsLeft) && committed % BUF_SECTORS == 0
          invariant buf[..SECTOR_SIZE * n] == SectorsAt(stream, SECTOR_SIZE * committed, n)
          invariant !firstPacket
          invariant committed == BUF_SECTORS * i
          invariant 0 <= i <= |accepts| && forall k :: 0 <= k < i ==> accepts[k]
        {
          ChunkIndex(total, i);
          PrefixSectors(buf[..], n);
          StoredFacts(e, stream, committed);
          var ok := StoreChunk(buf, at, n, accepts[i], e, stream, committed);
          if !ok {
            sense := WRITE_ERROR;
            RefusedChunk(e, total, accepts, i, committed + n);
            break;
          }
          Add32Assoc(lba, committed, n);
          WholeBuffer(committed, n);
          at := Add32(at, n);
          sectorsLeft := sectorsLeft - n;
          committed := committed + n;
          i := i + 1;
          StoredFacts(e, stream, committed);
          if sectorsLeft == 0 {
            TakenChunks(e, total, accepts);
            break;
          }

          buf := AlternateWriteBuf(buf);
          n := if sectorsLeft > BUF_SECTORS then BUF_SECTORS else sectorsLeft;
          firstPacket := ReceiveChunk(buf, n, firstPacket, stream, total - sectorsLeft);
        }
      }
    }
  }

  /** What a WRITE(10) finds on entry. */
  datatype Entry = Entry(state: LockState, aes: Aes, card: seq<byte>, m: Matcher, nextLba: nat, lba: nat)
  {
    ghost predicate Valid() {
      lba < TWO32 && |card| % SECTOR_SIZE == 0 && |card| / SECTOR_SIZE < TWO32
    }

    function Physical(): nat {
      PhysicalLba(state, lba)
    }

    /** The first k sectors of the stream go to sectors that the card has. */
    predicate OnCard(k: nat) {
      SECTOR_SIZE * (Physical() + k) <= |card|
    }

    /** The card has room for the whole stream and accepts every chunk. */
    predicate Takes(total: nat, accepts: seq<bool>) {
      (total > 0 ==> OnCard(total)) && forall k :: 0 <= k < |accepts| ==> accepts[k]
    }

    /** The treatment is chosen once: a write cannot unlock the drive. */
    function Treatment(): (t: Treatment)
      ensures t.Scrub? ==> t.start.bytes == []
    {
      if state == Unlocked then Encrypt(aes, Physical()) else Scrub(Start(m, nextLba, lba))
    }
  }

  /** How many chunks a stream is cut into. */
  function Chunks(total: nat): nat {
    (total + BUF_SECTORS - 1) / BUF_SECTORS
  }

  lemma NoChunks(e: Entry, accepts: seq<bool>)
    ensures Chunks(0) == 0 && (|accepts| == 0 ==> e.Takes(0, accepts))
  {
  }

  /** One chunk that is refused or lies beyond the card is enough. */
  lemma RefusedChunk(e: Entry, total: nat, accepts: seq<bool>, i: nat, k: nat)
    requires i < |accepts| && 0 < k <= total && !(accepts[i] && SECTOR_SIZE * (e.Physical() + k) <= |e.card|)
    ensures !e.Takes(total, accepts) && !(accepts[i] && e.OnCard(k))
  {
  }

  lemma TakenChunks(e: Entry, total: nat, accepts: seq<bool>)
    requires SECTOR_SIZE * (e.Physical() + total) <= |e.card| && forall k :: 0 <= k < |accepts| ==> accepts[k]
    ensures e.Takes(total, accepts)
  {
  }

  lemma ChunkIndex(total: nat, i: nat)
    requires BUF_SECTORS * i < total
    ensures i < Chunks(total) && BUF_SECTORS * i / BUF_SECTORS == i
    ensures total <= BUF_SECTORS * (i + 1) ==> Chunks(total) == i + 1
  {
  }

  lemma NothingYet(card: seq<byte>, t: Treatment, physical: nat, stream: seq<byte>, m: Matcher, next: nat, lba: nat)
    requires lba < TWO32 && (t.Scrub? ==> t.start.bytes == [])
    ensures CommittedCard(card, t, physical, stream, 0) == card
    ensures Between(m, next, lba, stream, 0, m, next)
    ensures Add32(lba, 0) == lba
  {
  }

  lemma PrefixSectors(b: seq<byte>, n: nat)
    requires SECTOR_SIZE * n <= |b|
    ensures SectorsAt(b, 0, n) == b[..SECTOR_SIZE * n]
  {
  }

  lemma CardBound(bytes: nat, lba: nat, k: nat)
    requires bytes % SECTOR_SIZE == 0 && bytes / SECTOR_SIZE < TWO32
    requires lba < TWO32 && (k > 0 ==> SECTOR_SIZE * (lba + k) <= bytes)
    ensures lba + k < TWO32
  {
  }

  lemma WholeBuffer(committed: nat, n: nat)
    requires committed % BUF_SECTORS == 0
    ensures n == BUF_SECTORS ==> (committed + n) % BUF_SECTORS == 0
  {
  }

  /** As long as the physical address does not wrap, it advances with the host address. */
  lemma PhysicalAdvance(state: LockState, lba: nat, k: nat)
    requires lba < TWO32 && PhysicalLba(state, lba) + k < TWO32
    ensures PhysicalLba(state, Add32(lba, k)) == PhysicalLba(state, lba) + k
    ensures Add32(PhysicalLba(state, lba), k) == PhysicalLba(state, lba) + k
  {
    Add32Assoc(lba, k, LOCKED_SECTORS);
    Add32Assoc(lba, LOCKED_SECTORS, k);
  }

  /** A chunk that was not acknowledged: refused untouched, or unknown in its own sectors only. */
  ghost predicate FailedChunk(done: seq<byte>, card: seq<byte>, lba: nat, n: nat) {
    if SECTOR_SIZE * (lba + n) <= |done| then SameOutside(done, card, lba, n) else card == done
  }
}
