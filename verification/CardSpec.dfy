/** The card as one byte string, and what a WRITE(10) stream leaves on it. */
module CardSpec {
  import opened Bytes
  import opened Lock
  import opened SnoopSpec
  import opened XtsSpec

  /** The drive's view of a host address: the hidden volume starts after the locked sectors. */
  function PhysicalLba(state: LockState, hostLba: nat): nat {
    if state == Unlocked then Add32(hostLba, LOCKED_SECTORS) else hostLba
  }

  /** card with `data` written at byte `at`. */
  function Splice(card: seq<byte>, at: nat, data: seq<byte>): (r: seq<byte>)
    requires at + |data| <= |card|
    ensures |r| == |card|
  {
    card[..at] + data + card[at + |data|..]
  }

  /** The two cards agree outside n sectors at `lba`. */
  ghost predicate SameOutside(card: seq<byte>, card': seq<byte>, lba: nat, n: nat)
    requires SECTOR_SIZE * (lba + n) <= |card|
  {
    && |card'| == |card|
    && card'[..SECTOR_SIZE * lba] == card[..SECTOR_SIZE * lba]
    && card'[SECTOR_SIZE * (lba + n)..] == card[SECTOR_SIZE * (lba + n)..]
  }

  /** What reaches the card of a host stream: scrubbed while locked, encrypted when unlocked. */
  datatype Treatment =
    | Scrub(start: Scan)
    | Encrypt(aes: Aes, lba: nat)

  function Treated(t: Treatment, d: seq<byte>): (r: seq<byte>)
    requires |d| % SECTOR_SIZE == 0
    requires t.Scrub? ==> t.start.bytes == []
    ensures |r| == |d|
  {
    match t
    case Scrub(start) => Run(start, d).bytes
    case Encrypt(aes, lba) => XtsBytes(aes.enc, aes, lba, d)
  }

  /** Treating a longer stream only appends to what was made of its start. */
  lemma {:induction false} TreatedPrefix(t: Treatment, a: seq<byte>, b: seq<byte>)
    requires |a| % SECTOR_SIZE == 0 && |b| % SECTOR_SIZE == 0
    requires t.Scrub? ==> t.start.bytes == []
    ensures |a + b| % SECTOR_SIZE == 0
    ensures Treated(t, a + b)[..|a|] == Treated(t, a)
  {
    hide Run, XtsBytes;
    match t
    case Scrub(start) =>
      RunSplit(start, a, b);
      RunBytes(Run(start, a), b);
    case Encrypt(aes, lba) =>
      XtsSplit(aes.enc, aes, lba, a, b);
  }

  lemma SpliceExtend(card: seq<byte>, at: nat, a: seq<byte>, b: seq<byte>)
    requires at + |a| + |b| <= |card|
    ensures Splice(Splice(card, at, a), at + |a|, b) == Splice(card, at, a + b)
  {
  }

  // ---------- the snooper across the chunks of one stream ----------

  /** A captured password goes with a pending drive. */
  predicate Announced(m: Matcher) {
    m.pending || m.len == 0
  }

  /** Every call of the snooper keeps it so. */
  lemma CallAnnounces(m: Matcher, next: nat, lba: nat, d: seq<byte>)
    requires Announced(m)
    ensures Announced(SnoopWrite(m, next, lba, d).m)
  {
    hide Run;
    NotPendingIsEmpty(Start(m, next, lba), d);
  }

  /** Two matchers that differ at most in the lock state. */
  predicate SameCapture(m: Matcher, m': Matcher) {
    m' == m.(pending := m'.pending)
  }

  /** The lock state on entry has no influence on bytes or captures. */
  lemma {:induction false} RunIgnoresPending(s: Scan, p: bool, d: seq<byte>)
    ensures var (r, r') := (Run(s, d), Run(s.(m := s.m.(pending := p)), d));
            r'.bytes == r.bytes && r'.at == r.at && SameCapture(r.m, r'.m)
  {
    hide Run;
    if p && !s.m.pending {
      RunPending(s, d);
    } else if !p && s.m.pending {
      var s' := s.(m := s.m.(pending := false));
      RunPending(s', d);
      assert s'.(m := s'.m.(pending := true)) == s;
    } else {
      assert s.(m := s.m.(pending := p)) == s;
    }
  }

  /** Snooping the next chunk of a stream of which `a` has been snooped. */
  lemma {:induction false} SnoopChunk(start: Scan, lba: nat, a: seq<byte>, b: seq<byte>, m: Matcher, next: nat)
    requires start.bytes == [] && start.at == PlaceAt(lba, 0)
    requires |a| % SECTOR_SIZE == 0 && |b| % SECTOR_SIZE == 0
    requires SameCapture(Run(start, a).m, m) && next == Add32(lba, |a| / SECTOR_SIZE)
    ensures var r := SnoopWrite(m, next, next, b);
            && Run(start, a + b).bytes == Run(start, a).bytes + r.bytes
            && SameCapture(Run(start, a + b).m, r.m)
            && r.nextLba == Add32(lba, |a + b| / SECTOR_SIZE)
  {
    hide Run, Add32, PlaceAt;
    var s1 := Run(start, a);
    RunPlace(start, lba, 0, a);
    WholeSectorPlace(lba, |a|);
    RunSplit(start, a, b);
    RunBytes(s1, b);
    var clean := s1.(bytes := []);
    RunIgnoresPending(clean, m.pending, b);
    assert Start(m, next, next) == clean.(m := clean.m.(pending := m.pending));
    AdjacentAddress(lba, |a|, |b|);
  }

  lemma WholeSectorPlace(lba: nat, n: nat)
    requires n % SECTOR_SIZE == 0
    ensures PlaceAt(lba, n) == Place(Add32(lba, n / SECTOR_SIZE), 0)
  {
  }

  // ---------- a stream, chunk by chunk ----------

  /** The first k sectors of a stream. */
  function Head(stream: seq<byte>, k: nat): (r: seq<byte>)
    requires SECTOR_SIZE * k <= |stream|
    ensures |r| == SECTOR_SIZE * k && |r| % SECTOR_SIZE == 0 && |r| / SECTOR_SIZE == k
  {
    SectorsAt(stream, 0, k)
  }

  lemma WholeHead(stream: seq<byte>, total: nat)
    requires |stream| == SECTOR_SIZE * total
    ensures Head(stream, total) == stream
  {
  }

  /** The card after the first k sectors of a stream have been stored at sector `lba`. */
  function CommittedCard(card: seq<byte>, t: Treatment, lba: nat, stream: seq<byte>, k: nat): (r: seq<byte>)
    requires SECTOR_SIZE * k <= |stream| && (k > 0 ==> SECTOR_SIZE * (lba + k) <= |card|)
    requires t.Scrub? ==> t.start.bytes == []
    ensures |r| == |card|
  {
    if k == 0 then card else Splice(card, SECTOR_SIZE * lba, Treated(t, Head(stream, k)))
  }

  /** What the next n sectors of the stream become on the card. */
  function TreatedChunk(t: Treatment, stream: seq<byte>, k: nat, n: nat): (r: seq<byte>)
    requires SECTOR_SIZE * (k + n) <= |stream|
    requires t.Scrub? ==> t.start.bytes == []
    ensures |r| == SECTOR_SIZE * n
  {
    Treated(t, Head(stream, k + n))[SECTOR_SIZE * k..]
  }

  lemma HeadExtend(stream: seq<byte>, k: nat, n: nat)
    requires SECTOR_SIZE * (k + n) <= |stream|
    ensures Head(stream, k + n) == Head(stream, k) + SectorsAt(stream, SECTOR_SIZE * k, n)
  {
  }

  lemma {:induction false} CommittedExtend(card: seq<byte>, t: Treatment, lba: nat, stream: seq<byte>, k: nat, n: nat)
    requires SECTOR_SIZE * (k + n) <= |stream| && n > 0 && SECTOR_SIZE * (lba + k + n) <= |card|
    requires t.Scrub? ==> t.start.bytes == []
    ensures Splice(CommittedCard(card, t, lba, stream, k), SECTOR_SIZE * (lba + k), TreatedChunk(t, stream, k, n))
         == CommittedCard(card, t, lba, stream, k + n)
  {
    hide Treated, Head, SectorsAt, Splice;
    HeadExtend(stream, k, n);
    var (a, b) := (Head(stream, k), SectorsAt(stream, SECTOR_SIZE * k, n));
    TreatedPrefix(t, a, b);
    var whole := Treated(t, a + b);
    assert whole == whole[..|a|] + whole[|a|..];
    if k == 0 {
      assert whole[0..] == whole;
    } else {
      SpliceExtend(card, SECTOR_SIZE * lba, Treated(t, a), whole[|a|..]);
    }
  }

  /** The part of the encrypted stream that a chunk becomes is that chunk encrypted at its own address. */
  lemma {:induction false} EncryptedChunk(aes: Aes, lba: nat, stream: seq<byte>, k: nat, n: nat)
    requires SECTOR_SIZE * (k + n) <= |stream|
    ensures TreatedChunk(Encrypt(aes, lba), stream, k, n)
         == XtsBytes(aes.enc, aes, Add32(lba, k), SectorsAt(stream, SECTOR_SIZE * k, n))
  {
    hide XtsBytes, SectorsAt, Add32;
    HeadExtend(stream, k, n);
    XtsSplit(aes.enc, aes, lba, Head(stream, k), SectorsAt(stream, SECTOR_SIZE * k, n));
  }

  /**
   The snooper's state between two chunks of a stream: before the first it is the state on entry,
   later it is what the machine has made of the sectors so far, except for the lock state. A captured
   password goes with a pending drive, if it did so on entry.
   */
  ghost predicate Between(m0: Matcher, next0: nat, lba: nat, stream: seq<byte>, k: nat, m: Matcher, next: nat)
    requires SECTOR_SIZE * k <= |stream|
  {
    if k == 0 then m == m0 && next == next0
    else
      && SameCapture(Run(Start(m0, next0, lba), Head(stream, k)).m, m) && next == Add32(lba, k)
      && (Announced(m0) ==> Announced(m))
  }

  /** Snooping one chunk more. */
  lemma {:induction false} ScrubbedChunk(m0: Matcher, next0: nat, lba: nat, stream: seq<byte>, k: nat, n: nat,
                                          m: Matcher, next: nat)
    requires lba < TWO32 && SECTOR_SIZE * (k + n) <= |stream| && n > 0
    requires Between(m0, next0, lba, stream, k, m, next)
    ensures var r := SnoopWrite(m, next, Add32(lba, k), SectorsAt(stream, SECTOR_SIZE * k, n));
            && r.bytes == TreatedChunk(Scrub(Start(m0, next0, lba)), stream, k, n)
            && Between(m0, next0, lba, stream, k + n, r.m, r.nextLba)
  {
    hide Run, Add32, SectorsAt, PlaceAt;
    HeadExtend(stream, k, n);
    var start := Start(m0, next0, lba);
    var (a, b) := (Head(stream, k), SectorsAt(stream, SECTOR_SIZE * k, n));
    StartPlace(lba);
    if Announced(m) {
      CallAnnounces(m, next, Add32(lba, k), b);
    }
    if k == 0 {
      assert a == [] && a + b == b;
    } else {
      SnoopChunk(start, lba, a, b, m, next);
    }
  }

  lemma StartPlace(lba: nat)
    requires lba < TWO32
    ensures PlaceAt(lba, 0) == Place(lba, 0) && Add32(lba, 0) == lba
  {
  }
}
