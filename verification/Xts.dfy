/** The in-place, whole-batch XTS of the firmware: xor all sectors, one engine run, xor again. */
module Xts {
  import opened Bytes
  import opened Memory
  import opened XtsSpec

  const MAX_BATCH_SECTORS: nat := 60

  lemma XorWordBytes(v: Word, w: Word)
    ensures WordByte(v ^ w, 0) == XorByte(WordByte(v, 0), WordByte(w, 0))
    ensures WordByte(v ^ w, 1) == XorByte(WordByte(v, 1), WordByte(w, 1))
    ensures WordByte(v ^ w, 2) == XorByte(WordByte(v, 2), WordByte(w, 2))
    ensures WordByte(v ^ w, 3) == XorByte(WordByte(v, 3), WordByte(w, 3))
  {
  }

  /** The word in memory at four bytes, exclusive-ored with w. */
  function XoredWord(b0: byte, b1: byte, b2: byte, b3: byte, w: Word): Word {
    LoadWord(b0, b1, b2, b3) ^ w
  }

  lemma XoredWordBytes(b0: byte, b1: byte, b2: byte, b3: byte, w: Word)
    ensures var v := XoredWord(b0, b1, b2, b3, w);
            && WordByte(v, 0) == XorByte(b0, WordByte(w, 0)) && WordByte(v, 1) == XorByte(b1, WordByte(w, 1))
            && WordByte(v, 2) == XorByte(b2, WordByte(w, 2)) && WordByte(v, 3) == XorByte(b3, WordByte(w, 3))
  {
    hide WordByte, XorByte, LoadWord;
    LoadedBytes(b0, b1, b2, b3);
    XorWordBytes(LoadWord(b0, b1, b2, b3), w);
  }

  /** Shifting a word left by one bit, with the top bit of the word below shifted in. */
  function Shifted(w: Word, below: Word): Word {
    (w << 1) | (below >> 31)
  }

  lemma ShiftedBytes(w: Word, below: Word)
    ensures WordByte(Shifted(w, below), 0) == XorByte(Double(WordByte(w, 0)), TopBit(WordByte(below, 3)))
    ensures WordByte(Shifted(w, below), 1) == XorByte(Double(WordByte(w, 1)), TopBit(WordByte(w, 0)))
    ensures WordByte(Shifted(w, below), 2) == XorByte(Double(WordByte(w, 2)), TopBit(WordByte(w, 1)))
    ensures WordByte(Shifted(w, below), 3) == XorByte(Double(WordByte(w, 3)), TopBit(WordByte(w, 2)))
  {
  }

  function LowShifted(w: Word, top: Word): Word {
    if top >> 31 != 0 then (w << 1) ^ 0x87 else w << 1
  }

  lemma LowShiftedBytes(w: Word, top: Word)
    ensures WordByte(LowShifted(w, top), 0)
         == XorByte(Double(WordByte(w, 0)), Reduction(WordByte(top, 3)))
    ensures WordByte(LowShifted(w, top), 1) == XorByte(Double(WordByte(w, 1)), TopBit(WordByte(w, 0)))
    ensures WordByte(LowShifted(w, top), 2) == XorByte(Double(WordByte(w, 2)), TopBit(WordByte(w, 1)))
    ensures WordByte(LowShifted(w, top), 3) == XorByte(Double(WordByte(w, 3)), TopBit(WordByte(w, 2)))
  {
  }

  function MulAlphaRegisters(w: Registers): Registers {
    [LowShifted(w[0], w[3]), Shifted(w[1], w[0]), Shifted(w[2], w[1]), Shifted(w[3], w[2])]
  }

  /** One word of the step: what MulAlpha makes of four bytes, given the byte below them. */
  function ShiftedFour(b: seq<byte>, low: byte): seq<byte>
    requires |b| == 4
  {
    [XorByte(Double(b[0]), low), XorByte(Double(b[1]), TopBit(b[0])),
     XorByte(Double(b[2]), TopBit(b[1])), XorByte(Double(b[3]), TopBit(b[2]))]
  }

  lemma ShiftedWord(w: Word, below: Word)
    ensures WordBytes(Shifted(w, below)) == ShiftedFour(WordBytes(w), TopBit(WordBytes(below)[3]))
  {
    hide WordByte, Double, TopBit, XorByte, Shifted;
    ShiftedBytes(w, below);
  }

  lemma LowShiftedWord(w: Word, top: Word)
    ensures WordBytes(LowShifted(w, top))
         == ShiftedFour(WordBytes(w), Reduction(WordBytes(top)[3]))
  {
    hide WordByte, Double, TopBit, Reduction, XorByte, LowShifted;
    LowShiftedBytes(w, top);
  }

  lemma {:induction false} MulAlphaFours(a: seq<byte>, b: seq<byte>, c: seq<byte>, d: seq<byte>)
    requires |a| == |b| == |c| == |d| == 4
    ensures MulAlpha(a + b + c + d)
         == ShiftedFour(a, Reduction(d[3])) + ShiftedFour(b, TopBit(a[3]))
            + ShiftedFour(c, TopBit(b[3])) + ShiftedFour(d, TopBit(c[3]))
  {
    hide Double, TopBit, Reduction, XorByte;
    var s := a + b + c + d;
    var r := ShiftedFour(a, Reduction(d[3])) + ShiftedFour(b, TopBit(a[3]))
             + ShiftedFour(c, TopBit(b[3])) + ShiftedFour(d, TopBit(c[3]));
    assert s[0] == a[0] && s[1] == a[1] && s[2] == a[2] && s[3] == a[3];
    assert s[4] == b[0] && s[5] == b[1] && s[6] == b[2] && s[7] == b[3];
    assert s[8] == c[0] && s[9] == c[1] && s[10] == c[2] && s[11] == c[3];
    assert s[12] == d[0] && s[13] == d[1] && s[14] == d[2] && s[15] == d[3];
    forall k | 0 <= k < 16
      ensures r[k] == MulAlphaAt(s, k)
    {
      assert k == 0 || k == 1 || k == 2 || k == 3 || k == 4 || k == 5 || k == 6 || k == 7
          || k == 8 || k == 9 || k == 10 || k == 11 || k == 12 || k == 13 || k == 14 || k == 15;
    }
  }

  /** The word-wise step is the byte-wise multiplication of the standard. */
  lemma {:induction false} MulAlphaWords(w: Registers)
    ensures RegisterBytes(MulAlphaRegisters(w)) == MulAlpha(RegisterBytes(w))
  {
    hide WordBytes, MulAlpha, ShiftedFour, TopBit, Reduction, Shifted, LowShifted;
    LowShiftedWord(w[0], w[3]);
    ShiftedWord(w[1], w[0]);
    ShiftedWord(w[2], w[1]);
    ShiftedWord(w[3], w[2]);
    MulAlphaFours(WordBytes(w[0]), WordBytes(w[1]), WordBytes(w[2]), WordBytes(w[3]));
  }

  /** The next power of alpha, on four 32-bit words. */
  method XtsMulAlpha(w: array<Word>)
    requires w.Length == 4
    modifies w
    ensures RegisterBytes(w[..]) == MulAlpha(RegisterBytes(old(w[..])))
  {
    hide RegisterBytes, MulAlpha, Shifted, LowShifted;
    MulAlphaWords(w[..]);
    var top := w[3];
    w[3] := Shifted(w[3], w[2]);
    w[2] := Shifted(w[2], w[1]);
    w[1] := Shifted(w[1], w[0]);
    w[0] := LowShifted(w[0], top);
    assert w[..] == MulAlphaRegisters(old(w[..]));
  }

  // ---------- buffers in place ----------

  /** The first j blocks of the n blocks at `off` have been passed over; nothing else has changed. */
  ghost predicate Passed(p: Pass, before: seq<byte>, now: seq<byte>, off: nat, n: nat, j: nat)
    requires off + 16 * n <= |before| && j <= n
  {
    now == before[..off] + Over(p, before[off..off + 16 * n], j) + before[off + 16 * j..]
  }

  lemma PassedNone(p: Pass, before: seq<byte>, off: nat, n: nat)
    requires off + 16 * n <= |before|
    ensures Passed(p, before, before, off, n, 0)
  {
  }

  lemma PassedParts(p: Pass, before: seq<byte>, now: seq<byte>, off: nat, n: nat, j: nat)
    requires off + 16 * n <= |before| && j <= n && Passed(p, before, now, off, n, j)
    ensures |now| == |before|
    ensures now[..off + 16 * j] == before[..off] + Over(p, before[off..off + 16 * n], j)
    ensures now[off + 16 * j..] == before[off + 16 * j..]
  {
  }

  lemma SameTail(a: seq<byte>, b: seq<byte>, at: nat, n: nat)
    requires |a| == |b| && at + n <= |a| && a[at..] == b[at..]
    ensures a[at..at + n] == b[at..at + n] && a[at + n..] == b[at + n..]
  {
    assert a[at..at + n] == a[at..][..n] && b[at..at + n] == b[at..][..n];
    assert a[at + n..] == a[at..][n..] && b[at + n..] == b[at..][n..];
  }

  lemma PassedStep(p: Pass, before: seq<byte>, now: seq<byte>, after: seq<byte>, off: nat, n: nat, j: nat)
    requires off + 16 * n <= |before| && j < n && Passed(p, before, now, off, n, j)
    requires |now| == |before|
    requires after == now[..off + 16 * j] + On(p, j, now[off + 16 * j..off + 16 * j + 16]) + now[off + 16 * j + 16..]
    ensures Passed(p, before, after, off, n, j + 1)
  {
    hide On;
    var d := before[off..off + 16 * n];
    assert Blk(d, j) == before[off + 16 * j..off + 16 * j + 16] by {
      SliceOfSlice(before, off, off + 16 * n, 16 * j, 16 * j + 16);
    }
    assert now[..off + 16 * j] == before[..off] + Over(p, d, j) && now[off + 16 * j..] == before[off + 16 * j..] by {
      PassedParts(p, before, now, off, n, j);
    }
    SameTail(now, before, off + 16 * j, 16);
    assert before[..off] + Over(p, d, j + 1) == now[..off + 16 * j] + On(p, j, Blk(d, j));
  }

  /** buf[o..o + 4] as a word, exclusive-ored with w. */
  method XorWord(buf: array<byte>, o: nat, w: Word)
    requires o + 4 <= buf.Length
    modifies buf
    ensures forall k :: o <= k < o + 4 ==> buf[k] == XorByte(old(buf[k]), WordBytes(w)[k - o])
    ensures forall k :: 0 <= k < buf.Length && !(o <= k < o + 4) ==> buf[k] == old(buf[k])
  {
    hide WordByte, XoredWord, XorByte;
    XoredWordBytes(buf[o], buf[o + 1], buf[o + 2], buf[o + 3], w);
    var x := XoredWord(buf[o], buf[o + 1], buf[o + 2], buf[o + 3], w);
    buf[o] := WordByte(x, 0);
    buf[o + 1] := WordByte(x, 1);
    buf[o + 2] := WordByte(x, 2);
    buf[o + 3] := WordByte(x, 3);
  }

  method XorBlock(buf: array<byte>, o: nat, tweak: array<Word>)
    requires o + 16 <= buf.Length && tweak.Length == 4
    modifies buf
    ensures buf[..] == old(buf[..o]) + Xor(old(buf[o..o + 16]), RegisterBytes(tweak[..])) + old(buf[o + 16..])
  {
    hide WordBytes, XorByte;
    XorWord(buf, o, tweak[0]);
    XorWord(buf, o + 4, tweak[1]);
    XorWord(buf, o + 8, tweak[2]);
    XorWord(buf, o + 12, tweak[3]);
    var t := RegisterBytes(tweak[..]);
    forall k | o <= k < o + 16
      ensures buf[k] == XorByte(old(buf[k]), t[k - o])
    {
    }
  }

  /** Exclusive-ors one sector with the powers of its tweak. */
  method XorSector(buf: array<byte>, so: nat, initial: Registers)
    requires so + SECTOR_SIZE <= buf.Length
    modifies buf
    ensures Passed(Pass.Sector(RegisterBytes(initial)), old(buf[..]), buf[..], so,
                   BLOCKS_PER_SECTOR, BLOCKS_PER_SECTOR)
  {
    hide RegisterBytes, MulAlpha, Passed, Over, Xor;
    ghost var p := Pass.Sector(RegisterBytes(initial));
    ghost var before := buf[..];
    var tweak := new Word[4](i requires 0 <= i < 4 => initial[i]);
    assert tweak[..] == initial;
    PassedNone(p, before, so, BLOCKS_PER_SECTOR);
    for block := 0 to BLOCKS_PER_SECTOR
      invariant Passed(p, before, buf[..], so, BLOCKS_PER_SECTOR, block)
      invariant RegisterBytes(tweak[..]) == AlphaPower(RegisterBytes(initial), block)
    {
      ghost var now := buf[..];
      XorBlock(buf, so + 16 * block, tweak);
      PassedStep(p, before, now, buf[..], so, BLOCKS_PER_SECTOR, block);
      XtsMulAlpha(tweak);
    }
  }

  /** The engine's run over n blocks in place. */
  method SelfDma(buf: array<byte>, off: nat, n: nat, f: Block16 -> Block16)
    requires off + 16 * n <= buf.Length
    modifies buf
    ensures Passed(Ecb(f), old(buf[..]), buf[..], off, n, n)
  {
    hide Passed, Over;
    ghost var before := buf[..];
    PassedNone(Ecb(f), before, off, n);
    for j := 0 to n
      invariant Passed(Ecb(f), before, buf[..], off, n, j)
    {
      ghost var now := buf[..];
      var b := f(buf[off + 16 * j..off + 16 * j + 16]);
      CopyBytes(buf, off + 16 * j, b);
      assert buf[..] == now[..off + 16 * j] + b + now[off + 16 * j + 16..];
      PassedStep(Ecb(f), before, now, buf[..], off, n, j);
    }
  }

  /** Reverses the 16 bytes of a tweak. */
  method XtsNormalizeTweak(t: Registers) returns (r: Registers)
    ensures RegisterBytes(r) == Reverse(RegisterBytes(t))
  {
    hide RegisterBytes, WordByte, LoadWord;
    var before := RegisterBytes(t);
    var bytes := new byte[16](k requires 0 <= k < 16 => before[k]);
    for i := 0 to 8
      invariant forall k :: 0 <= k < i || 16 - i <= k < 16 ==> bytes[k] == before[15 - k]
      invariant forall k :: i <= k < 16 - i ==> bytes[k] == before[k]
    {
      var tmp := bytes[i];
      bytes[i] := bytes[15 - i];
      bytes[15 - i] := tmp;
    }
    assert bytes[..] == Reverse(before);
    r := LoadRegisters(bytes[..]);
    LoadedRegisters(bytes[..]);
  }

  function LoadRegisters(b: Block16): Registers {
    [LoadWord(b[0], b[1], b[2], b[3]), LoadWord(b[4], b[5], b[6], b[7]),
     LoadWord(b[8], b[9], b[10], b[11]), LoadWord(b[12], b[13], b[14], b[15])]
  }

  lemma LoadedRegisters(b: Block16)
    ensures RegisterBytes(LoadRegisters(b)) == b
  {
    hide LoadWord, WordByte;
    LoadedBytes(b[0], b[1], b[2], b[3]);
    LoadedBytes(b[4], b[5], b[6], b[7]);
    LoadedBytes(b[8], b[9], b[10], b[11]);
    LoadedBytes(b[12], b[13], b[14], b[15]);
    var w := LoadRegisters(b);
    assert WordBytes(w[0]) == b[0..4] && WordBytes(w[1]) == b[4..8];
    assert WordBytes(w[2]) == b[8..12] && WordBytes(w[3]) == b[12..16];
  }

  /** The tweaks of `n` sectors from `lba` on. */
  method XtsMakeTweaks(tweaks: array<Registers>, aes: Aes, lba: nat, n: nat)
    requires n <= tweaks.Length
    modifies tweaks
    ensures forall i :: 0 <= i < n ==> RegisterBytes(tweaks[i]) == SectorTweak(aes, Add32(lba, i))
  {
    hide RegisterBytes, Reverse;
    for i := 0 to n
      invariant forall k :: 0 <= k < i ==> RegisterBytes(tweaks[k]) == SectorTweak(aes, Add32(lba, k))
    {
      tweaks[i] := XtsNormalizeTweak(aes.tweak([0, LbaWord(Add32(lba, i)), 0, 0]));
    }
  }

  /** Exclusive-ors every sector of a batch with the powers of its own tweak. */
  method XorSectors(buf: array<byte>, off: nat, batch: nat, tweaks: seq<Registers>, ghost aes: Aes, ghost lba: nat)
    requires off + SECTOR_SIZE * batch <= buf.Length && batch == |tweaks|
    requires forall i :: 0 <= i < batch ==> RegisterBytes(tweaks[i]) == SectorTweak(aes, Add32(lba, i))
    modifies buf
    ensures Passed(Whiten(aes, lba), old(buf[..]), buf[..], off, BLOCKS_PER_SECTOR * batch, BLOCKS_PER_SECTOR * batch)
  {
    hide RegisterBytes, Passed, Over, SectorTweak, Add32;
    ghost var before := buf[..];
    PassedNone(Whiten(aes, lba), before, off, BLOCKS_PER_SECTOR * batch);
    for i := 0 to batch
      invariant Passed(Whiten(aes, lba), before, buf[..], off, BLOCKS_PER_SECTOR * batch, BLOCKS_PER_SECTOR * i)
    {
      ghost var now := buf[..];
      XorSector(buf, off + SECTOR_SIZE * i, tweaks[i]);
      PassedSector(aes, lba, before, now, buf[..], off, batch, i);
    }
  }

  /** The whitening pass over i + 1 sectors is that over i sectors, then one over a single sector. */
  lemma {:induction false} OverSectors(aes: Aes, lba: nat, d: seq<byte>, i: nat)
    requires SECTOR_SIZE * (i + 1) <= |d|
    ensures Over(Whiten(aes, lba), d, BLOCKS_PER_SECTOR * (i + 1))
         == Over(Whiten(aes, lba), d, BLOCKS_PER_SECTOR * i)
            + Over(Pass.Sector(SectorTweak(aes, Add32(lba, i))), d[SECTOR_SIZE * i..SECTOR_SIZE * i + SECTOR_SIZE],
                   BLOCKS_PER_SECTOR)
  {
    hide Over, SectorTweak, Add32;
    var (p, q) := (Whiten(aes, lba), Pass.Sector(SectorTweak(aes, Add32(lba, i))));
    var (a, b) := (d[..SECTOR_SIZE * i], d[SECTOR_SIZE * i..]);
    var sector := d[SECTOR_SIZE * i..SECTOR_SIZE * i + SECTOR_SIZE];
    assert d == a + b;
    OverPrefix(p, a, b, BLOCKS_PER_SECTOR * i);
    forall k: nat, c: Block16 | k < BLOCKS_PER_SECTOR
      ensures On(p, BLOCKS_PER_SECTOR * i + k, c) == On(q, k, c)
    {
      assert (BLOCKS_PER_SECTOR * i + k) / BLOCKS_PER_SECTOR == i;
      assert (BLOCKS_PER_SECTOR * i + k) % BLOCKS_PER_SECTOR == k;
    }
    OverSplit(p, q, a, b, BLOCKS_PER_SECTOR * i, BLOCKS_PER_SECTOR);
    assert BLOCKS_PER_SECTOR * i + BLOCKS_PER_SECTOR == BLOCKS_PER_SECTOR * (i + 1);
    assert b == sector + b[SECTOR_SIZE..];
    OverPrefix(q, sector, b[SECTOR_SIZE..], BLOCKS_PER_SECTOR);
  }

  /** One sector more of the whitening pass. */
  lemma PassedSector(aes: Aes, lba: nat, before: seq<byte>, now: seq<byte>, after: seq<byte>,
                     off: nat, batch: nat, i: nat)
    requires i < batch && off + SECTOR_SIZE * batch <= |before| == |now|
    requires Passed(Whiten(aes, lba), before, now, off, BLOCKS_PER_SECTOR * batch, BLOCKS_PER_SECTOR * i)
    requires Passed(Pass.Sector(SectorTweak(aes, Add32(lba, i))), now, after, off + SECTOR_SIZE * i,
                    BLOCKS_PER_SECTOR, BLOCKS_PER_SECTOR)
    ensures Passed(Whiten(aes, lba), before, after, off, BLOCKS_PER_SECTOR * batch, BLOCKS_PER_SECTOR * (i + 1))
  {
    hide Over, SectorTweak, Add32;
    var d := before[off..off + SECTOR_SIZE * batch];
    var so := off + SECTOR_SIZE * i;
    PassedParts(Whiten(aes, lba), before, now, off, BLOCKS_PER_SECTOR * batch, BLOCKS_PER_SECTOR * i);
    SameTail(now, before, so, SECTOR_SIZE);
    SliceOfSlice(before, off, off + SECTOR_SIZE * batch, SECTOR_SIZE * i, SECTOR_SIZE * i + SECTOR_SIZE);
    OverSectors(aes, lba, d, i);
  }

  /** The three passes over one batch, from the state of the buffer before each. */
  lemma BatchPassed(f: Block16 -> Block16, aes: Aes, lba: nat, s0: seq<byte>, s1: seq<byte>, s2: seq<byte>,
                    s3: seq<byte>, off: nat, batch: nat)
    requires off + SECTOR_SIZE * batch <= |s0| == |s1| == |s2| == |s3|
    requires Passed(Whiten(aes, lba), s0, s1, off, BLOCKS_PER_SECTOR * batch, BLOCKS_PER_SECTOR * batch)
    requires Passed(Ecb(f), s1, s2, off, BLOCKS_PER_SECTOR * batch, BLOCKS_PER_SECTOR * batch)
    requires Passed(Whiten(aes, lba), s2, s3, off, BLOCKS_PER_SECTOR * batch, BLOCKS_PER_SECTOR * batch)
    ensures s3 == s0[..off] + XtsBytes(f, aes, lba, SectorsAt(s0, off, batch))
                  + s0[off + SECTOR_SIZE * batch..]
  {
    hide Over;
    var n := BLOCKS_PER_SECTOR * batch;
    var d := s0[off..off + 16 * n];
    assert s1[off..off + 16 * n] == Over(Whiten(aes, lba), d, n);
    assert s2[off..off + 16 * n] == Over(Ecb(f), s1[off..off + 16 * n], n);
    ThreePasses(f, aes, lba, d, n);
    assert |d| / SECTOR_SIZE == batch;
    assert s1[..off] == s0[..off] && s2[..off] == s1[..off];
    assert s1[off + 16 * n..] == s0[off + 16 * n..] && s2[off + 16 * n..] == s1[off + 16 * n..];
  }

  lemma XtsNothing(f: Block16 -> Block16, aes: Aes, lba: nat)
    ensures XtsBytes(f, aes, lba, []) == []
  {
  }

  lemma Add32Zero(lba: nat)
    requires lba < TWO32
    ensures Add32(lba, 0) == lba
  {
  }

  /** One batch more of the whole run. */
  lemma XtsExtend(f: Block16 -> Block16, aes: Aes, lba: nat, before: seq<byte>, now: seq<byte>, after: seq<byte>,
                  off: nat, done: nat, batch: nat)
    requires off + SECTOR_SIZE * (done + batch) <= |before| == |now|
    requires now == before[..off] + XtsBytes(f, aes, lba, SectorsAt(before, off, done))
                    + before[off + SECTOR_SIZE * done..]
    requires var o := off + SECTOR_SIZE * done;
             after == now[..o] + XtsBytes(f, aes, Add32(lba, done), SectorsAt(now, o, batch))
                      + now[o + SECTOR_SIZE * batch..]
    ensures after == before[..off] + XtsBytes(f, aes, lba, SectorsAt(before, off, done + batch))
                     + before[off + SECTOR_SIZE * (done + batch)..]
  {
    hide XtsBytes, Add32;
    var o := off + SECTOR_SIZE * done;
    var (a, b) := (before[off..o], before[o..o + SECTOR_SIZE * batch]);
    assert now[o..o + SECTOR_SIZE * batch] == b;
    assert before[off..off + SECTOR_SIZE * (done + batch)] == a + b;
    assert |a| / SECTOR_SIZE == done;
    XtsSplit(f, aes, lba, a, b);
    assert now[..o] == before[..off] + XtsBytes(f, aes, lba, a);
    assert now[o + SECTOR_SIZE * batch..] == before[o + SECTOR_SIZE * batch..];
  }

  /** One batch: tweaks, whitening, the engine, whitening. */
  method XtsBatch(buf: array<byte>, off: nat, aes: Aes, lba: nat, batch: nat, f: Block16 -> Block16)
    requires off + SECTOR_SIZE * batch <= buf.Length && batch <= MAX_BATCH_SECTORS
    modifies buf
    ensures buf[..] == old(buf[..off]) + XtsBytes(f, aes, lba, SectorsAt(old(buf[..]), off, batch))
                       + old(buf[off + SECTOR_SIZE * batch..])
  {
    hide Passed, XtsBytes, Add32, SectorTweak, RegisterBytes;
    var tweaks := new Registers[MAX_BATCH_SECTORS](_ => [0, 0, 0, 0]);
    XtsMakeTweaks(tweaks, aes, lba, batch);
    ghost var s0 := buf[..];
    XorSectors(buf, off, batch, tweaks[..batch], aes, lba);
    ghost var s1 := buf[..];
    SelfDma(buf, off, BLOCKS_PER_SECTOR * batch, f);
    ghost var s2 := buf[..];
    XorSectors(buf, off, batch, tweaks[..batch], aes, lba);
    BatchPassed(f, aes, lba, s0, s1, s2, buf[..], off, batch);
  }

  /** XTS over n sectors at buf[off], in batches of at most 60 sectors. */
  method XtsBuf(buf: array<byte>, off: nat, aes: Aes, lba: nat, n: nat, f: Block16 -> Block16)
    requires off + SECTOR_SIZE * n <= buf.Length && lba < TWO32
    modifies buf
    ensures buf[..] == old(buf[..off]) + XtsBytes(f, aes, lba, SectorsAt(old(buf[..]), off, n))
                       + old(buf[off + SECTOR_SIZE * n..])
  {
    hide XtsBytes, Add32, SectorsAt;
    ghost var before := buf[..];
    var done, at := 0, lba;
    assert XtsBytes(f, aes, lba, SectorsAt(before, off, 0)) == [] by { XtsNothing(f, aes, lba); }
    assert at == Add32(lba, 0) by { Add32Zero(lba); }
    while done < n
      invariant done <= n && at == Add32(lba, done)
      invariant buf[..] == before[..off] + XtsBytes(f, aes, lba, SectorsAt(before, off, done))
                           + before[off + SECTOR_SIZE * done..]
    {
      var batch := n - done;
      if batch > MAX_BATCH_SECTORS {
        batch := MAX_BATCH_SECTORS;
      }
      ghost var now := buf[..];
      XtsBatch(buf, off + SECTOR_SIZE * done, aes, at, batch, f);
      XtsExtend(f, aes, lba, before, now, buf[..], off, done, batch);
      Add32Assoc(lba, done, batch);
      done := done + batch;
      at := Add32(at, batch);
    }
  }
}
