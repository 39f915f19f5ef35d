/** AES-XTS on 512-byte sectors, one 16-byte block at a time (IEEE Std 1619-2007, 5.2 to 5.4). */
module XtsSpec {
  import opened Bytes

  type Word = bv32
  type Block16 = b: seq<byte> | |b| == 16 witness seq(16, _ => 0)
  /** A block as the four 32-bit registers of the AES engine see it. */
  type Registers = w: seq<Word> | |w| == 4 witness [0, 0, 0, 0]

  const BLOCKS_PER_SECTOR: nat := 32

  /**
   The AES engine under the two keys of an unlocked drive: block encryption and decryption under the
   data key, and the encryption of one register block under the tweak key.
   */
  datatype Aes = Aes(enc: Block16 -> Block16, dec: Block16 -> Block16, tweak: Registers -> Registers)
  {
    ghost predicate Inverse() {
      forall b :: dec(enc(b)) == b
    }
  }

  /** Multiplication by alpha in GF(2^128), byte by byte (5.2). */
  function MulAlpha(a: Block16): Block16 {
    seq(16, k requires 0 <= k < 16 => MulAlphaAt(a, k))
  }

  function MulAlphaAt(a: Block16, k: nat): byte
    requires k < 16
  {
    if k == 0 then XorByte(Double(a[0]), Reduction(a[15])) else XorByte(Double(a[k]), TopBit(a[k - 1]))
  }

  function Double(c: byte): byte { c + c }
  function Reduction(c: byte): byte { if c < 0x80 then 0 else 0x87 }
  function TopBit(c: byte): byte { if c < 0x80 then 0 else 1 }

  function AlphaPower(t: Block16, j: nat): Block16 {
    if j == 0 then t else MulAlpha(AlphaPower(t, j - 1))
  }

  /** Byte i of a word in memory. */
  function WordByte(w: Word, i: nat): byte
    requires i < 4
  {
    if i == 0 then (w & 0xff) as byte
    else if i == 1 then ((w >> 8) & 0xff) as byte
    else if i == 2 then ((w >> 16) & 0xff) as byte
    else ((w >> 24) & 0xff) as byte
  }

  function WordBytes(w: Word): (b: seq<byte>)
    ensures |b| == 4
  {
    [WordByte(w, 0), WordByte(w, 1), WordByte(w, 2), WordByte(w, 3)]
  }

  function LoadWord(b0: byte, b1: byte, b2: byte, b3: byte): Word {
    (b0 as Word) | ((b1 as Word) << 8) | ((b2 as Word) << 16) | ((b3 as Word) << 24)
  }

  lemma LoadedBytes(b0: byte, b1: byte, b2: byte, b3: byte)
    ensures WordByte(LoadWord(b0, b1, b2, b3), 0) == b0
    ensures WordByte(LoadWord(b0, b1, b2, b3), 1) == b1
    ensures WordByte(LoadWord(b0, b1, b2, b3), 2) == b2
    ensures WordByte(LoadWord(b0, b1, b2, b3), 3) == b3
  {
  }

  /** A sector address as a register holds it: its 32 low-order bits. */
  function LbaWord(lba: nat): Word {
    LoadWord(ByteOf(lba), ByteOf(lba / 0x100), ByteOf(lba / 0x1_0000), ByteOf(lba / 0x100_0000))
  }

  function RegisterBytes(w: Registers): Block16 {
    WordBytes(w[0]) + WordBytes(w[1]) + WordBytes(w[2]) + WordBytes(w[3])
  }

  function Reverse(b: Block16): Block16 {
    seq(16, k requires 0 <= k < 16 => b[15 - k])
  }

  /** The tweak of a sector: its LBA encrypted by the engine, in the byte order of the disk format. */
  function SectorTweak(aes: Aes, lba: nat): Block16 {
    Reverse(RegisterBytes(aes.tweak([0, LbaWord(lba), 0, 0])))
  }

  /** The tweak of block j counted from the start of sector lba. */
  function BlockTweak(aes: Aes, lba: nat, j: nat): Block16 {
    AlphaPower(SectorTweak(aes, Add32(lba, j / BLOCKS_PER_SECTOR)), j % BLOCKS_PER_SECTOR)
  }

  /** What one pass over a buffer does to each of its blocks. */
  datatype Pass =
    | Sector(t: Block16)                        // xor with the powers of one tweak
    | Whiten(aes: Aes, lba: nat)                // xor with the tweak of every block
    | Ecb(f: Block16 -> Block16)                // the engine's block operation
    | Xts(f: Block16 -> Block16, aes: Aes, lba: nat)  // the whole of XTS

  function On(p: Pass, j: nat, b: Block16): Block16 {
    match p
    case Sector(t) => Xor(b, AlphaPower(t, j))
    case Whiten(aes, lba) => Xor(b, BlockTweak(aes, lba, j))
    case Ecb(f) => f(b)
    case Xts(f, aes, lba) => Xor(f(Xor(b, BlockTweak(aes, lba, j))), BlockTweak(aes, lba, j))
  }

  function Blk(d: seq<byte>, k: nat): Block16
    requires 16 * k + 16 <= |d|
  {
    d[16 * k..16 * k + 16]
  }

  /** A pass over the first n blocks of d. */
  function Over(p: Pass, d: seq<byte>, n: nat): (r: seq<byte>)
    requires 16 * n <= |d|
    ensures |r| == 16 * n
  {
    if n == 0 then [] else Over(p, d, n - 1) + On(p, n - 1, Blk(d, n - 1))
  }

  /** XTS over a byte string of whole sectors that starts at sector lba. */
  function XtsBytes(f: Block16 -> Block16, aes: Aes, lba: nat, d: seq<byte>): (r: seq<byte>)
    requires |d| % SECTOR_SIZE == 0
    ensures |r| == |d|
  {
    Over(Xts(f, aes, lba), d, BLOCKS_PER_SECTOR * (|d| / SECTOR_SIZE))
  }

  // ---------- passes over parts of a buffer ----------

  lemma BlkOfAppend(a: seq<byte>, b: seq<byte>, k: nat)
    requires |a| % 16 == 0 && 16 * k + 16 <= |a| + |b|
    ensures Blk(a + b, k) == if k < |a| / 16 then Blk(a, k) else Blk(b, k - |a| / 16)
  {
    assert 16 * (|a| / 16) == |a|;
  }

  /** Block k of the result is the pass on block k. */
  lemma {:induction false} OverBlock(p: Pass, d: seq<byte>, n: nat, k: nat)
    requires 16 * n <= |d| && k < n
    ensures Blk(Over(p, d, n), k) == On(p, k, Blk(d, k))
  {
    hide On, Blk;
    BlkOfAppend(Over(p, d, n - 1), On(p, n - 1, Blk(d, n - 1)), k);
    if k < n - 1 {
      OverBlock(p, d, n - 1, k);
    } else {
      BlkOfOne(On(p, k, Blk(d, k)));
    }
  }

  lemma BlkOfOne(b: Block16)
    ensures Blk(b, 0) == b
  {
  }

  /** Passes that agree block by block agree on the whole. */
  lemma {:induction false} OverSame(p: Pass, q: Pass, d: seq<byte>, e: seq<byte>, n: nat)
    requires 16 * n <= |d| && 16 * n <= |e|
    requires forall k: nat :: k < n ==> On(p, k, Blk(d, k)) == On(q, k, Blk(e, k))
    ensures Over(p, d, n) == Over(q, e, n)
  {
    hide On, Blk;
    if n == 0 {
    } else {
      OverSame(p, q, d, e, n - 1);
    }
  }

  /** A pass over a + b is a pass over a followed by the pass q over b, if q goes on where p stops. */
  lemma {:induction false} OverSplit(p: Pass, q: Pass, a: seq<byte>, b: seq<byte>, m: nat, n: nat)
    requires |a| == 16 * m && 16 * n <= |b|
    requires forall k: nat, c: Block16 :: k < n ==> On(p, m + k, c) == On(q, k, c)
    ensures Over(p, a + b, m + n) == Over(p, a, m) + Over(q, b, n)
  {
    hide On, Blk;
    if n == 0 {
      OverPrefix(p, a, b, m);
    } else {
      OverSplit(p, q, a, b, m, n - 1);
      var k := n - 1;
      BlkOfAppend(a, b, m + k);
      AppendAssoc(Over(p, a, m), Over(q, b, k), On(q, k, Blk(b, k)));
    }
  }

  lemma {:induction false} OverPrefix(p: Pass, a: seq<byte>, b: seq<byte>, m: nat)
    requires 16 * m == |a|
    ensures Over(p, a + b, m) == Over(p, a, m)
  {
    hide On, Blk;
    forall k: nat | k < m
      ensures Blk(a + b, k) == Blk(a, k)
    {
      BlkOfAppend(a, b, k);
    }
    OverSame(p, p, a + b, a, m);
  }

  /** The tweaks of a buffer go on over a sector boundary. */
  lemma {:induction false} TweakGoesOn(aes: Aes, lba: nat, s: nat, k: nat)
    ensures BlockTweak(aes, lba, BLOCKS_PER_SECTOR * s + k) == BlockTweak(aes, Add32(lba, s), k)
  {
    hide AlphaPower, SectorTweak;
    Add32Assoc(lba, s, k / BLOCKS_PER_SECTOR);
    assert (BLOCKS_PER_SECTOR * s + k) / BLOCKS_PER_SECTOR == s + k / BLOCKS_PER_SECTOR;
    assert (BLOCKS_PER_SECTOR * s + k) % BLOCKS_PER_SECTOR == k % BLOCKS_PER_SECTOR;
  }

  /** Cutting a buffer at a sector boundary does not change what XTS makes of it. */
  lemma {:induction false} XtsSplit(f: Block16 -> Block16, aes: Aes, lba: nat, a: seq<byte>, b: seq<byte>)
    requires |a| % SECTOR_SIZE == 0 && |b| % SECTOR_SIZE == 0
    ensures XtsBytes(f, aes, lba, a + b)
         == XtsBytes(f, aes, lba, a) + XtsBytes(f, aes, Add32(lba, |a| / SECTOR_SIZE), b)
  {
    hide On, Add32, Over;
    var s := |a| / SECTOR_SIZE;
    assert |a + b| / SECTOR_SIZE == s + |b| / SECTOR_SIZE;
    forall k: nat, c: Block16
      ensures On(Xts(f, aes, lba), BLOCKS_PER_SECTOR * s + k, c) == On(Xts(f, aes, Add32(lba, s)), k, c)
    {
      XtsGoesOn(f, aes, lba, s, k, c);
    }
    OverSplit(Xts(f, aes, lba), Xts(f, aes, Add32(lba, s)), a, b,
              BLOCKS_PER_SECTOR * s, BLOCKS_PER_SECTOR * (|b| / SECTOR_SIZE));
  }

  lemma {:induction false} XtsGoesOn(f: Block16 -> Block16, aes: Aes, lba: nat, s: nat, k: nat, c: Block16)
    ensures On(Xts(f, aes, lba), BLOCKS_PER_SECTOR * s + k, c) == On(Xts(f, aes, Add32(lba, s)), k, c)
  {
    hide BlockTweak, Add32, Xor;
    TweakGoesOn(aes, lba, s, k);
  }

  lemma XorTwice(a: Block16, t: Block16)
    ensures Xor(Xor(a, t), t) == a
  {
  }

  /** Whitening, the block operation and whitening again make up XTS. */
  lemma {:induction false} ThreePasses(f: Block16 -> Block16, aes: Aes, lba: nat, d: seq<byte>, n: nat)
    requires 16 * n <= |d|
    ensures Over(Whiten(aes, lba), Over(Ecb(f), Over(Whiten(aes, lba), d, n), n), n)
         == Over(Xts(f, aes, lba), d, n)
  {
    hide On, Over, Blk;
    var white := Over(Whiten(aes, lba), d, n);
    var coded := Over(Ecb(f), white, n);
    forall k: nat | k < n
      ensures On(Whiten(aes, lba), k, Blk(coded, k)) == On(Xts(f, aes, lba), k, Blk(d, k))
    {
      OverBlock(Whiten(aes, lba), d, n, k);
      OverBlock(Ecb(f), white, n, k);
      BlockThreePasses(f, aes, lba, k, Blk(d, k));
    }
    OverSame(Whiten(aes, lba), Xts(f, aes, lba), coded, d, n);
  }

  lemma BlockThreePasses(f: Block16 -> Block16, aes: Aes, lba: nat, k: nat, b: Block16)
    ensures On(Whiten(aes, lba), k, On(Ecb(f), k, On(Whiten(aes, lba), k, b))) == On(Xts(f, aes, lba), k, b)
  {
    hide BlockTweak, Xor;
  }

  /** The pass that changes nothing. */
  function Identity(): Pass {
    Ecb((b: Block16) => b)
  }

  /** Decrypting any run of sectors out of an encrypted buffer gives back those sectors. */
  lemma XtsRoundTrip(aes: Aes, lba: nat, d: seq<byte>, from: nat, to: nat)
    requires aes.Inverse()
    requires |d| % SECTOR_SIZE == 0 && from <= to && SECTOR_SIZE * to <= |d|
    ensures XtsBytes(aes.dec, aes, Add32(lba, from), Sectors(XtsBytes(aes.enc, aes, lba, d), from, to))
         == Sectors(d, from, to)
  {
    hide Add32, On, Over, Blk, Identity, Sectors;
    var coded := XtsBytes(aes.enc, aes, lba, d);
    var part := Sectors(coded, from, to);
    var plain := Sectors(d, from, to);
    var p := Xts(aes.dec, aes, Add32(lba, from));
    var n := BLOCKS_PER_SECTOR * (to - from);
    forall k: nat | k < n
      ensures On(p, k, Blk(part, k)) == On(Identity(), k, Blk(plain, k))
    {
      var j := BLOCKS_PER_SECTOR * from + k;
      BlkOfSlice(coded, from, to, k);
      BlkOfSlice(d, from, to, k);
      OverBlock(Xts(aes.enc, aes, lba), d, BLOCKS_PER_SECTOR * (|d| / SECTOR_SIZE), j);
      BlockRoundTrip(aes, lba, from, k, Blk(plain, k));
    }
    OverSame(p, Identity(), part, plain, n);
    OverIdentity(plain, n);
    assert plain[..16 * n] == plain;
  }

  lemma BlkOfSlice(d: seq<byte>, from: nat, to: nat, k: nat)
    requires from <= to && SECTOR_SIZE * to <= |d| && k < BLOCKS_PER_SECTOR * (to - from)
    ensures Blk(Sectors(d, from, to), k) == Blk(d, BLOCKS_PER_SECTOR * from + k)
  {
    SliceOfSlice(d, SECTOR_SIZE * from, SECTOR_SIZE * to, 16 * k, 16 * k + 16);
  }

  lemma BlockRoundTrip(aes: Aes, lba: nat, s: nat, k: nat, b: Block16)
    requires aes.Inverse()
    ensures On(Xts(aes.dec, aes, Add32(lba, s)), k, On(Xts(aes.enc, aes, lba), BLOCKS_PER_SECTOR * s + k, b))
         == On(Identity(), k, b)
  {
    hide BlockTweak, Xor, Add32;
    TweakGoesOn(aes, lba, s, k);
    var t := BlockTweak(aes, Add32(lba, s), k);
    XorTwice(aes.enc(Xor(b, t)), t);
    XorTwice(b, t);
  }

  lemma {:induction false} OverIdentity(d: seq<byte>, n: nat)
    requires 16 * n <= |d|
    ensures Over(Identity(), d, n) == d[..16 * n]
  {
    if n == 0 {
    } else {
      OverIdentity(d, n - 1);
      assert d[..16 * n] == d[..16 * (n - 1)] + Blk(d, n - 1);
    }
  }
}
