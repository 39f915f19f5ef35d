/**
 What the tweaks of the disk format are, said without the engine's registers and shifts: the address as
 16 bytes under the tweak key, and multiplication by x in GF(2^128) (IEEE Std 1619-2007, 5.1 and 5.2).
 */
module XtsMeaning {
  import opened Bytes
  import opened XtsSpec

  // ---------- the address in the tweak ----------

  /** The data unit number as the disk format writes it: 8 zero bytes, the LBA, 4 zero bytes. */
  function TweakBlock(lba: nat): Block16 {
    [0, 0, 0, 0, 0, 0, 0, 0,
     ByteOf(lba / 0x100_0000), ByteOf(lba / 0x1_0000), ByteOf(lba / 0x100), ByteOf(lba), 0, 0, 0, 0]
  }

  /** The engine's registers hold the blocks of `cipher` in reverse byte order, on the way in and out. */
  ghost predicate EngineOf(aes: Aes, cipher: Block16 -> Block16) {
    forall w :: RegisterBytes(aes.tweak(w)) == Reverse(cipher(Reverse(RegisterBytes(w))))
  }

  lemma AddressRegisters(lba: nat)
    ensures Reverse(RegisterBytes([0, LbaWord(lba), 0, 0])) == TweakBlock(lba)
  {
    hide LoadWord, ByteOf;
    LoadedBytes(ByteOf(lba), ByteOf(lba / 0x100), ByteOf(lba / 0x1_0000), ByteOf(lba / 0x100_0000));
  }

  lemma ReverseTwice(b: Block16)
    ensures Reverse(Reverse(b)) == b
  {
  }

  /** The tweak of a sector is its address, enciphered. */
  lemma TweakIsEncipheredAddress(aes: Aes, cipher: Block16 -> Block16, lba: nat)
    requires EngineOf(aes, cipher)
    ensures SectorTweak(aes, lba) == cipher(TweakBlock(lba))
  {
    hide RegisterBytes, Reverse, TweakBlock, LbaWord;
    AddressRegisters(lba);
    ReverseTwice(cipher(TweakBlock(lba)));
  }

  lemma AddressInTweakBlock(a: nat, b: nat)
    requires a < TWO32 && b < TWO32 && TweakBlock(a) == TweakBlock(b)
    ensures a == b
  {
    hide ByteOf;
    var x, y := TweakBlock(a), TweakBlock(b);
    assert x[8] == y[8] && x[9] == y[9] && x[10] == y[10] && x[11] == y[11];
    NumberOfBytes(a);
    NumberOfBytes(b);
  }

  lemma NumberOfBytes(n: nat)
    requires n < TWO32
    ensures n == 0x100_0000 * (ByteOf(n / 0x100_0000) as nat) + 0x1_0000 * (ByteOf(n / 0x1_0000) as nat)
                 + 0x100 * (ByteOf(n / 0x100) as nat) + ByteOf(n) as nat
  {
    hide ByteOf;
    ByteOfIs(n / 0x100_0000);
    ByteOfIs(n / 0x1_0000);
    ByteOfIs(n / 0x100);
    ByteOfIs(n);
    Digits(n);
  }

  /** If the engine's tweak encryption is injective, two sectors of a card never share a tweak. */
  lemma TweaksDiffer(aes: Aes, a: nat, b: nat)
    requires forall v, w :: aes.tweak(v) == aes.tweak(w) ==> v == w
    requires a < TWO32 && b < TWO32 && SectorTweak(aes, a) == SectorTweak(aes, b)
    ensures a == b
  {
    hide RegisterBytes, Reverse, TweakBlock, LbaWord;
    var (v, w) := ([0, LbaWord(a), 0, 0], [0, LbaWord(b), 0, 0]);
    ReverseTwice(RegisterBytes(aes.tweak(v)));
    ReverseTwice(RegisterBytes(aes.tweak(w)));
    RegistersOfBytes(aes.tweak(v), aes.tweak(w));
    assert v == w;
    AddressRegisters(a);
    AddressRegisters(b);
    AddressInTweakBlock(a, b);
  }

  lemma RegistersOfBytes(v: Registers, w: Registers)
    requires RegisterBytes(v) == RegisterBytes(w)
    ensures v == w
  {
    hide WordByte;
    forall i | 0 <= i < 4
      ensures v[i] == w[i]
    {
      assert RegisterBytes(v)[4 * i..4 * i + 4] == WordBytes(v[i]);
      assert RegisterBytes(w)[4 * i..4 * i + 4] == WordBytes(w[i]);
      WordOfBytes(v[i], w[i]);
    }
  }

  lemma WordOfBytes(v: Word, w: Word)
    requires WordBytes(v) == WordBytes(w)
    ensures v == w
  {
    var (x, y) := (WordBytes(v), WordBytes(w));
    assert x[0] == y[0] && x[1] == y[1] && x[2] == y[2] && x[3] == y[3];
    BytesOfWord(v);
    BytesOfWord(w);
  }

  lemma BytesOfWord(w: Word)
    ensures w == LoadWord(WordByte(w, 0), WordByte(w, 1), WordByte(w, 2), WordByte(w, 3))
  {
  }

  /** A stored block of an unlocked drive, as the standard writes it. */
  lemma XtsBlockIs(aes: Aes, cipher: Block16 -> Block16, lba: nat, d: seq<byte>, k: nat)
    requires EngineOf(aes, cipher) && |d| % SECTOR_SIZE == 0 && 16 * k + 16 <= |d|
    ensures var t := AlphaPower(cipher(TweakBlock(Add32(lba, k / BLOCKS_PER_SECTOR))), k % BLOCKS_PER_SECTOR);
            Blk(XtsBytes(aes.enc, aes, lba, d), k) == Xor(aes.enc(Xor(Blk(d, k), t)), t)
  {
    hide Over, Blk, Xor, TweakBlock, SectorTweak;
    OverBlock(Xts(aes.enc, aes, lba), d, BLOCKS_PER_SECTOR * (|d| / SECTOR_SIZE), k);
    TweakIsEncipheredAddress(aes, cipher, Add32(lba, k / BLOCKS_PER_SECTOR));
  }

  // ---------- multiplication by x ----------

  /** Coefficient i of the polynomial that a block stands for. */
  predicate Coefficient(a: Block16, i: nat)
    requires i < 128
  {
    Bit(a[i / 8], i % 8)
  }

  predicate Bit(c: byte, r: nat)
    requires r < 8
  {
    (c >> r) & 1 == 1
  }

  /**
   Multiplication by x modulo x^128 + x^7 + x^2 + x + 1: every coefficient moves up by one, and the one
   that leaves at the top comes back at 0, 1, 2 and 7.
   */
  lemma MulAlphaIsTimesX(a: Block16, i: nat)
    requires i < 128
    ensures var top := Coefficient(a, 127);
            Coefficient(MulAlpha(a), i) == ((i > 0 && Coefficient(a, i - 1)) != (top && i in {0, 1, 2, 7}))
  {
    hide Bit, Double, Reduction, TopBit, XorByte;
    var (k, r) := (i / 8, i % 8);
    assert MulAlpha(a)[k] == MulAlphaAt(a, k);
    if k == 0 {
      LowByteTimesX(a[0], a[15], r);
    } else {
      ByteTimesX(a[k], a[k - 1], r);
    }
  }

  lemma ByteTimesX(c: byte, below: byte, r: nat)
    requires r < 8
    ensures Bit(XorByte(Double(c), TopBit(below)), r) == if r == 0 then Bit(below, 7) else Bit(c, r - 1)
  {
  }

  lemma LowByteTimesX(c: byte, top: byte, r: nat)
    requires r < 8
    ensures Bit(XorByte(Double(c), Reduction(top)), r)
         == ((r > 0 && Bit(c, r - 1)) != (Bit(top, 7) && r in {0, 1, 2, 7}))
  {
  }
}
