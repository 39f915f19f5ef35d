/** SHA-256 as FIPS 180-4 defines it: padding (5.1.1), constants (4.2.2, 5.3.3), hash (6.2). */
module Sha256Spec {
  import opened Bytes

  type Word = bv32
  type Hash = h: seq<Word> | |h| == 8 witness [0, 0, 0, 0, 0, 0, 0, 0]
  type Block = b: seq<byte> | |b| == 64 witness seq(64, _ => 0)

  const TWO64: nat := 0x1_0000_0000_0000_0000

  const K_TABLE: seq<seq<Word>> := [
    [0x428a2f98, 0x71374491, 0xb5c0fbcf, 0xe9b5dba5, 0x3956c25b, 0x59f111f1, 0x923f82a4, 0xab1c5ed5],
    [0xd807aa98, 0x12835b01, 0x243185be, 0x550c7dc3, 0x72be5d74, 0x80deb1fe, 0x9bdc06a7, 0xc19bf174],
    [0xe49b69c1, 0xefbe4786, 0x0fc19dc6, 0x240ca1cc, 0x2de92c6f, 0x4a7484aa, 0x5cb0a9dc, 0x76f988da],
    [0x983e5152, 0xa831c66d, 0xb00327c8, 0xbf597fc7, 0xc6e00bf3, 0xd5a79147, 0x06ca6351, 0x14292967],
    [0x27b70a85, 0x2e1b2138, 0x4d2c6dfc, 0x53380d13, 0x650a7354, 0x766a0abb, 0x81c2c92e, 0x92722c85],
    [0xa2bfe8a1, 0xa81a664b, 0xc24b8b70, 0xc76c51a3, 0xd192e819, 0xd6990624, 0xf40e3585, 0x106aa070],
    [0x19a4c116, 0x1e376c08, 0x2748774c, 0x34b0bcb5, 0x391c0cb3, 0x4ed8aa4a, 0x5b9cca4f, 0x682e6ff3],
    [0x748f82ee, 0x78a5636f, 0x84c87814, 0x8cc70208, 0x90befffa, 0xa4506ceb, 0xbef9a3f7, 0xc67178f2]
  ]

  const IV: Hash := [
    0x6a09e667, 0xbb67ae85, 0x3c6ef372, 0xa54ff53a, 0x510e527f, 0x9b05688c, 0x1f83d9ab, 0x5be0cd19
  ]

  function K(t: nat): Word
    requires t < 64
  {
    K_TABLE[t / 8][t % 8]
  }

  /** Addition modulo 2^32. */
  function Add(x: Word, y: Word): Word { x + y }

  function Ch(x: Word, y: Word, z: Word): Word { (x & y) ^ (!x & z) }
  function Maj(x: Word, y: Word, z: Word): Word { (x & y) ^ (x & z) ^ (y & z) }
  function BigSigma0(x: Word): Word { x.RotateRight(2) ^ x.RotateRight(13) ^ x.RotateRight(22) }
  function BigSigma1(x: Word): Word { x.RotateRight(6) ^ x.RotateRight(11) ^ x.RotateRight(25) }
  function SmallSigma0(x: Word): Word { x.RotateRight(7) ^ x.RotateRight(18) ^ (x >> 3) }
  function SmallSigma1(x: Word): Word { x.RotateRight(17) ^ x.RotateRight(19) ^ (x >> 10) }

  /** The word whose bytes are b0 b1 b2 b3, most significant first. */
  function BigEndianWord(b0: byte, b1: byte, b2: byte, b3: byte): Word {
    ((b0 as Word) << 24) | ((b1 as Word) << 16) | ((b2 as Word) << 8) | (b3 as Word)
  }

  /** The message schedule: word t of a block. */
  function Schedule(block: Block, t: nat): Word
    requires t < 64
  {
    if t < 16 then BigEndianWord(block[4 * t], block[4 * t + 1], block[4 * t + 2], block[4 * t + 3])
    else Add(Add(Add(SmallSigma1(Schedule(block, t - 2)), Schedule(block, t - 7)),
                 SmallSigma0(Schedule(block, t - 15))), Schedule(block, t - 16))
  }

  /** The working variables. */
  datatype Vars = Vars(a: Word, b: Word, c: Word, d: Word, e: Word, f: Word, g: Word, h: Word)

  function Round(v: Vars, k: Word, w: Word): Vars {
    var t1 := Add(Add(Add(Add(v.h, BigSigma1(v.e)), Ch(v.e, v.f, v.g)), k), w);
    var t2 := Add(BigSigma0(v.a), Maj(v.a, v.b, v.c));
    Vars(Add(t1, t2), v.a, v.b, v.c, Add(v.d, t1), v.e, v.f, v.g)
  }

  function Rounds(v: Vars, block: Block, t: nat): Vars
    requires t <= 64
  {
    if t == 0 then v else Round(Rounds(v, block, t - 1), K(t - 1), Schedule(block, t - 1))
  }

  /** One block: from the previous hash value to the next. */
  function Compress(h: Hash, block: Block): Hash {
    var v := Rounds(Vars(h[0], h[1], h[2], h[3], h[4], h[5], h[6], h[7]), block, 64);
    [Add(h[0], v.a), Add(h[1], v.b), Add(h[2], v.c), Add(h[3], v.d),
     Add(h[4], v.e), Add(h[5], v.f), Add(h[6], v.g), Add(h[7], v.h)]
  }

  /** The hash value after all blocks of m. */
  function HashBlocks(h: Hash, m: seq<byte>): Hash
    requires |m| % 64 == 0
    decreases |m|
  {
    if m == [] then h else Compress(HashBlocks(h, m[..|m| - 64]), m[|m| - 64..])
  }

  lemma {:induction false} HashOneMore(h: Hash, m: seq<byte>, block: Block)
    requires |m| % 64 == 0
    ensures HashBlocks(h, m + block) == Compress(HashBlocks(h, m), block)
  {
    hide Compress;
    assert (m + block)[..|m + block| - 64] == m;
    assert (m + block)[|m + block| - 64..] == block;
  }

  /** n shifted right by i bytes. */
  function ShiftBytes(n: nat, i: nat): nat {
    if i == 0 then n else ShiftBytes(n, i - 1) / 256
  }

  /** The k low-order bytes of n, most significant first. */
  function BigEndian(n: nat, k: nat): (b: seq<byte>)
    ensures |b| == k
  {
    if k == 0 then [] else [ByteOf(ShiftBytes(n, k - 1))] + BigEndian(n, k - 1)
  }

  /** How many zero bytes bring n bytes and the 0x80 marker to 56 modulo 64. */
  function PadZeros(n: nat): nat {
    (119 - n % 64) % 64
  }

  lemma PadZerosIsLeast(n: nat, k: nat)
    ensures (n + 1 + PadZeros(n)) % 64 == 56
    ensures (n + 1 + k) % 64 == 56 ==> PadZeros(n) <= k
  {
    var r := n % 64;
    assert PadZeros(n) == if r <= 55 then 55 - r else 119 - r;
    assert n + 1 + PadZeros(n) == 64 * (n / 64) + (if r <= 55 then 56 else 120);
    if k < PadZeros(n) {
      var short := PadZeros(n) - k;
      assert n + 1 + k == 64 * (n / 64) + (if r <= 55 then 56 else 120) - short;
    }
  }

  lemma PaddedLength(n: nat)
    ensures (n + 1 + PadZeros(n) + 8) % 64 == 0
  {
    PadZerosIsLeast(n, 0);
  }

  /** FIPS 180-4, 5.1.1; the length field is taken modulo 2^64, as a 64-bit counter keeps it. */
  function Pad(m: seq<byte>): (p: seq<byte>)
    ensures |p| % 64 == 0
  {
    PaddedLength(|m|);
    m + [0x80] + Zeros(PadZeros(|m|)) + BigEndian(BitLength(|m|), 8)
  }

  function BitLength(n: nat): nat {
    8 * n % TWO64
  }

  function WordBytes(w: Word): seq<byte> {
    [((w >> 24) & 0xff) as byte, ((w >> 16) & 0xff) as byte, ((w >> 8) & 0xff) as byte, (w & 0xff) as byte]
  }

  /** The first n words of a hash value as bytes. */
  function HashBytes(h: Hash, n: nat): (b: seq<byte>)
    requires n <= 8
    ensures |b| == 4 * n
  {
    if n == 0 then [] else HashBytes(h, n - 1) + WordBytes(h[n - 1])
  }

  function Digest(m: seq<byte>): (d: seq<byte>)
    ensures |d| == 32
  {
    HashBytes(HashBlocks(IV, Pad(m)), 8)
  }

  // ---------- what the parts of the padding mean ----------

  /** The number that bytes stand for, most significant first. */
  function FromBigEndian(b: seq<byte>): nat {
    if b == [] then 0 else 256 * FromBigEndian(b[..|b| - 1]) + b[|b| - 1] as nat
  }

  /** n has at most k bytes. */
  predicate Fits(n: nat, k: nat) {
    if k == 0 then n == 0 else Fits(n / 256, k - 1)
  }

  lemma {:induction false} ShiftTwice(n: nat, i: nat)
    ensures ShiftBytes(n, i + 1) == ShiftBytes(n / 256, i)
  {
    if i == 0 {
    } else {
      ShiftTwice(n, i - 1);
    }
  }

  lemma {:induction false} BigEndianLast(n: nat, k: nat)
    requires k > 0
    ensures BigEndian(n, k) == BigEndian(n / 256, k - 1) + [ByteOf(n)]
  {
    if k == 1 {
    } else {
      BigEndianLast(n, k - 1);
      ShiftTwice(n, k - 2);
    }
  }

  /** The length field stands for the length. */
  lemma {:induction false} BigEndianRoundTrip(n: nat, k: nat)
    requires Fits(n, k)
    ensures FromBigEndian(BigEndian(n, k)) == n
  {
    hide BigEndian, ByteOf;
    if k > 0 {
      BigEndianLast(n, k);
      BigEndianRoundTrip(n / 256, k - 1);
      assert BigEndian(n, k)[..k - 1] == BigEndian(n / 256, k - 1);
      ByteOfIs(n);
    } else {
      assert BigEndian(n, k) == [];
    }
  }

  /**
   The padding of FIPS 180-4 for messages under 2^61 bytes: the message, the marker, fewer than 64
   zero bytes, and eight bytes that stand for the exact number of message bits.
   */
  lemma PadIsFips(m: seq<byte>)
    requires |m| < 0x2000_0000_0000_0000
    ensures var p := Pad(m);
            && |p| == |m| + 1 + PadZeros(|m|) + 8 && PadZeros(|m|) < 64
            && p[..|m|] == m && p[|m|] == 0x80
            && (forall k :: |m| < k < |p| - 8 ==> p[k] == 0)
            && FromBigEndian(p[|p| - 8..]) == 8 * |m|
  {
    hide BigEndian, PadZeros, FromBigEndian, Fits;
    FitsEight(8 * |m|);
    BigEndianRoundTrip(8 * |m|, 8);
    PadZerosBound(|m|);
    var p := Pad(m);
    assert p[|p| - 8..] == BigEndian(8 * |m|, 8);
  }

  lemma PadZerosBound(n: nat)
    ensures PadZeros(n) < 64
  {
  }

  lemma FitsEight(n: nat)
    requires n < TWO64
    ensures Fits(n, 8)
  {
    var n1 := n / 256;
    var n2 := n1 / 256;
    var n3 := n2 / 256;
    var n4 := n3 / 256;
    var n5 := n4 / 256;
    var n6 := n5 / 256;
    var n7 := n6 / 256;
    assert n7 / 256 == 0;
    FitsOneMore(n7, 0);
    FitsOneMore(n6, 1);
    FitsOneMore(n5, 2);
    FitsOneMore(n4, 3);
    FitsOneMore(n3, 4);
    FitsOneMore(n2, 5);
    FitsOneMore(n1, 6);
    FitsOneMore(n, 7);
  }

  lemma FitsOneMore(n: nat, k: nat)
    requires Fits(n / 256, k)
    ensures Fits(n, k + 1)
  {
  }
}
