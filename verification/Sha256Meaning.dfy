/** What the constants and the bitwise functions of SHA-256 are, in the terms of FIPS 180-4 (4.1.2, 4.2.2, 5.3.3). */
module Sha256Meaning {
  import opened Bytes
  import opened Sha256Spec

  /** Ch chooses bit by bit: where x is set the bit of y, elsewhere that of z. */
  lemma ChChooses(x: Word, y: Word, z: Word)
    ensures x & Ch(x, y, z) == x & y
    ensures !x & Ch(x, y, z) == !x & z
  {
  }

  /** Maj is the majority: any two that agree decide it, and it looks at each bit by itself. */
  lemma MajDecides(x: Word, y: Word)
    ensures Maj(x, x, y) == x && Maj(x, y, x) == x && Maj(y, x, x) == x
  {
  }

  lemma MajBitwise(x: Word, y: Word, z: Word, mask: Word)
    ensures Maj(x, y, z) & mask == Maj(x & mask, y & mask, z & mask)
  {
  }

  /** The first 64 primes. */
  const PRIMES: seq<seq<nat>> := [
    [2, 3, 5, 7, 11, 13, 17, 19],
    [23, 29, 31, 37, 41, 43, 47, 53],
    [59, 61, 67, 71, 73, 79, 83, 89],
    [97, 101, 103, 107, 109, 113, 127, 131],
    [137, 139, 149, 151, 157, 163, 167, 173],
    [179, 181, 191, 193, 197, 199, 211, 223],
    [227, 229, 233, 239, 241, 251, 257, 263],
    [269, 271, 277, 281, 283, 293, 307, 311]
  ]

  function Prime(t: nat): nat
    requires t < 64
  {
    PRIMES[t / 8][t % 8]
  }

  /** w is the first 32 bits of the fractional part of the square root of p. */
  predicate IsRootFraction(p: nat, w: nat) {
    var x := (if p < 4 then 1 else if p < 9 then 2 else if p < 16 then 3 else 4) * TWO32 + w;
    p < 25 && x * x <= p * TWO64 < (x + 1) * (x + 1)
  }

  /** The same for the cube root. */
  predicate IsCubeRootFraction(p: nat, w: nat) {
    var x := WholeCubeRoot(p) * TWO32 + w;
    x * x * x <= p * (TWO64 * TWO32) < (x + 1) * (x + 1) * (x + 1)
  }

  function WholeCubeRoot(p: nat): nat {
    if p < 8 then 1 else if p < 27 then 2 else if p < 64 then 3 else if p < 125 then 4 else if p < 216 then 5 else 6
  }

  lemma InitialHashIs(i: nat, p: nat, w: Word, k: nat)
    requires i < 8 && Prime(i) == p && IV[i] == w && w as nat == k && IsRootFraction(p, k)
    ensures IsRootFraction(Prime(i), IV[i] as nat)
  {
  }

  lemma InitialHash(i: nat)
    requires i < 8
    ensures IsRootFraction(Prime(i), IV[i] as nat)
  {
    InitialHashIs(0, 2, 0x6a09e667, 0x6a09e667);
    InitialHashIs(1, 3, 0xbb67ae85, 0xbb67ae85);
    InitialHashIs(2, 5, 0x3c6ef372, 0x3c6ef372);
    InitialHashIs(3, 7, 0xa54ff53a, 0xa54ff53a);
    InitialHashIs(4, 11, 0x510e527f, 0x510e527f);
    InitialHashIs(5, 13, 0x9b05688c, 0x9b05688c);
    InitialHashIs(6, 17, 0x1f83d9ab, 0x1f83d9ab);
    InitialHashIs(7, 19, 0x5be0cd19, 0x5be0cd19);
  }

  /** Constant t of the rounds belongs to prime t. */
  predicate Constant(t: nat)
    requires t < 64
  {
    IsCubeRootFraction(Prime(t), K(t) as nat)
  }

  lemma ConstantIs(t: nat, p: nat, w: Word, k: nat)
    requires t < 64 && Prime(t) == p && K(t) == w && w as nat == k && IsCubeRootFraction(p, k)
    ensures Constant(t)
  {
  }

  lemma Constants0(t: nat)
    requires 0 <= t < 8
    ensures Constant(t)
  {
    hide Constant;
    ConstantIs(0, 2, 0x428a2f98, 0x428a2f98);
    ConstantIs(1, 3, 0x71374491, 0x71374491);
    ConstantIs(2, 5, 0xb5c0fbcf, 0xb5c0fbcf);
    ConstantIs(3, 7, 0xe9b5dba5, 0xe9b5dba5);
    ConstantIs(4, 11, 0x3956c25b, 0x3956c25b);
    ConstantIs(5, 13, 0x59f111f1, 0x59f111f1);
    ConstantIs(6, 17, 0x923f82a4, 0x923f82a4);
    ConstantIs(7, 19, 0xab1c5ed5, 0xab1c5ed5);
  }

  lemma Constants8(t: nat)
    requires 8 <= t < 16
    ensures Constant(t)
  {
    hide Constant;
    ConstantIs(8, 23, 0xd807aa98, 0xd807aa98);
    ConstantIs(9, 29, 0x12835b01, 0x12835b01);
    ConstantIs(10, 31, 0x243185be, 0x243185be);
    ConstantIs(11, 37, 0x550c7dc3, 0x550c7dc3);
    ConstantIs(12, 41, 0x72be5d74, 0x72be5d74);
    ConstantIs(13, 43, 0x80deb1fe, 0x80deb1fe);
    ConstantIs(14, 47, 0x9bdc06a7, 0x9bdc06a7);
    ConstantIs(15, 53, 0xc19bf174, 0xc19bf174);
  }

  lemma Constants16(t: nat)
    requires 16 <= t < 24
    ensures Constant(t)
  {
    hide Constant;
    ConstantIs(16, 59, 0xe49b69c1, 0xe49b69c1);
    ConstantIs(17, 61, 0xefbe4786, 0xefbe4786);
    ConstantIs(18, 67, 0x0fc19dc6, 0x0fc19dc6);
    ConstantIs(19, 71, 0x240ca1cc, 0x240ca1cc);
    ConstantIs(20, 73, 0x2de92c6f, 0x2de92c6f);
    ConstantIs(21, 79, 0x4a7484aa, 0x4a7484aa);
    ConstantIs(22, 83, 0x5cb0a9dc, 0x5cb0a9dc);
    ConstantIs(23, 89, 0x76f988da, 0x76f988da);
  }

  lemma Constants24(t: nat)
    requires 24 <= t < 32
    ensures Constant(t)
  {
    hide Constant;
    ConstantIs(24, 97, 0x983e5152, 0x983e5152);
    ConstantIs(25, 101, 0xa831c66d, 0xa831c66d);
    ConstantIs(26, 103, 0xb00327c8, 0xb00327c8);
    ConstantIs(27, 107, 0xbf597fc7, 0xbf597fc7);
    ConstantIs(28, 109, 0xc6e00bf3, 0xc6e00bf3);
    ConstantIs(29, 113, 0xd5a79147, 0xd5a79147);
    ConstantIs(30, 127, 0x06ca6351, 0x06ca6351);
    ConstantIs(31, 131, 0x14292967, 0x14292967);
  }

  lemma Constants32(t: nat)
    requires 32 <= t < 40
    ensures Constant(t)
  {
    hide Constant;
    ConstantIs(32, 137, 0x27b70a85, 0x27b70a85);
    ConstantIs(33, 139, 0x2e1b2138, 0x2e1b2138);
    ConstantIs(34, 149, 0x4d2c6dfc, 0x4d2c6dfc);
    ConstantIs(35, 151, 0x53380d13, 0x53380d13);
    ConstantIs(36, 157, 0x650a7354, 0x650a7354);
    ConstantIs(37, 163, 0x766a0abb, 0x766a0abb);
    ConstantIs(38, 167, 0x81c2c92e, 0x81c2c92e);
    ConstantIs(39, 173, 0x92722c85, 0x92722c85);
  }

  lemma Constants40(t: nat)
    requires 40 <= t < 48
    ensures Constant(t)
  {
    hide Constant;
    ConstantIs(40, 179, 0xa2bfe8a1, 0xa2bfe8a1);
    ConstantIs(41, 181, 0xa81a664b, 0xa81a664b);
    ConstantIs(42, 191, 0xc24b8b70, 0xc24b8b70);
    ConstantIs(43, 193, 0xc76c51a3, 0xc76c51a3);
    ConstantIs(44, 197, 0xd192e819, 0xd192e819);
    ConstantIs(45, 199, 0xd6990624, 0xd6990624);
    ConstantIs(46, 211, 0xf40e3585, 0xf40e3585);
    ConstantIs(47, 223, 0x106aa070, 0x106aa070);
  }

  lemma Constants48(t: nat)
    requires 48 <= t < 56
    ensures Constant(t)
  {
    hide Constant;
    ConstantIs(48, 227, 0x19a4c116, 0x19a4c116);
    ConstantIs(49, 229, 0x1e376c08, 0x1e376c08);
    ConstantIs(50, 233, 0x2748774c, 0x2748774c);
    ConstantIs(51, 239, 0x34b0bcb5, 0x34b0bcb5);
    ConstantIs(52, 241, 0x391c0cb3, 0x391c0cb3);
    ConstantIs(53, 251, 0x4ed8aa4a, 0x4ed8aa4a);
    ConstantIs(54, 257, 0x5b9cca4f, 0x5b9cca4f);
    ConstantIs(55, 263, 0x682e6ff3, 0x682e6ff3);
  }

  lemma Constants56(t: nat)
    requires 56 <= t < 64
    ensures Constant(t)
  {
    hide Constant;
    ConstantIs(56, 269, 0x748f82ee, 0x748f82ee);
    ConstantIs(57, 271, 0x78a5636f, 0x78a5636f);
    ConstantIs(58, 277, 0x84c87814, 0x84c87814);
    ConstantIs(59, 281, 0x8cc70208, 0x8cc70208);
    ConstantIs(60, 283, 0x90befffa, 0x90befffa);
    ConstantIs(61, 293, 0xa4506ceb, 0xa4506ceb);
    ConstantIs(62, 307, 0xbef9a3f7, 0xbef9a3f7);
    ConstantIs(63, 311, 0xc67178f2, 0xc67178f2);
  }

  lemma RoundConstants(t: nat)
    requires t < 64
    ensures IsCubeRootFraction(Prime(t), K(t) as nat)
  {
    hide IsCubeRootFraction, K, Prime;
    if t < 8 {
      Constants0(t);
    } else if t < 16 {
      Constants8(t);
    } else if t < 24 {
      Constants16(t);
    } else if t < 32 {
      Constants24(t);
    } else if t < 40 {
      Constants32(t);
    } else if t < 48 {
      Constants40(t);
    } else if t < 56 {
      Constants48(t);
    } else {
      Constants56(t);
    }
  }
}
