/** The machine types every other module shares: bytes, sectors and 32-bit wrap-around. */
module Bytes {

  type byte = bv8

  const SECTOR_SIZE: nat := 512

  /** One more than the largest uint32_t. */
  const TWO32: nat := 0x1_0000_0000

  /** uint32_t addition. */
  function Add32(a: nat, b: nat): (r: nat)
    ensures r < TWO32
  {
    (a + b) % TWO32
  }

  function Zeros(n: nat): seq<byte> {
    seq(n, _ => 0)
  }

  /** Sectors from..to of a byte string that starts at a sector boundary. */
  function Sectors(d: seq<byte>, from: nat, to: nat): (r: seq<byte>)
    requires from <= to && SECTOR_SIZE * to <= |d|
    ensures |r| == SECTOR_SIZE * (to - from) && |r| % SECTOR_SIZE == 0
  {
    d[SECTOR_SIZE * from..SECTOR_SIZE * to]
  }

  /** n sectors at byte offset `off`. */
  function SectorsAt(s: seq<byte>, off: nat, n: nat): (r: seq<byte>)
    requires off + SECTOR_SIZE * n <= |s|
    ensures |r| == SECTOR_SIZE * n && |r| % SECTOR_SIZE == 0 && |r| / SECTOR_SIZE == n
  {
    s[off..off + SECTOR_SIZE * n]
  }

  /** The low byte of a number. */
  function ByteOf(n: nat): byte {
    (n % 256) as byte
  }

  lemma ByteOfIs(n: nat)
    ensures ByteOf(n) as nat == n % 256
  {
    SmallByte(n % 256);
  }

  /** A 32-bit number from its four bytes. */
  lemma Digits(n: nat)
    requires n < TWO32
    ensures n == 0x100_0000 * (n / 0x100_0000 % 256) + 0x1_0000 * (n / 0x1_0000 % 256)
                 + 0x100 * (n / 0x100 % 256) + n % 256
  {
    var q1 := n / 0x100;
    var q2 := q1 / 0x100;
    var q3 := q2 / 0x100;
    assert n / 0x1_0000 == q2;
    assert n / 0x100_0000 == q3 && q3 < 256;
  }

  /** Every number below 256 is the value of a byte. */
  lemma {:induction false} ByteWithValue(x: nat) returns (b: byte)
    requires x < 256
    ensures b as nat == x
  {
    if x == 0 {
      b := 0;
    } else {
      b := ByteWithValue(x - 1);
      b := b + 1;
    }
  }

  lemma SmallByte(x: nat)
    requires x < 256
    ensures (x as byte) as nat == x
  {
    var b := ByteWithValue(x);
    assert (b as nat) as byte == b;
  }

  function XorByte(a: byte, b: byte): byte {
    a ^ b
  }

  /** Bitwise exclusive or of two byte strings. */
  function Xor(a: seq<byte>, b: seq<byte>): (r: seq<byte>)
    requires |a| == |b|
    ensures |r| == |a|
  {
    seq(|a|, i requires 0 <= i < |a| => XorByte(a[i], b[i]))
  }

  function Min(a: nat, b: nat): nat {
    if a <= b then a else b
  }

  lemma AppendLast<T>(a: seq<T>, b: seq<T>)
    requires b != []
    ensures a + b == (a + b[..|b| - 1]) + [b[|b| - 1]]
  {
  }

  lemma SliceOfSlice<T>(s: seq<T>, a: nat, b: nat, c: nat, d: nat)
    requires c <= d && a + d <= b <= |s|
    ensures s[a..b][c..d] == s[a + c..a + d]
  {
    forall k | 0 <= k < d - c
      ensures s[a..b][c..d][k] == s[a + c..a + d][k]
    {
      assert s[a..b][c..d][k] == s[a..b][c + k];
    }
  }

  lemma AppendAssoc<T>(a: seq<T>, b: seq<T>, c: seq<T>)
    ensures a + (b + c) == (a + b) + c
  {
  }

  /** Advancing an address in two steps or in one gives the same address. */
  lemma Add32Assoc(a: nat, b: nat, c: nat)
    ensures Add32(Add32(a, b), c) == Add32(a, b + c)
  {
    var q := (a + b) / TWO32;
    assert a + b == q * TWO32 + Add32(a, b);
    ModShift(Add32(a, b) + c, q);
  }

  lemma {:induction false} ModShift(x: nat, q: nat)
    ensures (x + q * TWO32) % TWO32 == x % TWO32
  {
    if q == 0 {
    } else {
      ModShift(x, q - 1);
      assert x + q * TWO32 == (x + (q - 1) * TWO32) + TWO32;
    }
  }
}
