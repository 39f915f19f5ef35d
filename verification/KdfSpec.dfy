/** HMAC-SHA-256 (RFC 2104, section 2) and PBKDF2 with one output block (RFC 8018, section 5.2). */
module KdfSpec {
  import opened Bytes
  import opened Sha256Spec

  function XorWith(b: seq<byte>, c: byte): (r: seq<byte>)
    ensures |r| == |b|
  {
    seq(|b|, i requires 0 <= i < |b| => b[i] ^ c)
  }

  /** The key brought to the block size: hashed first if it is longer, then filled with zeros. */
  function KeyBlock(key: seq<byte>): Block {
    var k := if |key| > 64 then Digest(key) else key;
    k + Zeros(64 - |k|)
  }

  function InnerPad(key: seq<byte>): Block { XorWith(KeyBlock(key), 0x36) }
  function OuterPad(key: seq<byte>): Block { XorWith(KeyBlock(key), 0x5c) }

  function Hmac(key: seq<byte>, text: seq<byte>): (r: seq<byte>)
    ensures |r| == 32
  {
    Digest(OuterPad(key) + Digest(InnerPad(key) + text))
  }

  /** U_i of block 1. */
  function U(password: seq<byte>, salt: seq<byte>, i: nat): (u: seq<byte>)
    requires i >= 1
    ensures |u| == 32
  {
    if i == 1 then Hmac(password, salt + [0, 0, 0, 1]) else Hmac(password, U(password, salt, i - 1))
  }

  /** T_1 = U_1 xor ... xor U_c, which is the whole 32-byte derived key. */
  function T1(password: seq<byte>, salt: seq<byte>, c: nat): (t: seq<byte>)
    requires c >= 1
    ensures |t| == 32
  {
    if c == 1 then U(password, salt, 1) else Xor(T1(password, salt, c - 1), U(password, salt, c))
  }
}
