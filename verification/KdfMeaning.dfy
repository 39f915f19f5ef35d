/** HMAC and PBKDF2 from outside: what RFC 2104 and RFC 8018 say of keys, pads, block index and rounds. */
module KdfMeaning {
  import opened Bytes
  import opened Sha256Spec
  import opened KdfSpec
  import Sha256Sample

  /** The empty key leaves the bare pads: 64 times 0x36 inside, 64 times 0x5c outside. */
  lemma EmptyKey(text: seq<byte>)
    ensures Hmac([], text) == Digest(seq(64, _ => 0x5c) + Digest(seq(64, _ => 0x36) + text))
  {
    hide Digest;
    assert InnerPad([]) == seq(64, _ => 0x36);
    assert OuterPad([]) == seq(64, _ => 0x5c);
  }

  /** Zero bytes fill a short key up. */
  lemma ZeroFilledKey(key: seq<byte>, text: seq<byte>)
    requires |key| < 64
    ensures Hmac(key + [0], text) == Hmac(key, text)
  {
    hide Digest, XorWith;
    assert KeyBlock(key + [0]) == KeyBlock(key);
  }

  /** A key of more than a block counts as its digest. */
  lemma LongKey(key: seq<byte>, text: seq<byte>)
    requires |key| > 64
    ensures Hmac(key, text) == Hmac(Digest(key), text)
  {
    hide Digest, XorWith;
  }

  /** The pads of a key of one block, byte by byte. */
  lemma PadBytes(key: Block, k: nat)
    requires k < 64
    ensures InnerPad(key)[k] == key[k] ^ 0x36 && OuterPad(key)[k] == key[k] ^ 0x5c
  {
    assert key + Zeros(0) == key;
  }

  /** The first block of PBKDF2 starts from the salt and the four bytes of the number 1. */
  lemma FirstBlock(password: seq<byte>, salt: seq<byte>)
    ensures T1(password, salt, 1) == Hmac(password, salt + BigEndian(1, 4))
  {
    hide Hmac, BigEndian;
    Sha256Sample.SmallBigEndian(1, 4);
    assert Zeros(3) + [ByteOf(1)] == [0, 0, 0, 1];
  }

  /** The exclusive or of byte k of the first c outputs, each the HMAC of the one before. */
  function XorOf(outputs: seq<seq<byte>>, k: nat): byte
    requires forall u :: u in outputs ==> k < |u|
  {
    if outputs == [] then 0 else XorOf(outputs[..|outputs| - 1], k) ^ outputs[|outputs| - 1][k]
  }

  /** The chain U_1, ..., U_c. */
  ghost predicate IsChain(outputs: seq<seq<byte>>, password: seq<byte>, salt: seq<byte>) {
    && (outputs != [] ==> outputs[0] == Hmac(password, salt + [0, 0, 0, 1]))
    && forall i :: 1 <= i < |outputs| ==> outputs[i] == Hmac(password, outputs[i - 1])
  }

  /** The key is the exclusive or over the chain. */
  lemma {:induction false} KeyIsXorOfChain(outputs: seq<seq<byte>>, password: seq<byte>, salt: seq<byte>, k: nat)
    requires outputs != [] && IsChain(outputs, password, salt) && k < 32
    requires forall u :: u in outputs ==> |u| == 32
    ensures T1(password, salt, |outputs|)[k] == XorOf(outputs, k)
  {
    hide Hmac;
    var c := |outputs|;
    ChainIsU(outputs, password, salt, c);
    if c == 1 {
      assert XorOf(outputs[..0], k) == 0;
    } else {
      var before := outputs[..c - 1];
      assert before[0] == outputs[0] && forall i :: 0 <= i < c - 1 ==> before[i] == outputs[i];
      KeyIsXorOfChain(outputs[..c - 1], password, salt, k);
    }
  }

  lemma {:induction false} ChainIsU(outputs: seq<seq<byte>>, password: seq<byte>, salt: seq<byte>, i: nat)
    requires IsChain(outputs, password, salt) && 1 <= i <= |outputs|
    ensures outputs[i - 1] == U(password, salt, i)
  {
    hide Hmac;
    if i == 1 {
    } else {
      ChainIsU(outputs, password, salt, i - 1);
    }
  }
}
