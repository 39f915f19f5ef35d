/** The key derivation of the firmware, from cached HMAC states and one working buffer. */
module Kdf {
  import opened Bytes
  import opened Memory
  import opened Sha256Spec
  import opened Sha256
  import opened KdfSpec

  method Sha256Hash(data: seq<byte>, hashOut: array<byte>)
    requires hashOut.Length >= 32
    modifies hashOut
    ensures hashOut[..32] == Digest(data) && hashOut[32..] == old(hashOut[32..])
  {
    hide Digest;
    var ctx := new Context();
    ctx.Update(data);
    assert [] + data == data;
    ctx.Final(hashOut);
  }

  /** The state after one 64-byte block. */
  method BlockState(block: Block, out: array<Word>)
    requires out.Length == 8
    modifies out
    ensures out[..] == HashBlocks(IV, block)
  {
    hide HashBlocks;
    var ctx := new Context();
    ctx.Update(block);
    assert [] + block == block && block[..64] == block;
    forall k | 0 <= k < 8 {
      out[k] := ctx.state[k];
    }
    assert out[..] == ctx.state[..];
  }

  method XorInPlace(b: array<byte>, c: byte)
    modifies b
    ensures b[..] == XorWith(old(b[..]), c)
  {
    for i := 0 to b.Length
      invariant forall k :: 0 <= k < i ==> b[k] == old(b[k]) ^ c
      invariant forall k :: i <= k < b.Length ==> b[k] == old(b[k])
    {
      b[i] := b[i] ^ c;
    }
  }

  /** Caches the states after the inner and the outer pad of a key. */
  method HmacInit(key: seq<byte>, innerState: array<Word>, outerState: array<Word>)
    requires innerState.Length == 8 && outerState.Length == 8 && innerState != outerState
    modifies innerState, outerState
    ensures innerState[..] == HashBlocks(IV, InnerPad(key))
    ensures outerState[..] == HashBlocks(IV, OuterPad(key))
  {
    hide HashBlocks, Digest;
    var keyBlock := new byte[64](_ => 0);
    if |key| > 64 {
      Sha256Hash(key, keyBlock);
    } else {
      CopyBytes(keyBlock, 0, key);
    }
    assert keyBlock[..] == KeyBlock(key);

    XorInPlace(keyBlock, 0x36);
    BlockState(keyBlock[..], innerState);
    ghost var inner := innerState[..];

    XorInPlace(keyBlock, 0x36 ^ 0x5c);
    assert keyBlock[..] == OuterPad(key);
    BlockState(keyBlock[..], outerState);
    assert innerState[..] == inner;
  }

  /** HMAC of data ++ suffix from the cached states; `hashOut` may be the very buffer `data`. */
  method HmacSha256(innerState: array<Word>, outerState: array<Word>, data: array<byte>, dataLen: nat,
                    suffix: seq<byte>, hashOut: array<byte>, ghost key: seq<byte>)
    requires innerState.Length == 8 && innerState[..] == HashBlocks(IV, InnerPad(key))
    requires outerState.Length == 8 && outerState[..] == HashBlocks(IV, OuterPad(key))
    requires dataLen <= data.Length && hashOut.Length >= 32
    modifies hashOut
    ensures hashOut[..32] == Hmac(key, old(data[..dataLen]) + suffix)
    ensures hashOut[32..] == old(hashOut[32..])
  {
    hide HashBlocks, Digest, InnerPad, OuterPad;
    var ctx := new Context();
    var innerHash := new byte[32];

    ctx.RestoreHmacState(innerState, InnerPad(key));
    ctx.Update(data[..dataLen]);
    if |suffix| > 0 {
      ctx.Update(suffix);
    }
    AppendAssoc(InnerPad(key), data[..dataLen], suffix);
    assert data[..dataLen] + [] == data[..dataLen];
    ctx.Final(innerHash);

    ctx.RestoreHmacState(outerState, OuterPad(key));
    ctx.Update(innerHash[..]);
    assert innerHash[..] == innerHash[..32];
    ctx.Final(hashOut);
  }

  /** PBKDF2 with `rounds` iterations; u is both input and output of every HMAC after the first. */
  method DeriveKey(password: seq<byte>, salt: array<byte>, keyOut: array<byte>, rounds: nat)
    requires salt.Length == 8 && keyOut.Length == 32 && rounds >= 1
    modifies keyOut
    ensures keyOut[..] == T1(password, salt[..], rounds)
  {
    hide HashBlocks, Digest, Hmac, U, T1, InnerPad, OuterPad, Xor;
    FirstRound(password, salt[..]);
    var innerState, outerState := new Word[8], new Word[8];
    var u := new byte[32];
    HmacInit(password, innerState, outerState);
    HmacSha256(innerState, outerState, salt, 8, [0, 0, 0, 1], u, password);
    assert salt[..8] == salt[..] && u[..32] == u[..];
    CopyBytes(keyOut, 0, u[..]);
    assert keyOut[..] == u[..];

    for round := 1 to rounds
      invariant innerState[..] == HashBlocks(IV, InnerPad(password))
      invariant outerState[..] == HashBlocks(IV, OuterPad(password))
      invariant u[..] == U(password, salt[..], round)
      invariant keyOut[..] == T1(password, salt[..], round)
    {
      NextRound(password, salt[..], round);
      assert u[..32] + [] == u[..];
      HmacSha256(innerState, outerState, u, 32, [], u, password);
      assert u[..32] == u[..];
      XorInto(keyOut, u);
    }
  }

  lemma FirstRound(password: seq<byte>, salt: seq<byte>)
    ensures T1(password, salt, 1) == U(password, salt, 1) == Hmac(password, salt + [0, 0, 0, 1])
  {
  }

  lemma NextRound(password: seq<byte>, salt: seq<byte>, i: nat)
    requires i >= 1
    ensures U(password, salt, i + 1) == Hmac(password, U(password, salt, i))
    ensures T1(password, salt, i + 1) == Xor(T1(password, salt, i), U(password, salt, i + 1))
  {
    hide Hmac, Xor;
  }

  method XorInto(b: array<byte>, u: array<byte>)
    requires b != u && b.Length == u.Length
    modifies b
    ensures b[..] == Xor(old(b[..]), u[..])
  {
    for i := 0 to u.Length
      invariant forall k :: 0 <= k < i ==> b[k] == old(b[k]) ^ u[k]
      invariant forall k :: i <= k < b.Length ==> b[k] == old(b[k])
    {
      b[i] := b[i] ^ u[i];
    }
  }

  /** However a message is cut into updates, the digest is that of the whole message. */
  method HashInPieces(pieces: seq<seq<byte>>) returns (digest: seq<byte>)
    ensures digest == Digest(Concat(pieces))
  {
    hide Digest;
    var ctx := new Context();
    for i := 0 to |pieces|
      invariant ctx.Valid() && ctx.msg == Concat(pieces[..i])
      invariant fresh(ctx.state) && fresh(ctx.buf)
    {
      ctx.Update(pieces[i]);
      assert pieces[..i + 1][..i] == pieces[..i];
    }
    assert pieces[..|pieces|] == pieces;
    var out := new byte[32];
    ctx.Final(out);
    digest := out[..32];
  }

  function Concat(pieces: seq<seq<byte>>): seq<byte> {
    if pieces == [] then [] else Concat(pieces[..|pieces| - 1]) + pieces[|pieces| - 1]
  }

  /**
   The two keys of an unlocked drive: the data key from the salt as it was, the tweak key from the
   salt with its first byte incremented, which is how the salt is left.
   */
  method CryptoUnlock(password: seq<byte>, salt: array<byte>, dataKey: array<byte>, tweakKey: array<byte>,
                      rounds: nat)
    requires salt.Length == 8 && dataKey.Length == 32 && tweakKey.Length == 32 && dataKey != tweakKey
    requires rounds >= 1
    modifies salt, dataKey, tweakKey
    ensures salt[..] == old(salt[..])[0 := old(salt[0]) + 1]
    ensures dataKey[..] == T1(password, old(salt[..]), rounds)
    ensures tweakKey[..] == T1(password, salt[..], rounds)
  {
    hide T1;
    DeriveKey(password, salt, dataKey, rounds);
    salt[0] := salt[0] + 1;
    DeriveKey(password, salt, tweakKey, rounds);
  }
}
