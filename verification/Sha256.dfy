/** The incremental SHA-256 of the firmware: a context that is fed byte strings of any length. */
module Sha256 {
  import opened Bytes
  import opened Memory
  import opened Sha256Spec

  // The diffusion functions as the code writes them, with shifts for rotations.
  function EP0(x: Word): (r: Word)
    ensures r == BigSigma0(x)
  {
    ((x >> 2) | (x << 30)) ^ ((x >> 13) | (x << 19)) ^ ((x >> 22) | (x << 10))
  }

  function EP1(x: Word): (r: Word)
    ensures r == BigSigma1(x)
  {
    ((x >> 6) | (x << 26)) ^ ((x >> 11) | (x << 21)) ^ ((x >> 25) | (x << 7))
  }

  function SIG0(x: Word): (r: Word)
    ensures r == SmallSigma0(x)
  {
    ((x >> 7) | (x << 25)) ^ ((x >> 18) | (x << 14)) ^ (x >> 3)
  }

  function SIG1(x: Word): (r: Word)
    ensures r == SmallSigma1(x)
  {
    ((x >> 17) | (x << 15)) ^ ((x >> 19) | (x << 13)) ^ (x >> 10)
  }

  class Context {
    const state: array<Word>
    const buf: array<byte>
    var bufLen: nat
    var totalLen: nat
    ghost var msg: seq<byte>  // everything fed in so far

    /** m has been absorbed: full blocks are in the state, the rest is in the buffer. */
    ghost predicate Holds(m: seq<byte>)
      reads this`bufLen, state, buf
    {
      && state.Length == 8 && buf.Length == 64
      && bufLen == |m| % 64
      && Absorbed(state[..], buf[..bufLen], m)
    }

    ghost predicate Valid()
      reads this, state, buf
    {
      Holds(msg) && totalLen == |msg| % TWO64
    }

    constructor ()
      ensures Valid() && msg == [] && fresh(state) && fresh(buf)
    {
      state := new Word[8](i requires 0 <= i < 8 => IV[i]);
      buf := new byte[64];
      bufLen, totalLen := 0, 0;
      msg := [];
      new;
      assert state[..] == IV;
    }

    /** Takes up a cached state: the one reached after absorbing the 64 bytes of `pad`. */
    method RestoreHmacState(cached: array<Word>, ghost pad: Block)
      requires state.Length == 8 && buf.Length == 64 && cached.Length == 8 && cached != state
      requires cached[..] == HashBlocks(IV, pad)
      modifies this`bufLen, this`totalLen, this`msg, state
      ensures Valid() && msg == pad
    {
      hide HashBlocks;
      for i := 0 to 8
        invariant forall k :: 0 <= k < i ==> state[k] == cached[k]
        invariant forall k :: 0 <= k < 8 ==> cached[k] == old(cached[k])
      {
        state[i] := cached[i];
      }
      bufLen := 0;
      totalLen := 64;
      msg := pad;
      assert state[..] == cached[..] == old(cached[..]);
      assert pad[..64] == pad && buf[..0] == pad[64..];
    }

    /** Compresses one block into the state. */
    method Transform(block: Block)
      requires state.Length == 8
      modifies state
      ensures state[..] == Compress(old(state[..]), block)
    {
      hide Rounds, Schedule, Add;
      var W := ExpandSchedule(block);
      var v := MixRounds(Vars(state[0], state[1], state[2], state[3], state[4], state[5], state[6], state[7]),
                         block, W);
      state[0] := Add(state[0], v.a); state[1] := Add(state[1], v.b);
      state[2] := Add(state[2], v.c); state[3] := Add(state[3], v.d);
      state[4] := Add(state[4], v.e); state[5] := Add(state[5], v.f);
      state[6] := Add(state[6], v.g); state[7] := Add(state[7], v.h);
    }

    /** Moves bytes into a partial block, and compresses it if that completes it. */
    method FillPartialBlock(data: seq<byte>, ghost m: seq<byte>) returns (copy: nat)
      requires Holds(m) && bufLen > 0
      modifies this`bufLen, state, buf
      ensures copy <= |data| && Holds(m + data[..copy])
      ensures copy < |data| ==> bufLen == 0
    {
      hide Compress, HashBlocks, Absorbed;
      var space := 64 - bufLen;
      copy := if |data| < space then |data| else space;
      ghost var tail := buf[..bufLen];
      AbsorbTail(state[..], tail, m, data[..copy]);
      CopyBytes(buf, bufLen, data[..copy]);
      bufLen := bufLen + copy;
      assert buf[..bufLen] == tail + data[..copy];
      if bufLen == 64 {
        assert buf[..] == buf[..bufLen];
        Transform(buf[..]);
        bufLen := 0;
        assert buf[..0] == [];
      }
    }

    /** Compresses the full blocks of `data` and buffers the remainder. */
    method AbsorbBlocks(data: seq<byte>, ghost start: seq<byte>)
      requires Holds(start) && (data != [] ==> bufLen == 0)
      modifies this`bufLen, state, buf
      ensures Holds(start + data)
    {
      hide Compress, HashBlocks, Absorbed;
      ghost var m := start;
      var i := 0;
      assert data[0..] == data;
      while i + 64 <= |data|
        invariant i <= |data| && Holds(m)
        invariant i < |data| ==> bufLen == 0
        invariant m + data[i..] == start + data
      {
        var block := data[i..i + 64];
        assert buf[..0] == [] && [] + block == block;
        AbsorbTail(state[..], [], m, block);
        Transform(block);
        AppendAssoc(m, block, data[i + 64..]);
        assert data[i..] == block + data[i + 64..];
        m := m + block;
        i := i + 64;
      }
      if i < |data| {
        assert buf[..0] == [];
        AbsorbTail(state[..], [], m, data[i..]);
        CopyBytes(buf, 0, data[i..]);
        bufLen := |data| - i;
        assert buf[..bufLen] == [] + data[i..];
      } else {
        assert m == start + data;
      }
    }

    /** Feeds `data`, completing a buffered partial block first and keeping the last partial one. */
    method Update(data: seq<byte>)
      requires Valid()
      modifies this`bufLen, this`totalLen, this`msg, state, buf
      ensures Valid() && msg == old(msg) + data
    {
      hide Absorbed;
      TotalLength(|msg|, |data|);
      totalLen := (totalLen + |data|) % TWO64;
      ghost var m := msg;
      msg := msg + data;
      var copy := 0;
      assert data == data[..0] + data[0..];
      assert m + data[..0] == m;
      if bufLen > 0 {
        copy := FillPartialBlock(data, m);
      }
      AppendAssoc(m, data[..copy], data[copy..]);
      assert data[..copy] + data[copy..] == data;
      AbsorbBlocks(data[copy..], m + data[..copy]);
    }

    /** Feeds the marker and zero bytes until 8 bytes are missing from a full block. */
    method FeedZeros()
      requires Valid()
      modifies this`bufLen, this`totalLen, this`msg, state, buf
      ensures Valid() && msg == old(msg) + [0x80] + Zeros(PadZeros(|old(msg)|)) && bufLen == 56
    {
      hide Absorbed, PadZeros;
      Update([0x80]);
      ghost var marked := msg;
      ghost var z := 0;
      assert msg == marked + Zeros(0);
      PadZerosStop(|old(msg)|, z);
      while bufLen != 56
        invariant Valid() && z <= PadZeros(|old(msg)|) && msg == marked + Zeros(z)
        decreases PadZeros(|old(msg)|) - z
      {
        PadZerosStop(|old(msg)|, z);
        assert Zeros(z) + [0] == Zeros(z + 1);
        AppendAssoc(marked, Zeros(z), [0]);
        Update([0x00]);
        z := z + 1;
      }
      PadZerosStop(|old(msg)|, z);
    }

    /** Feeds the 64-bit message length, most significant byte first. */
    method FeedLength(bits: nat)
      requires Valid()
      modifies this`bufLen, this`totalLen, this`msg, state, buf
      ensures Valid() && msg == old(msg) + BigEndian(bits, 8)
    {
      hide Absorbed, ShiftBytes, ByteOf;
      var i := 8;
      while i > 0
        invariant i <= 8 && Valid() && msg + BigEndian(bits, i) == old(msg) + BigEndian(bits, 8)
      {
        i := i - 1;
        AppendAssoc(msg, [ByteOf(ShiftBytes(bits, i))], BigEndian(bits, i));
        Update([ByteOf(ShiftBytes(bits, i))]);
      }
      assert msg + [] == msg;
    }

    /** Pads, and writes the digest of everything fed in; the context is spent. */
    method Final(hash: array<byte>)
      requires Valid() && hash.Length >= 32 && hash != buf
      modifies this`bufLen, this`totalLen, this`msg, state, buf, hash
      ensures hash[..32] == Digest(old(msg))
      ensures hash[32..] == old(hash[32..])
    {
      hide HashBlocks, HashBytes, BigEndian, PadZeros;
      var bits := totalLen * 8 % TWO64;
      TotalLength(|msg|, 0);
      FeedZeros();
      FeedLength(bits);
      assert msg == Pad(old(msg));
      assert msg[..|msg|] == msg;
      assert state[..] == HashBlocks(IV, msg);
      WriteHash(state, hash);
    }
  }

  /** The eight state words as 32 bytes, most significant byte first. */
  method WriteHash(state: array<Word>, hash: array<byte>)
    requires state.Length == 8 && hash.Length >= 32
    modifies hash
    ensures hash[..32] == HashBytes(state[..], 8)
    ensures hash[32..] == old(hash[32..])
  {
    hide HashBytes, WordBytes;
    HashBytesStep(state[..], 0);
    for i := 0 to 8
      invariant hash[..4 * i] == HashBytes(state[..], i)
      invariant hash[32..] == old(hash[32..])
    {
      var w := state[i];
      ghost var before := hash[..4 * i];
      hash[4 * i] := ((w >> 24) & 0xff) as byte;
      hash[4 * i + 1] := ((w >> 16) & 0xff) as byte;
      hash[4 * i + 2] := ((w >> 8) & 0xff) as byte;
      hash[4 * i + 3] := (w & 0xff) as byte;
      WordBytesAre(w);
      HashBytesStep(state[..], i);
      assert hash[..4 * i + 4] == before + WordBytes(w);
    }
  }

  lemma WordBytesAre(w: Word)
    ensures |WordBytes(w)| == 4
    ensures WordBytes(w)[0] == ((w >> 24) & 0xff) as byte && WordBytes(w)[1] == ((w >> 16) & 0xff) as byte
    ensures WordBytes(w)[2] == ((w >> 8) & 0xff) as byte && WordBytes(w)[3] == (w & 0xff) as byte
  {
  }

  lemma HashBytesStep(h: Hash, n: nat)
    requires n < 8
    ensures HashBytes(h, 0) == []
    ensures HashBytes(h, n + 1) == HashBytes(h, n) + WordBytes(h[n])
  {
  }

  method ExpandSchedule(block: Block) returns (W: array<Word>)
    ensures fresh(W) && W.Length == 64
    ensures forall t :: 0 <= t < 64 ==> W[t] == Schedule(block, t)
  {
    hide SmallSigma0, SmallSigma1, SIG0, SIG1, BigEndianWord, Add;
    W := new Word[64];
    for i := 0 to 16
      invariant forall t :: 0 <= t < i ==> W[t] == Schedule(block, t)
    {
      W[i] := BigEndianWord(block[i * 4], block[i * 4 + 1], block[i * 4 + 2], block[i * 4 + 3]);
    }
    for i := 16 to 64
      invariant forall t :: 0 <= t < i ==> W[t] == Schedule(block, t)
    {
      W[i] := Add(Add(Add(SIG1(W[i - 2]), W[i - 7]), SIG0(W[i - 15])), W[i - 16]);
    }
  }

  method MixRounds(v0: Vars, block: Block, W: array<Word>) returns (v: Vars)
    requires W.Length == 64 && forall t :: 0 <= t < 64 ==> W[t] == Schedule(block, t)
    ensures v == Rounds(v0, block, 64)
  {
    hide BigSigma0, BigSigma1, Ch, Maj, EP0, EP1, Schedule, K, Add;
    var a, b, c, d := v0.a, v0.b, v0.c, v0.d;
    var e, f, g, h := v0.e, v0.f, v0.g, v0.h;
    for i := 0 to 64
      invariant Vars(a, b, c, d, e, f, g, h) == Rounds(v0, block, i)
    {
      var t1 := Add(Add(Add(Add(h, EP1(e)), Ch(e, f, g)), K(i)), W[i]);
      var t2 := Add(EP0(a), Maj(a, b, c));
      h := g; g := f; f := e;
      e := Add(d, t1);
      d := c; c := b; b := a;
      a := Add(t1, t2);
    }
    v := Vars(a, b, c, d, e, f, g, h);
  }

  /** The state is the fold over the full blocks of m, and `tail` is the rest of m. */
  ghost predicate Absorbed(state: seq<Word>, tail: seq<byte>, m: seq<byte>) {
    && |state| == 8 && |tail| == |m| % 64
    && tail == m[|m| - |m| % 64..]
    && state == HashBlocks(IV, m[..|m| - |m| % 64])
  }

  /** The 64-bit counter counts modulo 2^64, and so does the bit length made from it. */
  lemma TotalLength(n: nat, more: nat)
    ensures (n % TWO64 + more) % TWO64 == (n + more) % TWO64
    ensures n % TWO64 * 8 % TWO64 == BitLength(n)
  {
    var q, r := n / TWO64, n % TWO64;
    WholeTurns(q, r + more);
    WholeTurns(8 * q, 8 * r);
    assert TWO64 * (8 * q) + 8 * r == 8 * n;
  }

  lemma WholeTurns(q: nat, x: nat)
    ensures (TWO64 * q + x) % TWO64 == x % TWO64
  {
    assert TWO64 * q + x == TWO64 * (q + x / TWO64) + x % TWO64;
  }

  lemma PadZerosStop(n: nat, z: nat)
    ensures PadZeros(n) < 64
    ensures z <= PadZeros(n) ==> ((n + 1 + z) % 64 == 56 <==> z == PadZeros(n))
  {
    PadZerosIsLeast(n, z);
  }

  /** Bytes that at most fill the partial block: either they stay buffered or they complete a block. */
  lemma AbsorbTail(state: seq<Word>, tail: seq<byte>, m: seq<byte>, more: seq<byte>)
    requires Absorbed(state, tail, m) && |tail| + |more| <= 64
    ensures |tail| == |m| % 64 && |state| == 8
    ensures |tail| + |more| < 64 ==> Absorbed(state, tail + more, m + more) && |m + more| % 64 == |tail| + |more|
    ensures |tail| + |more| == 64 ==> Absorbed(Compress(state, tail + more), [], m + more) && |m + more| % 64 == 0
  {
    hide Compress, HashBlocks;
    var full := m[..|m| - |m| % 64];
    assert m + more == full + (tail + more);
    if |tail| + |more| == 64 {
      HashOneMore(IV, full, tail + more);
      assert (m + more)[..|m + more|] == m + more;
    } else {
      assert |m + more| % 64 == |tail| + |more|;
      assert (m + more)[..|full|] == full;
    }
  }
}
