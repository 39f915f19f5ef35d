/** The one-block example that accompanies FIPS 180-4: the digest of "abc", word by word and round by round. */
module Sha256Sample {
  import opened Bytes
  import opened Sha256Spec

  const ABC: seq<byte> := [0x61, 0x62, 0x63]

  const ABC_DIGEST: seq<byte> := [
    0xba, 0x78, 0x16, 0xbf, 0x8f, 0x01, 0xcf, 0xea,
    0x41, 0x41, 0x40, 0xde, 0x5d, 0xae, 0x22, 0x23,
    0xb0, 0x03, 0x61, 0xa3, 0x96, 0x17, 0x7a, 0x9c,
    0xb4, 0x10, 0xff, 0x61, 0xf2, 0x00, 0x15, 0xad
  ]

  /** The hash value of "abc" as words. */
  const ABC_HASH: Hash := [
    0xba7816bf, 0x8f01cfea, 0x414140de, 0x5dae2223,
    0xb00361a3, 0x96177a9c, 0xb410ff61, 0xf20015ad
  ]

  /** The padded message is one block. */
  lemma AbcPadded()
    ensures |Pad(ABC)| == 64 && IsAbc(Pad(ABC))
  {
    hide BigEndian;
    LengthBytes();
    assert PadZeros(3) == 52 && BitLength(3) == 24;
    var p := Pad(ABC);
    assert p == [0x61, 0x62, 0x63, 0x80] + Zeros(52) + BigEndian(24, 8);
    assert p[..4] == [0x61, 0x62, 0x63, 0x80];
    assert p[60..] == BigEndian(24, 8)[4..];
    assert forall k :: 4 <= k < 56 ==> p[k] == Zeros(52)[k - 4];
    assert forall k :: 56 <= k < 60 ==> p[k] == BigEndian(24, 8)[k - 56];
  }

  lemma LengthBytes()
    ensures BigEndian(24, 8) == [0, 0, 0, 0, 0, 0, 0, 24]
  {
    hide BigEndian;
    SmallBigEndian(24, 8);
    assert Zeros(7) == [0, 0, 0, 0, 0, 0, 0];
  }

  /** A number below 256 has one byte behind zeros. */
  lemma {:induction false} SmallBigEndian(n: nat, k: nat)
    requires n < 256 && k > 0
    ensures BigEndian(n, k) == Zeros(k - 1) + [ByteOf(n)]
  {
    if k == 1 {
    } else {
      SmallBigEndian(n, k - 1);
      ShiftedOut(n, k - 1);
    }
  }

  lemma {:induction false} ShiftedOut(n: nat, i: nat)
    requires n < 256 && i > 0
    ensures ShiftBytes(n, i) == 0
  {
    if i == 1 {
    } else {
      ShiftedOut(n, i - 1);
    }
  }

  ghost predicate IsAbc(block: Block) {
    && block[..4] == [0x61, 0x62, 0x63, 0x80] && block[60..] == [0, 0, 0, 24]
    && forall k :: 4 <= k < 60 ==> block[k] == 0
  }

  // ---------- the message schedule ----------

  predicate Has(block: Block, t: nat, w: Word)
    requires t < 64
  {
    Schedule(block, t) == w
  }

  predicate HasFour(block: Block, t: nat, w0: Word, w1: Word, w2: Word, w3: Word)
    requires t + 4 <= 64
  {
    Has(block, t, w0) && Has(block, t + 1, w1) && Has(block, t + 2, w2) && Has(block, t + 3, w3)
  }

  predicate Words0(block: Block) {
    && HasFour(block, 0, 0x61626380, 0x00000000, 0x00000000, 0x00000000)
    && HasFour(block, 4, 0x00000000, 0x00000000, 0x00000000, 0x00000000)
    && HasFour(block, 8, 0x00000000, 0x00000000, 0x00000000, 0x00000000)
    && HasFour(block, 12, 0x00000000, 0x00000000, 0x00000000, 0x00000018)
  }

  predicate Words16(block: Block) {
    && HasFour(block, 16, 0x61626380, 0x000f0000, 0x7da86405, 0x600003c6)
    && HasFour(block, 20, 0x3e9d7b78, 0x0183fc00, 0x12dcbfdb, 0xe2e2c38e)
    && HasFour(block, 24, 0xc8215c1a, 0xb73679a2, 0xe5bc3909, 0x32663c5b)
    && HasFour(block, 28, 0x9d209d67, 0xec8726cb, 0x702138a4, 0xd3b7973b)
  }

  predicate Words32(block: Block) {
    && HasFour(block, 32, 0x93f5997f, 0x3b68ba73, 0xaff4ffc1, 0xf10a5c62)
    && HasFour(block, 36, 0x0a8b3996, 0x72af830a, 0x9409e33e, 0x24641522)
    && HasFour(block, 40, 0x9f47bf94, 0xf0a64f5a, 0x3e246a79, 0x27333ba3)
    && HasFour(block, 44, 0x0c4763f2, 0x840abf27, 0x7a290d5d, 0x065c43da)
  }

  predicate Words48(block: Block) {
    && HasFour(block, 48, 0xfb3e89cb, 0xcc7617db, 0xb9e66c34, 0xa9993667)
    && HasFour(block, 52, 0x84badedd, 0xc21462bc, 0x1487472c, 0xb20f7a99)
    && HasFour(block, 56, 0xef57b9cd, 0xebe6b238, 0x9fe3095e, 0x78bc8d4b)
    && HasFour(block, 60, 0xa43fcf15, 0x668b2ff8, 0xeeaba2cc, 0x12b1edeb)
  }

  lemma FirstWords(block: Block)
    requires IsAbc(block)
    ensures Words0(block)
  {
    assert block[0] == block[..4][0] && block[1] == block[..4][1];
    assert block[2] == block[..4][2] && block[3] == block[..4][3];
    assert block[60] == block[60..][0] && block[61] == block[60..][1];
    assert block[62] == block[60..][2] && block[63] == block[60..][3];
  }

  lemma WordTo(block: Block, t: nat, w2: Word, w7: Word, w15: Word, w16: Word, w: Word)
    requires 16 <= t < 64 && Has(block, t - 2, w2) && Has(block, t - 7, w7)
    requires Has(block, t - 15, w15) && Has(block, t - 16, w16)
    requires w == Add(Add(Add(SmallSigma1(w2), w7), SmallSigma0(w15)), w16)
    ensures Has(block, t, w)
  {
  }

  lemma WordsTo32(block: Block)
    requires Words0(block)
    ensures Words16(block)
  {
    hide Has;
    WordTo(block, 16, 0x00000000, 0x00000000, 0x00000000, 0x61626380, 0x61626380);
    WordTo(block, 17, 0x00000018, 0x00000000, 0x00000000, 0x00000000, 0x000f0000);
    WordTo(block, 18, 0x61626380, 0x00000000, 0x00000000, 0x00000000, 0x7da86405);
    WordTo(block, 19, 0x000f0000, 0x00000000, 0x00000000, 0x00000000, 0x600003c6);
    WordTo(block, 20, 0x7da86405, 0x00000000, 0x00000000, 0x00000000, 0x3e9d7b78);
    WordTo(block, 21, 0x600003c6, 0x00000000, 0x00000000, 0x00000000, 0x0183fc00);
    WordTo(block, 22, 0x3e9d7b78, 0x00000018, 0x00000000, 0x00000000, 0x12dcbfdb);
    WordTo(block, 23, 0x0183fc00, 0x61626380, 0x00000000, 0x00000000, 0xe2e2c38e);
    WordTo(block, 24, 0x12dcbfdb, 0x000f0000, 0x00000000, 0x00000000, 0xc8215c1a);
    WordTo(block, 25, 0xe2e2c38e, 0x7da86405, 0x00000000, 0x00000000, 0xb73679a2);
    WordTo(block, 26, 0xc8215c1a, 0x600003c6, 0x00000000, 0x00000000, 0xe5bc3909);
    WordTo(block, 27, 0xb73679a2, 0x3e9d7b78, 0x00000000, 0x00000000, 0x32663c5b);
    WordTo(block, 28, 0xe5bc3909, 0x0183fc00, 0x00000000, 0x00000000, 0x9d209d67);
    WordTo(block, 29, 0x32663c5b, 0x12dcbfdb, 0x00000000, 0x00000000, 0xec8726cb);
    WordTo(block, 30, 0x9d209d67, 0xe2e2c38e, 0x00000018, 0x00000000, 0x702138a4);
    WordTo(block, 31, 0xec8726cb, 0xc8215c1a, 0x61626380, 0x00000018, 0xd3b7973b);
  }

  lemma WordsTo48(block: Block)
    requires Words16(block)
    ensures Words32(block)
  {
    hide Has;
    WordTo(block, 32, 0x702138a4, 0xb73679a2, 0x000f0000, 0x61626380, 0x93f5997f);
    WordTo(block, 33, 0xd3b7973b, 0xe5bc3909, 0x7da86405, 0x000f0000, 0x3b68ba73);
    WordTo(block, 34, 0x93f5997f, 0x32663c5b, 0x600003c6, 0x7da86405, 0xaff4ffc1);
    WordTo(block, 35, 0x3b68ba73, 0x9d209d67, 0x3e9d7b78, 0x600003c6, 0xf10a5c62);
    WordTo(block, 36, 0xaff4ffc1, 0xec8726cb, 0x0183fc00, 0x3e9d7b78, 0x0a8b3996);
    WordTo(block, 37, 0xf10a5c62, 0x702138a4, 0x12dcbfdb, 0x0183fc00, 0x72af830a);
    WordTo(block, 38, 0x0a8b3996, 0xd3b7973b, 0xe2e2c38e, 0x12dcbfdb, 0x9409e33e);
    WordTo(block, 39, 0x72af830a, 0x93f5997f, 0xc8215c1a, 0xe2e2c38e, 0x24641522);
    WordTo(block, 40, 0x9409e33e, 0x3b68ba73, 0xb73679a2, 0xc8215c1a, 0x9f47bf94);
    WordTo(block, 41, 0x24641522, 0xaff4ffc1, 0xe5bc3909, 0xb73679a2, 0xf0a64f5a);
    WordTo(block, 42, 0x9f47bf94, 0xf10a5c62, 0x32663c5b, 0xe5bc3909, 0x3e246a79);
    WordTo(block, 43, 0xf0a64f5a, 0x0a8b3996, 0x9d209d67, 0x32663c5b, 0x27333ba3);
    WordTo(block, 44, 0x3e246a79, 0x72af830a, 0xec8726cb, 0x9d209d67, 0x0c4763f2);
    WordTo(block, 45, 0x27333ba3, 0x9409e33e, 0x702138a4, 0xec8726cb, 0x840abf27);
    WordTo(block, 46, 0x0c4763f2, 0x24641522, 0xd3b7973b, 0x702138a4, 0x7a290d5d);
    WordTo(block, 47, 0x840abf27, 0x9f47bf94, 0x93f5997f, 0xd3b7973b, 0x065c43da);
  }

  lemma WordsTo64(block: Block)
    requires Words32(block)
    ensures Words48(block)
  {
    hide Has;
    WordTo(block, 48, 0x7a290d5d, 0xf0a64f5a, 0x3b68ba73, 0x93f5997f, 0xfb3e89cb);
    WordTo(block, 49, 0x065c43da, 0x3e246a79, 0xaff4ffc1, 0x3b68ba73, 0xcc7617db);
    WordTo(block, 50, 0xfb3e89cb, 0x27333ba3, 0xf10a5c62, 0xaff4ffc1, 0xb9e66c34);
    WordTo(block, 51, 0xcc7617db, 0x0c4763f2, 0x0a8b3996, 0xf10a5c62, 0xa9993667);
    WordTo(block, 52, 0xb9e66c34, 0x840abf27, 0x72af830a, 0x0a8b3996, 0x84badedd);
    WordTo(block, 53, 0xa9993667, 0x7a290d5d, 0x9409e33e, 0x72af830a, 0xc21462bc);
    WordTo(block, 54, 0x84badedd, 0x065c43da, 0x24641522, 0x9409e33e, 0x1487472c);
    WordTo(block, 55, 0xc21462bc, 0xfb3e89cb, 0x9f47bf94, 0x24641522, 0xb20f7a99);
    WordTo(block, 56, 0x1487472c, 0xcc7617db, 0xf0a64f5a, 0x9f47bf94, 0xef57b9cd);
    WordTo(block, 57, 0xb20f7a99, 0xb9e66c34, 0x3e246a79, 0xf0a64f5a, 0xebe6b238);
    WordTo(block, 58, 0xef57b9cd, 0xa9993667, 0x27333ba3, 0x3e246a79, 0x9fe3095e);
    WordTo(block, 59, 0xebe6b238, 0x84badedd, 0x0c4763f2, 0x27333ba3, 0x78bc8d4b);
    WordTo(block, 60, 0x9fe3095e, 0xc21462bc, 0x840abf27, 0x0c4763f2, 0xa43fcf15);
    WordTo(block, 61, 0x78bc8d4b, 0x1487472c, 0x7a290d5d, 0x840abf27, 0x668b2ff8);
    WordTo(block, 62, 0xa43fcf15, 0xb20f7a99, 0x065c43da, 0x7a290d5d, 0xeeaba2cc);
    WordTo(block, 63, 0x668b2ff8, 0xef57b9cd, 0xfb3e89cb, 0x065c43da, 0x12b1edeb);
  }

  // ---------- the rounds ----------

  predicate After(block: Block, t: nat, v: Vars)
    requires t <= 64
  {
    Rounds(Vars(IV[0], IV[1], IV[2], IV[3], IV[4], IV[5], IV[6], IV[7]), block, t) == v
  }

  /** One round, by the two words that it makes anew. */
  lemma RoundTo(block: Block, t: nat, v: Vars, k: Word, w: Word, a: Word, e: Word) returns (after: Vars)
    requires t < 64 && After(block, t, v) && K(t) == k && Has(block, t, w)
    requires Round(v, k, w).a == a && Round(v, k, w).e == e
    ensures after == Vars(a, v.a, v.b, v.c, e, v.e, v.f, v.g) && After(block, t + 1, after)
  {
    after := Round(v, k, w);
  }

  const V0 := Vars(0x6a09e667, 0xbb67ae85, 0x3c6ef372, 0xa54ff53a,
                   0x510e527f, 0x9b05688c, 0x1f83d9ab, 0x5be0cd19)
  const V8 := Vars(0x85a07b5f, 0xe5030380, 0x2b4209f5, 0x04409a6a,
                    0x0c657a79, 0x9b27a401, 0x714260ad, 0x43ada245)
  const V16 := Vars(0xb0fa238e, 0xc0645fde, 0xd932eb16, 0x87912990,
                    0x07590dcd, 0x0b92f20c, 0x745a48de, 0x1e578218)
  const V24 := Vars(0xc5d53d8d, 0xa7a3623f, 0xc2606d6d, 0x9dc68b63,
                    0xaa47c347, 0x49f5114a, 0xe1257970, 0x8ada8930)
  const V32 := Vars(0x73b33bf5, 0xea992a22, 0xa0060b30, 0x363482c9,
                    0xba591112, 0x0109ab3a, 0xade79437, 0x6112a3b7)
  const V40 := Vars(0x79ea687a, 0x6dc57a8a, 0x34df1604, 0x41a65cb1,
                    0x1efbc0a0, 0xf0781bc8, 0xa507a53d, 0x0772a26b)
  const V48 := Vars(0x4172328d, 0xa14c14b0, 0x72ab4b91, 0x26628815,
                    0xfecf0bc6, 0xd57b94a9, 0xb7755da1, 0xa80f11f0)
  const V56 := Vars(0x38cc9913, 0x3ec45cdb, 0xf5702fdb, 0x101fd28f,
                    0x54cb266b, 0xe50e1b4f, 0x9f4787c3, 0x529e7d00)
  const V64 := Vars(0x506e3058, 0xd39a2165, 0x04d24d6c, 0xb85e2ce9,
                    0x5ef50f24, 0xfb121210, 0x948d25b6, 0x961f4894)

  lemma RoundsTo8(block: Block)
    requires Words0(block) && After(block, 0, V0)
    ensures After(block, 8, V8)
  {
    hide After, Has;
    var v := V0;
    v := RoundTo(block, 0, v, 0x428a2f98, 0x61626380, 0x5d6aebcd, 0xfa2a4622);
    v := RoundTo(block, 1, v, 0x71374491, 0x00000000, 0x5a6ad9ad, 0x78ce7989);
    v := RoundTo(block, 2, v, 0xb5c0fbcf, 0x00000000, 0xc8c347a7, 0xf92939eb);
    v := RoundTo(block, 3, v, 0xe9b5dba5, 0x00000000, 0xd550f666, 0x24e00850);
    v := RoundTo(block, 4, v, 0x3956c25b, 0x00000000, 0x04409a6a, 0x43ada245);
    v := RoundTo(block, 5, v, 0x59f111f1, 0x00000000, 0x2b4209f5, 0x714260ad);
    v := RoundTo(block, 6, v, 0x923f82a4, 0x00000000, 0xe5030380, 0x9b27a401);
    v := RoundTo(block, 7, v, 0xab1c5ed5, 0x00000000, 0x85a07b5f, 0x0c657a79);
  }

  lemma RoundsTo16(block: Block)
    requires Words0(block) && After(block, 8, V8)
    ensures After(block, 16, V16)
  {
    hide After, Has;
    var v := V8;
    v := RoundTo(block, 8, v, 0xd807aa98, 0x00000000, 0x8e04ecb9, 0x32ca2d8c);
    v := RoundTo(block, 9, v, 0x12835b01, 0x00000000, 0x8c87346b, 0x1cc92596);
    v := RoundTo(block, 10, v, 0x243185be, 0x00000000, 0x4798a3f4, 0x436b23e8);
    v := RoundTo(block, 11, v, 0x550c7dc3, 0x00000000, 0xf71fc5a9, 0x816fd6e9);
    v := RoundTo(block, 12, v, 0x72be5d74, 0x00000000, 0x87912990, 0x1e578218);
    v := RoundTo(block, 13, v, 0x80deb1fe, 0x00000000, 0xd932eb16, 0x745a48de);
    v := RoundTo(block, 14, v, 0x9bdc06a7, 0x00000000, 0xc0645fde, 0x0b92f20c);
    v := RoundTo(block, 15, v, 0xc19bf174, 0x00000018, 0xb0fa238e, 0x07590dcd);
  }

  lemma RoundsTo24(block: Block)
    requires Words16(block) && After(block, 16, V16)
    ensures After(block, 24, V24)
  {
    hide After, Has;
    var v := V16;
    v := RoundTo(block, 16, v, 0xe49b69c1, 0x61626380, 0x21da9a9b, 0x8034229c);
    v := RoundTo(block, 17, v, 0xefbe4786, 0x000f0000, 0xc2fbd9d1, 0x846ee454);
    v := RoundTo(block, 18, v, 0x0fc19dc6, 0x7da86405, 0xfe777bbf, 0xcc899961);
    v := RoundTo(block, 19, v, 0x240ca1cc, 0x600003c6, 0xe1f20c33, 0xb0638179);
    v := RoundTo(block, 20, v, 0x2de92c6f, 0x3e9d7b78, 0x9dc68b63, 0x8ada8930);
    v := RoundTo(block, 21, v, 0x4a7484aa, 0x0183fc00, 0xc2606d6d, 0xe1257970);
    v := RoundTo(block, 22, v, 0x5cb0a9dc, 0x12dcbfdb, 0xa7a3623f, 0x49f5114a);
    v := RoundTo(block, 23, v, 0x76f988da, 0xe2e2c38e, 0xc5d53d8d, 0xaa47c347);
  }

  lemma RoundsTo32(block: Block)
    requires Words16(block) && After(block, 24, V24)
    ensures After(block, 32, V32)
  {
    hide After, Has;
    var v := V24;
    v := RoundTo(block, 24, v, 0x983e5152, 0xc8215c1a, 0x1c2c2838, 0x2823ef91);
    v := RoundTo(block, 25, v, 0xa831c66d, 0xb73679a2, 0xcde8037d, 0x14383d8e);
    v := RoundTo(block, 26, v, 0xb00327c8, 0xe5bc3909, 0xb62ec4bc, 0xc74c6516);
    v := RoundTo(block, 27, v, 0xbf597fc7, 0x32663c5b, 0x77d37528, 0xedffbff8);
    v := RoundTo(block, 28, v, 0xc6e00bf3, 0x9d209d67, 0x363482c9, 0x6112a3b7);
    v := RoundTo(block, 29, v, 0xd5a79147, 0xec8726cb, 0xa0060b30, 0xade79437);
    v := RoundTo(block, 30, v, 0x06ca6351, 0x702138a4, 0xea992a22, 0x0109ab3a);
    v := RoundTo(block, 31, v, 0x14292967, 0xd3b7973b, 0x73b33bf5, 0xba591112);
  }

  lemma RoundsTo40(block: Block)
    requires Words32(block) && After(block, 32, V32)
    ensures After(block, 40, V40)
  {
    hide After, Has;
    var v := V32;
    v := RoundTo(block, 32, v, 0x27b70a85, 0x93f5997f, 0x98e12507, 0x9cd9f5f6);
    v := RoundTo(block, 33, v, 0x2e1b2138, 0x3b68ba73, 0xfe604df5, 0x59249dd3);
    v := RoundTo(block, 34, v, 0x4d2c6dfc, 0xaff4ffc1, 0xa9a7738c, 0x085f3833);
    v := RoundTo(block, 35, v, 0x53380d13, 0xf10a5c62, 0x65a0cfe4, 0xf4b002d6);
    v := RoundTo(block, 36, v, 0x650a7354, 0x0a8b3996, 0x41a65cb1, 0x0772a26b);
    v := RoundTo(block, 37, v, 0x766a0abb, 0x72af830a, 0x34df1604, 0xa507a53d);
    v := RoundTo(block, 38, v, 0x81c2c92e, 0x9409e33e, 0x6dc57a8a, 0xf0781bc8);
    v := RoundTo(block, 39, v, 0x92722c85, 0x24641522, 0x79ea687a, 0x1efbc0a0);
  }

  lemma RoundsTo48(block: Block)
    requires Words32(block) && After(block, 40, V40)
    ensures After(block, 48, V48)
  {
    hide After, Has;
    var v := V40;
    v := RoundTo(block, 40, v, 0xa2bfe8a1, 0x9f47bf94, 0xd6670766, 0x26352d63);
    v := RoundTo(block, 41, v, 0xa81a664b, 0xf0a64f5a, 0xdf46652f, 0x838b2711);
    v := RoundTo(block, 42, v, 0xc24b8b70, 0x3e246a79, 0x17aa0dfe, 0xdecd4715);
    v := RoundTo(block, 43, v, 0xc76c51a3, 0x27333ba3, 0x9d4baf93, 0xfda24c2e);
    v := RoundTo(block, 44, v, 0xd192e819, 0x0c4763f2, 0x26628815, 0xa80f11f0);
    v := RoundTo(block, 45, v, 0xd6990624, 0x840abf27, 0x72ab4b91, 0xb7755da1);
    v := RoundTo(block, 46, v, 0xf40e3585, 0x7a290d5d, 0xa14c14b0, 0xd57b94a9);
    v := RoundTo(block, 47, v, 0x106aa070, 0x065c43da, 0x4172328d, 0xfecf0bc6);
  }

  lemma RoundsTo56(block: Block)
    requires Words48(block) && After(block, 48, V48)
    ensures After(block, 56, V56)
  {
    hide After, Has;
    var v := V48;
    v := RoundTo(block, 48, v, 0x19a4c116, 0xfb3e89cb, 0x05757ceb, 0xbd714038);
    v := RoundTo(block, 49, v, 0x1e376c08, 0xcc7617db, 0xf11bfaa8, 0x6e5c390c);
    v := RoundTo(block, 50, v, 0x2748774c, 0xb9e66c34, 0x7a0508a1, 0x52f1ccf7);
    v := RoundTo(block, 51, v, 0x34b0bcb5, 0xa9993667, 0x886e7a22, 0x49231c1e);
    v := RoundTo(block, 52, v, 0x391c0cb3, 0x84badedd, 0x101fd28f, 0x529e7d00);
    v := RoundTo(block, 53, v, 0x4ed8aa4a, 0xc21462bc, 0xf5702fdb, 0x9f4787c3);
    v := RoundTo(block, 54, v, 0x5b9cca4f, 0x1487472c, 0x3ec45cdb, 0xe50e1b4f);
    v := RoundTo(block, 55, v, 0x682e6ff3, 0xb20f7a99, 0x38cc9913, 0x54cb266b);
  }

  lemma RoundsTo64(block: Block)
    requires Words48(block) && After(block, 56, V56)
    ensures After(block, 64, V64)
  {
    hide After, Has;
    var v := V56;
    v := RoundTo(block, 56, v, 0x748f82ee, 0xef57b9cd, 0xfcd1887b, 0x9b5e906c);
    v := RoundTo(block, 57, v, 0x78a5636f, 0xebe6b238, 0xc062d46f, 0x7e44008e);
    v := RoundTo(block, 58, v, 0x84c87814, 0x9fe3095e, 0xffb70472, 0x6d83bfc6);
    v := RoundTo(block, 59, v, 0x8cc70208, 0x78bc8d4b, 0xb6ae8fff, 0xb21bad3d);
    v := RoundTo(block, 60, v, 0x90befffa, 0xa43fcf15, 0xb85e2ce9, 0x961f4894);
    v := RoundTo(block, 61, v, 0xa4506ceb, 0x668b2ff8, 0x04d24d6c, 0x948d25b6);
    v := RoundTo(block, 62, v, 0xbef9a3f7, 0xeeaba2cc, 0xd39a2165, 0xfb121210);
    v := RoundTo(block, 63, v, 0xc67178f2, 0x12b1edeb, 0x506e3058, 0x5ef50f24);
  }

  lemma RoundsOfAbc(block: Block)
    requires IsAbc(block)
    ensures After(block, 64, V64)
  {
    hide Words0, Words16, Words32, Words48, IsAbc;
    assert After(block, 0, V0);
    hide After;
    FirstWords(block);
    WordsTo32(block);
    WordsTo48(block);
    WordsTo64(block);
    RoundsTo8(block);
    RoundsTo16(block);
    RoundsTo24(block);
    RoundsTo32(block);
    RoundsTo40(block);
    RoundsTo48(block);
    RoundsTo56(block);
    RoundsTo64(block);
  }

  // ---------- the digest ----------

  lemma CompressOfAbc(block: Block)
    requires After(block, 64, V64)
    ensures Compress(IV, block) == ABC_HASH
  {
    hide Rounds;
  }

  lemma HashBytesOfAbc()
    ensures HashBytes(ABC_HASH, 8) == ABC_DIGEST
  {
    assert HashBytes(ABC_HASH, 2) == ABC_DIGEST[..8];
    assert HashBytes(ABC_HASH, 4) == ABC_DIGEST[..16];
    assert HashBytes(ABC_HASH, 6) == ABC_DIGEST[..24];
  }

  lemma OneBlock(p: seq<byte>)
    requires |p| == 64
    ensures HashBlocks(IV, p) == Compress(IV, p)
  {
    hide Compress;
    assert p[..0] == [] && p[0..] == p;
  }

  /** SHA-256 of "abc". */
  lemma DigestOfAbc()
    ensures Digest(ABC) == ABC_DIGEST
  {
    hide Rounds, After, Pad, Compress, HashBlocks, HashBytes;
    var block := Pad(ABC);
    AbcPadded();
    RoundsOfAbc(block);
    CompressOfAbc(block);
    OneBlock(block);
    HashBytesOfAbc();
  }
}
