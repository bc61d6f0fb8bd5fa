/** The two serialized transactions that the source documents byte by byte. */
module CodecExamples {
  import opened Numbers
  import opened Options
  import opened VarInts
  import opened Amounts
  import opened ScriptCodec
  import opened CoinsTypes
  import opened CoinsMask
  import opened CoinsCodec
  import opened CodecLaws

  function ToKeyHash(h: seq<Byte>): seq<Byte> {
    [0x76, 0xa9, 20] + h + [0x88, 0xac]
  }

  // An output to a key hash: the amount, the tag, the hash.
  lemma KeyHashOut(curve: Curve, nValue: nat, h: seq<Byte>)
    requires |h| == 20 && nValue < 0x1_0000_0000_0000_0000 && Compressed(nValue) < 0x1_0000_0000_0000_0000
    ensures TxOutBytes(curve, TxOut(nValue, ToKeyHash(h))) == VarInt(Compressed(nValue)) + ([0] + h)
  {
    hide VarInt, Compressed, ScriptBytes;
    HashScripts(curve, h);
    IsQuotient(nValue, TWO_64, 0, nValue);
    IsQuotient(Compressed(nValue), TWO_64, 0, Compressed(nValue));
  }

  // ---------------------------------------------------------------- one output

  const HASH: seq<Byte> := [0x81, 0x61, 0x15, 0x94, 0x4e, 0x07, 0x7f, 0xe7, 0xc8, 0x03, 0xcf, 0xa5, 0x7f, 0x29, 0xb3, 0x6b, 0xf8, 0x7c, 0x1d, 0x35]

  // Version 1, not a coinbase, 600 coins at the second output, height 203998.
  function One(): Coins {
    Coins(false, [TxOut(-1, []), TxOut(60_000_000_000, ToKeyHash(HASH))], 203_998, 1)
  }

  lemma OneCode()
    ensures !One().IsPruned() && HeaderCode(One()) == 4 && MaskFrom(One().vout, 0, UsedBytes(One().vout)) == []
  {
    hide ToKeyHash;
    var c := One();
    assert !c.vout[1].IsNull();
    assert ByteCount(c.vout) == 0 && UsedBytes(c.vout) == 0;
  }

  lemma OneNumbers()
    ensures VarIntOf(1) == [0x01] && VarInt(4) == [0x04] && VarIntOf(203_998) == [0x8b, 0xb8, 0x5e]
    ensures Compressed(60_000_000_000) == 600 && VarInt(600) == [0x83, 0x58]
  {
    BigAmountCode(60);
  }

  lemma OneIs(curve: Curve)
    ensures !One().IsPruned()
    ensures CoinsBytes(curve, One()) == [0x01, 0x04, 0x83, 0x58, 0x00] + HASH + [0x8b, 0xb8, 0x5e]
  {
    hide VarInt, VarIntOf, Compressed, HASH, HeaderCode, MaskFrom, UsedBytes, ToKeyHash;
    OneCode();
    OneNumbers();
    HashSize();
    KeyHashOut(curve, 60_000_000_000, HASH);
    OneOut(curve);
  }

  lemma HashSize()
    ensures |HASH| == 20
  {
  }

  lemma OneOut(curve: Curve)
    ensures OutsFrom(curve, One().vout, 0) == TxOutBytes(curve, TxOut(60_000_000_000, ToKeyHash(HASH)))
  {
    hide TxOutBytes, ToKeyHash, HASH;
    var vout := One().vout;
    assert vout[0].IsNull() && !vout[1].IsNull();
    assert OutsFrom(curve, vout, 2) == [];
    assert OutsFrom(curve, vout, 1) == TxOutBytes(curve, vout[1]) + [];
    assert OutsFrom(curve, vout, 0) == [] + OutsFrom(curve, vout, 1);
  }

  // ---------------------------------------------------------------- two outputs of a coinbase

  const HASH_4: seq<Byte> := [0x61, 0xb0, 0x1c, 0xaa, 0xb5, 0x0f, 0x1b, 0x8e, 0x9c, 0x50, 0xa5, 0x05, 0x7e, 0xb4, 0x3c, 0x2d, 0x95, 0x63, 0xa4, 0xee]
  const HASH_16: seq<Byte> := [0x8c, 0x98, 0x8f, 0x1a, 0x4a, 0x4d, 0xe2, 0x16, 0x1e, 0x0f, 0x50, 0xaa, 0xc7, 0xf1, 0x7e, 0x7f, 0x95, 0x55, 0xca, 0xa4]

  // Version 1, a coinbase, its fifth and seventeenth outputs left, height 120891.
  function Two(): Coins {
    Coins(true,
          seq(17, i requires 0 <= i < 17 =>
            if i == 4 then TxOut(234_925_952, ToKeyHash(HASH_4))
            else if i == 16 then TxOut(110_397, ToKeyHash(HASH_16))
            else TxOut(-1, [])),
          120_891, 1)
  }

  lemma TwoMask()
    ensures ByteCount(Two().vout) == 2 && MaskByte(Two().vout, 0) == 0x04 && MaskByte(Two().vout, 1) == 0x40
  {
    hide ToKeyHash;
    var vout := Two().vout;
    assert forall p | 0 <= p < 8 :: AvailAt(vout, 0, p) <==> p == 2;
    assert forall p | 0 <= p < 8 :: AvailAt(vout, 1, p) <==> p == 6;
    OneBit(vout, 0, 2, 8);
    OneBit(vout, 1, 6, 8);
    assert Pow(2, 2) == 4 && Pow(2, 6) == 64;
  }

  lemma {:induction false} OneBit(vout: seq<TxOut>, b: nat, q: nat, n: nat)
    requires forall p | 0 <= p < n :: AvailAt(vout, b, p) <==> p == q
    ensures MaskBits(vout, b, n) == if q < n then Pow(2, q) else 0
  {
    hide Pow, Avail;
    if n > 0 {
      OneBit(vout, b, q, n - 1);
    }
  }

  lemma TwoCode()
    ensures !Two().IsPruned() && HeaderCode(Two()) == 9 && MaskFrom(Two().vout, 0, UsedBytes(Two().vout)) == [0x04, 0x40]
  {
    hide ToKeyHash, MaskByte;
    var vout := Two().vout;
    TwoMask();
    assert !vout[4].IsNull();
    assert UsedBytes(vout) == 2;
    assert Nonzero(vout, 0) == 0 && Nonzero(vout, 1) == 1 && Nonzero(vout, 2) == 2;
    assert MaskFrom(vout, 2, 2) == [] && MaskFrom(vout, 1, 2) == [0x40];
  }

  lemma TwoAmounts()
    ensures Compressed(234_925_952) == 2_114_333_561 && Compressed(110_397) == 993_571
  {
    hide Strip, CodeOf;
    AmountCode(23_492_595, 2, 0);
    AmountCode(11_039, 7, 0);
  }

  lemma TwoNumbers()
    ensures VarInt(9) == [0x09] && VarIntOf(120_891) == [0x86, 0xaf, 0x3b]
    ensures VarInt(993_571) == [0xbb, 0xd1, 0x23]
  {
  }

  lemma LongNumber()
    ensures VarInt(2_114_333_561) == [0x86, 0xef, 0x97, 0xd5, 0x79]
  {
    assert Leading(6) == [0x86];
    hide Leading;
    NextBytes(1_007, 6);
    NextBytes(129_047, 1_007);
    NextBytes(16_518_229, 129_047);
    LastByte(2_114_333_561, 16_518_229);
  }

  lemma {:induction false} SkipNull(curve: Curve, vout: seq<TxOut>, i: nat, j: nat)
    requires i <= j <= |vout| && forall k | i <= k < j :: vout[k].IsNull()
    ensures OutsFrom(curve, vout, i) == OutsFrom(curve, vout, j)
    decreases j - i
  {
    hide TxOutBytes;
    if i < j {
      SkipNull(curve, vout, i + 1, j);
      assert OutsFrom(curve, vout, i) == [] + OutsFrom(curve, vout, i + 1);
    }
  }

  lemma TwoOuts(curve: Curve)
    ensures OutsFrom(curve, Two().vout, 0) ==
      TxOutBytes(curve, TxOut(234_925_952, ToKeyHash(HASH_4))) + TxOutBytes(curve, TxOut(110_397, ToKeyHash(HASH_16)))
  {
    hide TxOutBytes, ToKeyHash, HASH_4, HASH_16, Two, OutsFrom;
    var vout := Two().vout;
    OutputsOfTwo();
    SkipNull(curve, vout, 0, 4);
    SkipNull(curve, vout, 5, 16);
    NextOut(curve, vout, 4);
    NextOut(curve, vout, 16);
    NoOutsBeyond(curve, vout, 17);
    assert TxOutBytes(curve, vout[16]) + [] == TxOutBytes(curve, vout[16]);
  }

  lemma OutputsOfTwo()
    ensures var vout := Two().vout;
      && |vout| == 17 && (forall i | 0 <= i < 17 && i != 4 && i != 16 :: vout[i].IsNull())
      && vout[4] == TxOut(234_925_952, ToKeyHash(HASH_4)) && vout[16] == TxOut(110_397, ToKeyHash(HASH_16))
  {
    hide ToKeyHash, HASH_4, HASH_16;
  }

  lemma NextOut(curve: Curve, vout: seq<TxOut>, i: nat)
    requires i < |vout| && !vout[i].IsNull()
    ensures OutsFrom(curve, vout, i) == TxOutBytes(curve, vout[i]) + OutsFrom(curve, vout, i + 1)
  {
    hide TxOutBytes;
  }

  lemma TwoIs(curve: Curve)
    ensures !Two().IsPruned()
    ensures CoinsBytes(curve, Two()) ==
      [0x01, 0x09, 0x04, 0x40, 0x86, 0xef, 0x97, 0xd5, 0x79, 0x00] + HASH_4 + [0xbb, 0xd1, 0x23, 0x00] + HASH_16 + [0x86, 0xaf, 0x3b]
  {
    hide VarInt, VarIntOf, Compressed, HASH_4, HASH_16, HeaderCode, MaskFrom, UsedBytes, ToKeyHash, OutsFrom;
    TwoCode();
    TwoAmounts();
    TwoNumbers();
    LongNumber();
    OneNumbers();
    HashSizes();
    KeyHashOut(curve, 234_925_952, HASH_4);
    KeyHashOut(curve, 110_397, HASH_16);
    TwoOuts(curve);
  }

  lemma HashSizes()
    ensures |HASH_4| == 20 == |HASH_16|
  {
  }
}
