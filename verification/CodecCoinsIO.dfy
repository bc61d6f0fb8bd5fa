/** CCoins::Serialize, GetSerializeSize and Unserialize, proved against the coins format. */
module CoinsIO {
  import opened Numbers
  import opened Options
  import opened VarInts
  import opened ScriptCodec
  import opened CoinsTypes
  import opened CoinsMask
  import opened CoinsCodec

  predicate Writable(c: Coins) {
    !c.IsPruned() && |c.vout| < TWO_32 / 2 && c.nVersion < TWO_32 / 2 && c.nHeight < TWO_32 / 2
  }

  // nCode, from the mask's count of non-zero bytes.
  method FormCode(c: Coins, nMaskCode: nat) returns (nCode: nat)
    requires Writable(c) && nMaskCode == Nonzero(c.vout, UsedBytes(c.vout))
    ensures nCode == HeaderCode(c) < Pow(2, 32)
  {
    hide MaskByte, Nonzero, UsedBytes;
    PowersOfTwo();
    MaskNeeded(c);
    NonzeroSmall(c.vout);
    var fFirst := |c.vout| > 0 && !c.vout[0].IsNull();
    var fSecond := |c.vout| > 1 && !c.vout[1].IsNull();
    assert fFirst || fSecond || nMaskCode > 0;
    nCode := 8 * (nMaskCode - (if fFirst || fSecond then 0 else 1))
      + (if c.fCoinBase then 1 else 0) + (if fFirst then 2 else 0) + (if fSecond then 4 else 0);
  }

  method Serialize(curve: Curve, c: Coins, s: CDataStream)
    requires Writable(c)
    modifies s
    ensures s.data == old(s.data) + CoinsBytes(curve, c)
  {
    hide VarInt, VarIntOf, HeaderCode, MaskByte, Used, Nonzero, TxOutBytes, MaskFrom, OutsFrom, ByteCount;
    PowersOfTwo();
    var nMaskSize, nMaskCode := CalcMaskSize(c.vout);
    var nCode := FormCode(c, nMaskCode);
    WriteVarInt(s, c.nVersion, 32);
    WriteVarInt(s, nCode, 32);
    VarIntOfNat(nCode);
    WriteMask(c.vout, nMaskSize, s);
    WriteOuts(curve, c.vout, s);
    WriteVarInt(s, c.nHeight, 32);
  }

  method WriteMask(vout: seq<TxOut>, nMaskSize: nat, s: CDataStream)
    modifies s
    ensures s.data == old(s.data) + MaskFrom(vout, 0, nMaskSize)
  {
    hide MaskByte;
    var b := 0;
    ghost var all := old(s.data) + MaskFrom(vout, 0, nMaskSize);
    while b < nMaskSize
      invariant 0 <= b <= nMaskSize && s.data + MaskFrom(vout, b, nMaskSize) == all
    {
      var chAvail := FormByte(vout, b);
      s.Write([chAvail]);
      b := b + 1;
    }
  }

  method WriteOuts(curve: Curve, vout: seq<TxOut>, s: CDataStream)
    modifies s
    ensures s.data == old(s.data) + OutsFrom(curve, vout, 0)
  {
    hide TxOutBytes;
    var i := 0;
    ghost var all := old(s.data) + OutsFrom(curve, vout, 0);
    while i < |vout|
      invariant 0 <= i <= |vout| && s.data + OutsFrom(curve, vout, i) == all
    {
      if !vout[i].IsNull() {
        SerializeTxOut(curve, vout[i], s);
      } else {
        OutsSkip(curve, vout, i);
      }
      i := i + 1;
    }
  }

  // The number of bytes Serialize writes.
  method GetSerializeSize(curve: Curve, c: Coins) returns (nSize: nat)
    requires Writable(c)
    ensures nSize == |CoinsBytes(curve, c)|
  {
    hide VarInt, VarIntOf, HeaderCode, MaskByte, Used, Nonzero, TxOutBytes, MaskFrom, OutsFrom, ByteCount;
    var nMaskSize, nMaskCode := CalcMaskSize(c.vout);
    var nCode := FormCode(c, nMaskCode);
    VarIntOfNat(nCode);
    var version := GetSizeOfVarInt(c.nVersion);
    var code := GetSizeOfVarInt(nCode);
    MaskLength(c.vout, 0, nMaskSize);
    var outs := OutsSize(curve, c.vout);
    var height := GetSizeOfVarInt(c.nHeight);
    nSize := version + code + nMaskSize + outs + height;
  }

  lemma {:induction false} MaskLength(vout: seq<TxOut>, b: nat, n: nat)
    requires b <= n
    ensures |MaskFrom(vout, b, n)| == n - b
    decreases n - b
  {
    if b < n {
      MaskLength(vout, b + 1, n);
    }
  }

  method OutsSize(curve: Curve, vout: seq<TxOut>) returns (nSize: nat)
    ensures nSize == |OutsFrom(curve, vout, 0)|
  {
    hide TxOutBytes;
    nSize := 0;
    var i := 0;
    while i < |vout|
      invariant 0 <= i <= |vout| && nSize + |OutsFrom(curve, vout, i)| == |OutsFrom(curve, vout, 0)|
    {
      if !vout[i].IsNull() {
        var n := TxOutSize(curve, vout[i]);
        nSize := nSize + n;
      }
      i := i + 1;
    }
  }

  // None at the end of the stream, where the source throws.
  method Unserialize(curve: Curve, s: CDataStream) returns (r: Option<Coins>)
    modifies s
    ensures ParseCoins(curve, old(s.data)) == if r.None? then None else Some((r.value, s.data))
  {
    hide ParseVarInt, ParseMask, ParseOuts, CleanUp;
    var nVersion := ReadVarInt(s, TWO_32);
    if nVersion.None? {
      return None;
    }
    var nCode := ReadVarInt(s, TWO_32);
    if nCode.None? {
      return None;
    }
    var fCoinBase := nCode.value % 2 == 1;
    var first, second := nCode.value / 2 % 2 == 1, nCode.value / 4 % 2 == 1;
    var mask := ReadMask(s, nCode.value / 8 + (if nCode.value / 2 % 4 != 0 then 0 else 1));
    if mask.None? {
      return None;
    }
    var outs := ReadOuts(curve, s, [first, second] + mask.value);
    if outs.None? {
      return None;
    }
    var nHeight := ReadVarInt(s, TWO_32);
    if nHeight.None? {
      return None;
    }
    var c := Coins(fCoinBase, outs.value, Signed32(nHeight.value), Signed32(nVersion.value));
    var clean := CleanUpOf(c);
    r := Some(clean);
  }

  // Cleanup(): spent outputs come off the end.
  method CleanUpOf(c: Coins) returns (r: Coins)
    ensures r == CleanUp(c)
  {
    var vout := c.vout;
    while |vout| > 0 && vout[|vout| - 1].IsNull()
      invariant Trimmed(vout) == Trimmed(c.vout)
      decreases |vout|
    {
      vout := vout[..|vout| - 1];
    }
    r := c.(vout := vout);
  }

  // The rest of a parse, behind what is already read.
  function After<T>(done: seq<T>, rest: Parsed<seq<T>>): Parsed<seq<T>> {
    match rest
    case None => None
    case Some((more, t)) => Some((done + more, t))
  }

  method ReadMask(s: CDataStream, k: nat) returns (r: Option<seq<bool>>)
    modifies s
    ensures ParseMask(old(s.data), k) == if r.None? then None else Some((r.value, s.data))
  {
    var vAvail: seq<bool> := [];
    var nMaskCode := k;
    Nothing(ParseMask(s.data, k));
    while nMaskCode > 0
      invariant ParseMask(old(s.data), k) == After(vAvail, ParseMask(s.data, nMaskCode))
      decreases |s.data|
    {
      ghost var before, n := s.data, nMaskCode;
      var chAvail := s.Read();
      if chAvail.None? {
        return None;
      }
      var bits := TestBits(chAvail.value);
      if chAvail.value != 0 {
        nMaskCode := nMaskCode - 1;
      }
      Then(vAvail, bits, ParseMask(s.data, nMaskCode));
      assert ParseMask(before, n) == After(bits, ParseMask(s.data, nMaskCode));
      vAvail := vAvail + bits;
    }
    assert vAvail + [] == vAvail;
    r := Some(vAvail);
  }

  lemma Nothing<T>(rest: Parsed<seq<T>>)
    ensures After([], rest) == rest
  {
    match rest
    case None =>
    case Some((more, t)) => assert [] + more == more;
  }

  lemma Then<T>(a: seq<T>, b: seq<T>, rest: Parsed<seq<T>>)
    ensures After(a, After(b, rest)) == After(a + b, rest)
  {
    match rest
    case None =>
    case Some((more, t)) => assert a + (b + more) == a + b + more;
  }

  method TestBits(chAvail: Byte) returns (bits: seq<bool>)
    ensures bits == BitsOf(chAvail)
  {
    hide BitSet;
    bits := [];
    var p := 0;
    while p < 8
      invariant 0 <= p <= 8 && bits == BitsOf(chAvail)[..p]
    {
      bits := bits + [BitSet(chAvail, p)];
      p := p + 1;
    }
  }

  method ReadOuts(curve: Curve, s: CDataStream, vAvail: seq<bool>) returns (r: Option<seq<TxOut>>)
    modifies s
    ensures ParseOuts(curve, old(s.data), vAvail) == if r.None? then None else Some((r.value, s.data))
  {
    hide ParseTxOut;
    var vout: seq<TxOut> := [];
    var i := 0;
    Nothing(ParseOuts(curve, s.data, vAvail));
    assert vAvail[0..] == vAvail;
    while i < |vAvail|
      invariant 0 <= i <= |vAvail|
      invariant ParseOuts(curve, old(s.data), vAvail) == After(vout, ParseOuts(curve, s.data, vAvail[i..]))
    {
      ghost var before := s.data;
      assert vAvail[i..][0] == vAvail[i] && vAvail[i..][1..] == vAvail[i + 1..];
      var o := NULL_OUT;
      if vAvail[i] {
        var read := UnserializeTxOut(curve, s);
        if read.None? {
          return None;
        }
        o := read.value;
      }
      Then(vout, [o], ParseOuts(curve, s.data, vAvail[i + 1..]));
      assert ParseOuts(curve, before, vAvail[i..]) == After([o], ParseOuts(curve, s.data, vAvail[i + 1..]));
      vout := vout + [o];
      i := i + 1;
    }
    assert vout + [] == vout;
    r := Some(vout);
  }
}
