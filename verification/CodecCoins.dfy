/** CCoins on a stream: version, header code, mask, the unspent outputs, height. */
module CoinsCodec {
  import opened Numbers
  import opened Options
  import opened VarInts
  import opened Amounts
  import opened ScriptCodec
  import opened CoinsTypes
  import opened CoinsMask

  // ---------------------------------------------------------------- what is written

  function HeaderCode(c: Coins): nat
    requires !c.IsPruned()
  {
    var first, second := Avail(c.vout, 0), Avail(c.vout, 1);
    MaskNeeded(c);
    8 * (Nonzero(c.vout, UsedBytes(c.vout)) - (if first || second then 0 else 1))
      + (if c.fCoinBase then 1 else 0) + (if first then 2 else 0) + (if second then 4 else 0)
  }

  // assert(fFirst || fSecond || nMaskCode)
  lemma MaskNeeded(c: Coins)
    requires !c.IsPruned()
    ensures Avail(c.vout, 0) || Avail(c.vout, 1) || Nonzero(c.vout, UsedBytes(c.vout)) > 0
  {
    hide MaskByte;
    NonzeroUsed(c.vout, ByteCount(c.vout));
    if UsedBytes(c.vout) == 0 {
      var i :| 0 <= i < |c.vout| && !c.vout[i].IsNull();
      assert Avail(c.vout, i);
      if i >= 2 {
        NothingBeyond(c.vout, i);
      }
    }
  }

  // The unspent outputs from i on.
  function OutsFrom(curve: Curve, vout: seq<TxOut>, i: nat): seq<Byte>
    decreases |vout| - i
  {
    if i >= |vout| then []
    else (if vout[i].IsNull() then [] else TxOutBytes(curve, vout[i])) + OutsFrom(curve, vout, i + 1)
  }

  function CoinsBytes(curve: Curve, c: Coins): seq<Byte>
    requires !c.IsPruned()
  {
    VarIntOf(c.nVersion) + VarInt(HeaderCode(c)) + MaskFrom(c.vout, 0, UsedBytes(c.vout))
      + OutsFrom(curve, c.vout, 0) + VarIntOf(c.nHeight)
  }

  // ---------------------------------------------------------------- what is read

  // An output for every available place, and a null one for every other.
  function ParseOuts(curve: Curve, s: seq<Byte>, avail: seq<bool>): Parsed<seq<TxOut>>
    decreases |avail|
  {
    if avail == [] then Some(([], s))
    else
      match (if avail[0] then ParseTxOut(curve, s) else Some((NULL_OUT, s)))
      case None => None
      case Some((o, t)) =>
        match ParseOuts(curve, t, avail[1..])
        case None => None
        case Some((outs, u)) => Some(([o] + outs, u))
  }

  function Signed32(u: nat): int {
    if u < TWO_32 / 2 then u else u - TWO_32
  }

  function ParseInt(s: seq<Byte>): Parsed<int> {
    match ParseVarInt(s, 0, TWO_32)
    case None => None
    case Some((n, t)) => Some((Signed32(n), t))
  }

  function ParseCoins(curve: Curve, s: seq<Byte>): Parsed<Coins> {
    match ParseInt(s)
    case None => None
    case Some((nVersion, t)) =>
      match ParseVarInt(t, 0, TWO_32)
      case None => None
      case Some((nCode, u)) =>
        match ParseMask(u, nCode / 8 + (if nCode / 2 % 4 != 0 then 0 else 1))
        case None => None
        case Some((bits, v)) =>
          match ParseOuts(curve, v, [nCode / 2 % 2 == 1, nCode / 4 % 2 == 1] + bits)
          case None => None
          case Some((outs, w)) =>
            match ParseInt(w)
            case None => None
            case Some((nHeight, x)) => Some((CleanUp(Coins(nCode % 2 == 1, outs, nHeight, nVersion)), x))
  }

  // ---------------------------------------------------------------- the round trip

  // What the types of the fields and the rules for amounts allow: integers in 32 bits, spent
  // outputs as SetNull leaves them, unspent ones that fit.
  predicate CoinsFit(c: Coins) {
    && !c.IsPruned() && |c.vout| < TWO_32 / 2
    && -(TWO_32 / 2) <= c.nVersion < TWO_32 / 2 && -(TWO_32 / 2) <= c.nHeight < TWO_32 / 2
    && forall i | 0 <= i < |c.vout| :: if c.vout[i].IsNull() then c.vout[i] == NULL_OUT else OutFits(c.vout[i])
  }

  // A negative integer keeps its low seven bits only.
  function Reread(n: int): int {
    if n < 0 then n % 128 else n
  }

  lemma ParseWrittenInt(n: int, t: seq<Byte>)
    requires -(TWO_32 / 2) <= n < TWO_32 / 2
    ensures ParseInt(VarIntOf(n) + t) == Some((Reread(n), t))
  {
    if n < 0 {
      assert VarIntOf(n) == VarInt(n % 128);
      ParseWritten(n % 128, t, TWO_32);
    } else {
      assert VarIntOf(n) == VarInt(n);
      ParseWritten(n, t, TWO_32);
    }
  }

  // The outputs from i on, padded with null ones to the length of the mask.
  function Padded(vout: seq<TxOut>, i: nat, n: nat): seq<TxOut>
    requires i <= n
  {
    seq(n - i, p requires 0 <= p < n - i => if Avail(vout, i + p) then vout[i + p] else NULL_OUT)
  }

  lemma {:induction false} OutsParse(curve: Curve, vout: seq<TxOut>, i: nat, n: nat, t: seq<Byte>)
    requires IsCurve(curve) && i <= n
    requires forall k | 0 <= k < |vout| && !vout[k].IsNull() :: OutFits(vout[k])
    requires forall k | n <= k < |vout| :: vout[k].IsNull()
    ensures ParseOuts(curve, OutsFrom(curve, vout, i) + t, Avails(vout, i, n)) == Some((Padded(vout, i, n), t))
    decreases n - i
  {
    hide ParseTxOut, TxOutBytes, OutFits, IsCurve;
    var s := OutsFrom(curve, vout, i) + t;
    if i == n {
      NoOutsBeyond(curve, vout, n);
      assert s == t && Avails(vout, i, n) == [] && Padded(vout, i, n) == [];
    } else {
      var rest := OutsFrom(curve, vout, i + 1) + t;
      OutsParse(curve, vout, i + 1, n, t);
      assert Avails(vout, i, n)[1..] == Avails(vout, i + 1, n) && Avails(vout, i, n)[0] == Avail(vout, i);
      if Avail(vout, i) {
        assert s == TxOutBytes(curve, vout[i]) + rest;
        ParseTxOutBytes(curve, vout[i], rest);
      } else {
        OutsSkip(curve, vout, i);
      }
      var o := if Avail(vout, i) then vout[i] else NULL_OUT;
      assert Padded(vout, i, n) == [o] + Padded(vout, i + 1, n);
    }
  }

  lemma OutsSkip(curve: Curve, vout: seq<TxOut>, i: nat)
    requires !Avail(vout, i)
    ensures OutsFrom(curve, vout, i) == OutsFrom(curve, vout, i + 1)
  {
    if i < |vout| {
      assert [] + OutsFrom(curve, vout, i + 1) == OutsFrom(curve, vout, i + 1);
    }
  }

  lemma {:induction false} NoOutsBeyond(curve: Curve, vout: seq<TxOut>, n: nat)
    requires forall k | n <= k < |vout| :: vout[k].IsNull()
    ensures OutsFrom(curve, vout, n) == []
    decreases |vout| - n
  {
    if n < |vout| {
      NoOutsBeyond(curve, vout, n + 1);
    }
  }

  lemma PaddedAt(vout: seq<TxOut>, n: nat)
    ensures |Padded(vout, 0, n)| == n
    ensures forall k | 0 <= k < n ::
              Padded(vout, 0, n)[k] == if k < |vout| && !vout[k].IsNull() then vout[k] else NULL_OUT
  {
  }

  // Padding does not survive Cleanup.
  lemma TrimPadded(vout: seq<TxOut>, n: nat)
    requires forall k | 0 <= k < |vout| && vout[k].IsNull() :: vout[k] == NULL_OUT
    requires forall k | n <= k < |vout| :: vout[k].IsNull()
    ensures Trimmed(Padded(vout, 0, n)) == Trimmed(vout)
  {
    hide Trimmed, Avail, Padded;
    var p := Padded(vout, 0, n);
    PaddedAt(vout, n);
    var a, b := Trimmed(p), Trimmed(vout);
    LastStays(p, vout);
    LastStays(vout, p);
    assert forall i | 0 <= i < |a| :: a[i] == p[i] && b[i] == vout[i];
  }

  // If every output of v is null or stands in w too, trimming v leaves no more than trimming w.
  lemma LastStays(v: seq<TxOut>, w: seq<TxOut>)
    requires forall k | 0 <= k < |v| && !v[k].IsNull() :: k < |w| && !w[k].IsNull()
    ensures |Trimmed(v)| <= |Trimmed(w)|
  {
    hide Trimmed;
    var a := Trimmed(v);
    if a != [] {
      assert v[|a| - 1] == a[|a| - 1];
    }
  }

  lemma NonzeroSmall(vout: seq<TxOut>)
    ensures Nonzero(vout, UsedBytes(vout)) <= ByteCount(vout)
  {
    hide MaskByte;
    NonzeroUsed(vout, ByteCount(vout));
  }

  // The header code takes apart into the flags and the number of mask bytes to come.
  lemma HeaderTakesApart(c: Coins)
    requires CoinsFit(c)
    ensures HeaderCode(c) < TWO_32
    ensures HeaderCode(c) % 2 == 1 <==> c.fCoinBase
    ensures HeaderCode(c) / 2 % 2 == 1 <==> Avail(c.vout, 0)
    ensures HeaderCode(c) / 4 % 2 == 1 <==> Avail(c.vout, 1)
    ensures HeaderCode(c) / 8 + (if HeaderCode(c) / 2 % 4 != 0 then 0 else 1) == Nonzero(c.vout, UsedBytes(c.vout))
  {
    hide MaskByte, Nonzero, Used;
    MaskNeeded(c);
    NonzeroSmall(c.vout);
    var first, second := Avail(c.vout, 0), Avail(c.vout, 1);
    var m := Nonzero(c.vout, UsedBytes(c.vout)) - (if first || second then 0 else 1);
    Octal(m, c.fCoinBase, first, second);
  }

  lemma Octal(m: nat, b0: bool, b1: bool, b2: bool)
    ensures var x := 8 * m + (if b0 then 1 else 0) + (if b1 then 2 else 0) + (if b2 then 4 else 0);
            && (x % 2 == 1 <==> b0) && (x / 2 % 2 == 1 <==> b1) && (x / 4 % 2 == 1 <==> b2)
            && x / 8 == m && (x / 2 % 4 != 0 <==> b1 || b2)
  {
  }

  // The parses of the five parts make up the parse of the whole.
  lemma ParsesTogether(curve: Curve, s: seq<Byte>, nVersion: int, t: seq<Byte>, nCode: nat, u: seq<Byte>,
                       bits: seq<bool>, v: seq<Byte>, outs: seq<TxOut>, w: seq<Byte>, nHeight: int, x: seq<Byte>)
    requires ParseInt(s) == Some((nVersion, t)) && ParseVarInt(t, 0, TWO_32) == Some((nCode, u))
    requires ParseMask(u, nCode / 8 + (if nCode / 2 % 4 != 0 then 0 else 1)) == Some((bits, v))
    requires ParseOuts(curve, v, [nCode / 2 % 2 == 1, nCode / 4 % 2 == 1] + bits) == Some((outs, w))
    requires ParseInt(w) == Some((nHeight, x))
    ensures ParseCoins(curve, s) == Some((CleanUp(Coins(nCode % 2 == 1, outs, nHeight, nVersion)), x))
  {
    hide ParseInt, ParseVarInt, ParseMask, ParseOuts, CleanUp;
  }

  lemma NullBeyond(vout: seq<TxOut>, n: nat)
    requires n == 2 + 8 * UsedBytes(vout)
    ensures forall k | n <= k < |vout| :: vout[k].IsNull()
  {
    hide UsedBytes;
    forall k | n <= k < |vout|
      ensures vout[k].IsNull()
    {
      NothingBeyond(vout, k);
      assert !Avail(vout, k);
    }
  }

  // Reading written coins gives them back trimmed, up to the sign of version and height.
  lemma ParseCoinsBytes(curve: Curve, c: Coins, t: seq<Byte>)
    requires IsCurve(curve) && CoinsFit(c)
    ensures ParseCoins(curve, CoinsBytes(curve, c) + t)
         == Some((CleanUp(c.(nVersion := Reread(c.nVersion), nHeight := Reread(c.nHeight))), t))
  {
    hide ParseCoins, HeaderCode, MaskFrom, OutsFrom, VarIntOf, VarInt, ParseVarInt, ParseInt, ParseMask, ParseOuts,
         UsedBytes, Nonzero, Used, IsCurve, OutFits, Trimmed, MaskByte;
    var vout, n := c.vout, 2 + 8 * UsedBytes(c.vout);
    var code := HeaderCode(c);
    var version, height := VarIntOf(c.nVersion), VarIntOf(c.nHeight);
    var mask, outs := MaskFrom(vout, 0, UsedBytes(vout)), OutsFrom(curve, vout, 0);
    var w := height + t;
    var v := outs + w;
    var u := mask + v;
    Regroups(version, VarInt(code), mask, outs, height, t);
    HeaderTakesApart(c);
    ParseWrittenInt(c.nVersion, VarInt(code) + u);
    ParseWritten(code, u, TWO_32);
    NonzeroZero(vout);
    MaskParses(vout, 0, v);
    FirstTwo(vout, n);
    NullBeyond(vout, n);
    OutsParse(curve, vout, 0, n, w);
    ParseWrittenInt(c.nHeight, t);
    ParsesTogether(curve, CoinsBytes(curve, c) + t, Reread(c.nVersion), VarInt(code) + u, code, u,
                   Avails(vout, 2, n), v, Padded(vout, 0, n), w, Reread(c.nHeight), t);
    TrimPadded(vout, n);
  }

  lemma Regroups(a: seq<Byte>, b: seq<Byte>, c: seq<Byte>, d: seq<Byte>, e: seq<Byte>, t: seq<Byte>)
    ensures a + b + c + d + e + t == a + (b + (c + (d + (e + t))))
  {
  }

  lemma FirstTwo(vout: seq<TxOut>, n: nat)
    requires n >= 2
    ensures [Avail(vout, 0), Avail(vout, 1)] + Avails(vout, 2, n) == Avails(vout, 0, n)
  {
  }

  lemma NonzeroZero(vout: seq<TxOut>)
    ensures Nonzero(vout, 0) == 0
  {
  }

  // Coins come back as they were exactly when they are trimmed and neither their version nor
  // their height is negative.
  lemma RoundTripIff(curve: Curve, c: Coins, t: seq<Byte>)
    requires IsCurve(curve) && CoinsFit(c)
    ensures ParseCoins(curve, CoinsBytes(curve, c) + t) == Some((c, t))
       <==> IsClean(c) && c.nVersion >= 0 && c.nHeight >= 0
  {
    ParseCoinsBytes(curve, c, t);
    hide ParseCoins, CoinsBytes, IsCurve;
    CleanUpKeeps(c);
  }

  const NEGATIVE_VERSION := Coins(false, [TxOut(0, [])], 0, -1)

  lemma NegativeVersionFits()
    ensures CoinsFit(NEGATIVE_VERSION) && CleanUp(NEGATIVE_VERSION.(nVersion := 127)) == NEGATIVE_VERSION.(nVersion := 127)
  {
    assert !NEGATIVE_VERSION.vout[0].IsNull();
  }

  // A negative version is not read back: -1 becomes 127.
  lemma NegativeVersionLost(curve: Curve, t: seq<Byte>)
    requires IsCurve(curve)
    ensures !NEGATIVE_VERSION.IsPruned()
    ensures ParseCoins(curve, CoinsBytes(curve, NEGATIVE_VERSION) + t) == Some((NEGATIVE_VERSION.(nVersion := 127), t))
  {
    NegativeVersionFits();
    hide ParseCoins, CoinsBytes, IsCurve, CleanUp;
    ParseCoinsBytes(curve, NEGATIVE_VERSION, t);
  }
}
