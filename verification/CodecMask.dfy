/** The unspentness bitmask of CCoins: which outputs are there, eight to a byte. */
module CoinsMask {
  import opened Numbers
  import opened Options
  import opened VarInts
  import opened CoinsTypes

  predicate Avail(vout: seq<TxOut>, i: int) {
    0 <= i < |vout| && !vout[i].IsNull()
  }

  // The output that bit p of mask byte b stands for.
  predicate AvailAt(vout: seq<TxOut>, b: nat, p: int) {
    Avail(vout, 2 + 8 * b + p)
  }

  // Bits 0 to n-1 of mask byte b.
  function MaskBits(vout: seq<TxOut>, b: nat, n: nat): nat {
    if n == 0 then 0
    else MaskBits(vout, b, n - 1) + (if AvailAt(vout, b, n - 1) then Pow(2, n - 1) else 0)
  }

  function MaskByte(vout: seq<TxOut>, b: nat): Byte {
    MaskBitsBelow(vout, b, 8);
    PowersOfTwo();
    MaskBits(vout, b, 8)
  }

  lemma {:induction false} MaskBitsBelow(vout: seq<TxOut>, b: nat, n: nat)
    ensures MaskBits(vout, b, n) < Pow(2, n)
  {
    if n > 0 {
      MaskBitsBelow(vout, b, n - 1);
    }
  }

  lemma {:induction false} MaskBitsZero(vout: seq<TxOut>, b: nat, n: nat)
    ensures MaskBits(vout, b, n) == 0 <==> forall p | 0 <= p < n :: !AvailAt(vout, b, p)
  {
    if n > 0 {
      MaskBitsZero(vout, b, n - 1);
    }
  }

  lemma {:induction false} BitOfMask(vout: seq<TxOut>, b: nat, n: nat, p: nat)
    requires p < n
    ensures BitSet(MaskBits(vout, b, n), p) <==> AvailAt(vout, b, p)
  {
    hide BitSet, Pow, Avail;
    MaskBitsBelow(vout, b, n - 1);
    if p < n - 1 {
      BitOfMask(vout, b, n - 1, p);
      LowerBit(MaskBits(vout, b, n - 1), n - 1, p);
    } else {
      HigherBit(MaskBits(vout, b, n - 1), n - 1);
    }
  }

  function BitsOf(x: nat): seq<bool> {
    seq(8, p requires 0 <= p < 8 => BitSet(x, p))
  }

  // How many mask bytes CalcMaskSize looks at, and the place after the last one in use.
  function ByteCount(vout: seq<TxOut>): nat {
    (|vout| + 5) / 8
  }

  function Used(vout: seq<TxOut>, m: nat): (u: nat)
    ensures u <= m
    ensures u > 0 ==> MaskByte(vout, u - 1) != 0
    ensures forall b | u <= b < m :: MaskByte(vout, b) == 0
  {
    if m == 0 then 0 else if MaskByte(vout, m - 1) != 0 then m else Used(vout, m - 1)
  }

  function UsedBytes(vout: seq<TxOut>): nat {
    Used(vout, ByteCount(vout))
  }

  // The mask bytes from b to n, and how many of them are not zero.
  function MaskFrom(vout: seq<TxOut>, b: nat, n: nat): seq<Byte>
    decreases n - b
  {
    if b >= n then [] else [MaskByte(vout, b)] + MaskFrom(vout, b + 1, n)
  }

  function Nonzero(vout: seq<TxOut>, n: nat): nat {
    if n == 0 then 0 else Nonzero(vout, n - 1) + (if MaskByte(vout, n - 1) != 0 then 1 else 0)
  }

  lemma {:induction false} NonzeroUsed(vout: seq<TxOut>, m: nat)
    ensures Nonzero(vout, Used(vout, m)) == Nonzero(vout, m) <= m
    ensures Used(vout, m) > 0 ==> Nonzero(vout, m) > 0
    ensures forall b: nat | b < Used(vout, m) :: Nonzero(vout, b) < Nonzero(vout, m)
  {
    if m > 0 {
      NonzeroUsed(vout, m - 1);
      NonzeroGrows(vout, m - 1);
    }
  }

  lemma {:induction false} NonzeroGrows(vout: seq<TxOut>, m: nat)
    ensures forall b: nat | b <= m :: Nonzero(vout, b) <= Nonzero(vout, m)
  {
    if m > 0 {
      NonzeroGrows(vout, m - 1);
    }
  }

  // Reading mask bytes until k of them were not zero.
  function ParseMask(s: seq<Byte>, k: nat): Parsed<seq<bool>> {
    if k == 0 then Some(([], s))
    else if s == [] then None
    else
      match ParseMask(s[1..], if s[0] != 0 then k - 1 else k)
      case None => None
      case Some((bits, t)) => Some((BitsOf(s[0]) + bits, t))
  }

  // Whether each output from i to n is there.
  function Avails(vout: seq<TxOut>, i: nat, n: nat): seq<bool>
    requires i <= n
  {
    seq(n - i, p requires 0 <= p < n - i => Avail(vout, i + p))
  }

  lemma BitsOfMask(vout: seq<TxOut>, b: nat)
    ensures BitsOf(MaskByte(vout, b)) == Avails(vout, 2 + 8 * b, 2 + 8 * b + 8)
  {
    forall p | 0 <= p < 8
      ensures BitSet(MaskByte(vout, b), p) == Avail(vout, 2 + 8 * b + p)
    {
      BitOfMask(vout, b, 8, p);
    }
  }

  // The count of non-zero bytes stops the reading exactly behind the last byte in use.
  lemma {:induction false} MaskParses(vout: seq<TxOut>, b: nat, t: seq<Byte>)
    requires b <= UsedBytes(vout)
    ensures Nonzero(vout, b) <= Nonzero(vout, UsedBytes(vout))
    ensures ParseMask(MaskFrom(vout, b, UsedBytes(vout)) + t, Nonzero(vout, UsedBytes(vout)) - Nonzero(vout, b))
         == Some((Avails(vout, 2 + 8 * b, 2 + 8 * UsedBytes(vout)), t))
    decreases UsedBytes(vout) - b
  {
    hide MaskByte, BitsOf, Used;
    var n := UsedBytes(vout);
    NonzeroUsed(vout, ByteCount(vout));
    if b < n {
      var x := MaskByte(vout, b);
      var rest := MaskFrom(vout, b + 1, n) + t;
      MaskParses(vout, b + 1, t);
      BitsOfMask(vout, b);
      assert MaskFrom(vout, b, n) + t == [x] + rest;
      assert ([x] + rest)[1..] == rest;
      assert Avails(vout, 2 + 8 * b, 2 + 8 * n) == BitsOf(x) + Avails(vout, 2 + 8 * (b + 1), 2 + 8 * n);
    } else {
      assert MaskFrom(vout, b, n) + t == t;
      assert Avails(vout, 2 + 8 * b, 2 + 8 * n) == [];
    }
  }

  // No output lies beyond the mask.
  lemma NothingBeyond(vout: seq<TxOut>, i: int)
    requires i >= 2 + 8 * UsedBytes(vout)
    ensures !Avail(vout, i)
  {
    if i < |vout| {
      var b, p := (i - 2) / 8, (i - 2) % 8;
      assert MaskByte(vout, b) == 0;
      MaskBitsZero(vout, b, 8);
      assert !AvailAt(vout, b, p);
    }
  }

  // ---------------------------------------------------------------- the methods

  method CalcMaskSize(vout: seq<TxOut>) returns (nBytes: nat, nNonzeroBytes: nat)
    ensures nBytes == UsedBytes(vout) && nNonzeroBytes == Nonzero(vout, nBytes)
  {
    hide MaskByte;
    var nLastUsedByte := 0;
    nNonzeroBytes := 0;
    var b: nat := 0;
    while 2 + b * 8 < |vout|
      invariant b <= ByteCount(vout) && nLastUsedByte == Used(vout, b) && nNonzeroBytes == Nonzero(vout, b)
      decreases |vout| - b
    {
      var fZero := true;
      var i := 0;
      while i < 8 && 2 + b * 8 + i < |vout|
        invariant 0 <= i <= 8
        invariant fZero <==> forall p | 0 <= p < i :: !AvailAt(vout, b, p)
      {
        if !vout[2 + b * 8 + i].IsNull() {
          fZero := false;
        }
        assert AvailAt(vout, b, i) <==> !vout[2 + b * 8 + i].IsNull();
        i := i + 1;
      }
      ZeroByte(vout, b, i, fZero);
      if !fZero {
        nLastUsedByte := b + 1;
        nNonzeroBytes := nNonzeroBytes + 1;
      }
      b := b + 1;
    }
    nBytes := nLastUsedByte;
    NonzeroUsed(vout, ByteCount(vout));
  }

  lemma ZeroByte(vout: seq<TxOut>, b: nat, i: nat, fZero: bool)
    requires i <= 8 && (i < 8 ==> 2 + b * 8 + i >= |vout|)
    requires fZero <==> forall p | 0 <= p < i :: !AvailAt(vout, b, p)
    ensures fZero <==> MaskByte(vout, b) == 0
  {
    MaskBitsZero(vout, b, 8);
  }

  // The byte as Serialize forms it, bit by bit.
  method FormByte(vout: seq<TxOut>, b: nat) returns (chAvail: Byte)
    ensures chAvail == MaskByte(vout, b)
  {
    hide Or, Avail, Pow;
    PowersOfTwo();
    chAvail := 0;
    var i := 0;
    while i < 8 && 2 + b * 8 + i < |vout|
      invariant 0 <= i <= 8 && chAvail == MaskBits(vout, b, i)
    {
      MaskBitsBelow(vout, b, i);
      MaskBitsBelow(vout, b, i + 1);
      PowGrows(2, i + 1, 8);
      IsAvail(vout, 2 + b * 8 + i);
      if !vout[2 + b * 8 + i].IsNull() {
        OrDisjoint(chAvail, 1, i);
        chAvail := Or(chAvail, Pow(2, i));
      }
      i := i + 1;
    }
    NoMoreBits(vout, b, i, 8);
  }

  lemma IsAvail(vout: seq<TxOut>, i: nat)
    requires i < |vout|
    ensures Avail(vout, i) <==> !vout[i].IsNull()
  {
  }

  lemma {:induction false} NoMoreBits(vout: seq<TxOut>, b: nat, i: nat, n: nat)
    requires i <= n && (i < n ==> 2 + b * 8 + i >= |vout|)
    ensures MaskBits(vout, b, n) == MaskBits(vout, b, i)
  {
    if i < n {
      NoMoreBits(vout, b, i, n - 1);
    }
  }
}
