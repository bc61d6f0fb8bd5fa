/** The unspent outputs of one transaction (CCoins). */
module CoinsTypes {
  import opened Numbers

  type Txid = nat

  // CTxOut: a spent output has value -1.
  datatype TxOut = TxOut(nValue: int, script: seq<Byte>) {
    predicate IsNull() {
      nValue == -1
    }
  }

  const NULL_OUT := TxOut(-1, [])

  datatype Coins = Coins(fCoinBase: bool, vout: seq<TxOut>, nHeight: int, nVersion: int) {
    predicate IsPruned() {
      forall i | 0 <= i < |vout| :: vout[i].IsNull()
    }

    predicate IsAvailable(nPos: nat) {
      nPos < |vout| && !vout[nPos].IsNull()
    }
  }

  // The default-constructed, or cleared, object.
  const EMPTY := Coins(false, [], 0, 0)

  function Trimmed(vout: seq<TxOut>): (t: seq<TxOut>)
    ensures |t| <= |vout| && t == vout[..|t|]
    ensures t != [] ==> !t[|t| - 1].IsNull()
    ensures forall i | |t| <= i < |vout| :: vout[i].IsNull()
  {
    if vout != [] && vout[|vout| - 1].IsNull() then Trimmed(vout[..|vout| - 1]) else vout
  }

  // Cleanup()
  function CleanUp(c: Coins): Coins {
    c.(vout := Trimmed(c.vout))
  }

  predicate IsClean(c: Coins) {
    c.vout == [] || !c.vout[|c.vout| - 1].IsNull()
  }

  lemma CleanUpKeeps(c: Coins)
    ensures IsClean(CleanUp(c)) && CleanUp(c).(vout := c.vout) == c
    ensures CleanUp(c).IsPruned() <==> c.IsPruned()
    ensures CleanUp(c).IsPruned() <==> CleanUp(c).vout == []
    ensures forall i: nat :: CleanUp(c).IsAvailable(i) <==> c.IsAvailable(i)
  {
    var t := Trimmed(c.vout);
    if t != [] {
      assert t[|t| - 1] == c.vout[|t| - 1];
    }
    if CleanUp(c).IsPruned() {
      assert t == [];
    }
  }

  // Spend(nPos): whether there was something to spend, and the coins without it.
  function Spend(c: Coins, nPos: nat): (r: (Coins, bool))
    ensures r.1 <==> c.IsAvailable(nPos)
  {
    if !c.IsAvailable(nPos) then (c, false) else (CleanUp(c.(vout := c.vout[nPos := NULL_OUT])), true)
  }

  // Spending takes away exactly that output, and leaves everything but the outputs alone.
  lemma SpendTakesOne(c: Coins, nPos: nat, i: nat)
    ensures Spend(c, nPos).0.(vout := c.vout) == c
    ensures if Spend(c, nPos).1 then IsClean(Spend(c, nPos).0) else Spend(c, nPos).0 == c
    ensures Spend(c, nPos).0.IsAvailable(i) <==> c.IsAvailable(i) && i != nPos
    ensures Spend(c, nPos).0.IsAvailable(i) ==> Spend(c, nPos).0.vout[i] == c.vout[i]
  {
    if c.IsAvailable(nPos) {
      CleanUpKeeps(c.(vout := c.vout[nPos := NULL_OUT]));
    }
  }
}
