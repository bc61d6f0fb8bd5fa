/** What spending does to the coins of a transaction, and what the cache operations do to the
    entries and flags of the top cache, told by what is below it. */
module CoinsLaws {
  import opened CoinsTypes
  import opened Options
  import opened CoinsView
  import opened CoinsCache

  // ---------------------------------------------------------------- one transaction

  // The same coins but for spent outputs at the end, of which none is left.
  ghost predicate IsTrimOf(d: Coins, c: Coins) {
    && d.(vout := c.vout) == c
    && d.vout <= c.vout
    && (forall i | |d.vout| <= i < |c.vout| :: c.vout[i].nValue == -1)
    && (d.vout != [] ==> d.vout[|d.vout| - 1].nValue != -1)
  }

  // Cleanup touches nothing but the outputs.
  lemma CleanUpIs(c: Coins)
    ensures IsTrimOf(CleanUp(c), c)
    ensures forall d | IsTrimOf(d, c) :: d == CleanUp(c)
  {
    forall d | IsTrimOf(d, c) ensures d == CleanUp(c) {
      OneTrim(c, d, CleanUp(c));
    }
  }

  lemma OneTrim(c: Coins, a: Coins, b: Coins)
    requires IsTrimOf(a, c) && IsTrimOf(b, c)
    ensures a == b
  {
    NotLonger(c, a, b);
    NotLonger(c, b, a);
    assert a.vout == c.vout[..|a.vout|] && b.vout == c.vout[..|b.vout|];
    assert a == c.(vout := a.vout) && b == c.(vout := b.vout);
  }

  lemma NotLonger(c: Coins, a: Coins, b: Coins)
    requires IsTrimOf(a, c) && IsTrimOf(b, c)
    ensures |b.vout| <= |a.vout|
  {
    assert b.vout != [] ==> b.vout[|b.vout| - 1] == c.vout[|b.vout| - 1];
  }

  // Spending an output that is there blanks it and trims; spending another changes nothing.
  // The height, the version and the coinbase flag stay as they are.
  lemma SpendIs(c: Coins, nPos: nat)
    ensures Spend(c, nPos).1 <==> nPos < |c.vout| && c.vout[nPos].nValue != -1
    ensures Spend(c, nPos).0.(vout := c.vout) == c
    ensures !Spend(c, nPos).1 ==> Spend(c, nPos).0 == c
    ensures Spend(c, nPos).1 ==> IsTrimOf(Spend(c, nPos).0, c.(vout := c.vout[nPos := TxOut(-1, [])]))
    ensures Spend(c, nPos).1 ==> IsClean(Spend(c, nPos).0)
  {
    if c.IsAvailable(nPos) {
      CleanUpIs(c.(vout := c.vout[nPos := TxOut(-1, [])]));
    }
    hide CleanUp;
  }

  // Pruned means that every output is spent.
  lemma PrunedIs(c: Coins)
    ensures c.IsPruned() <==> forall i | 0 <= i < |c.vout| :: c.vout[i].nValue == -1
  {
  }

  // ---------------------------------------------------------------- entries and flags

  // Fetching makes an entry exactly if something is found below; it is as below, not dirty, and
  // fresh exactly if nothing unspent is there.
  lemma FetchIs(mem: Memory, v: View, txid: Txid)
    requires v.Cache?
    ensures Fetch(mem, v, txid).Cache?
    ensures txid in v.entries ==> Fetch(mem, v, txid) == v
    ensures txid !in v.entries ==>
      var w := Fetch(mem, v, txid);
      && w.base == Fetch(mem, v.base, txid)
      && w.best == v.best && w.modifier == v.modifier
      && (Look(v.base, txid).None? ==> w.entries == v.entries && w.usage == v.usage)
      && (Look(v.base, txid).Some? ==>
            && w.entries == v.entries[txid := Entry(Look(v.base, txid).value, false, txid !in Unspent(v.base))]
            && w.usage == v.usage + mem(Look(v.base, txid).value))
  {
    LookFindsUnspent(v.base, txid);
  }

  // A modification starts from what is shown, or from nothing; the entry is dirty, and a new one
  // is fresh exactly if nothing unspent is below.
  lemma ModifyIs(mem: Memory, v: View, txid: Txid)
    requires v.Cache? && v.modifier.NoModifier?
    ensures var w := Modify(mem, v, txid);
      && w.Cache? && w.best == v.best && w.usage == v.usage
      && w.entries.Keys == v.entries.Keys + {txid}
      && (forall k | k in v.entries && k != txid :: w.entries[k] == v.entries[k])
      && w.entries[txid].isDirty
      && (w.entries[txid].isFresh <==> if txid in v.entries then v.entries[txid].isFresh else txid !in Unspent(v.base))
      && w.entries[txid].coins == (if Look(v, txid).Some? then Look(v, txid).value else Coins(false, [], 0, 0))
      && w.modifier == Modifying(txid, if txid in v.entries then mem(v.entries[txid].coins) else 0)
      && w.base == if txid in v.entries then v.base else Fetch(mem, v.base, txid)
  {
    LookFindsUnspent(v.base, txid);
  }

  // The end of a modification: the coins are trimmed, and the entry goes exactly if it is fresh
  // and nothing is left in it.
  lemma ReleaseIs(mem: Memory, v: View)
    requires v.Cache? && v.modifier.Modifying? && v.modifier.txid in v.entries && v.modifier.oldUsage <= v.usage
    ensures var w, txid := Release(mem, v), v.modifier.txid;
      && w.Cache? && w.base == v.base && w.best == v.best && w.modifier == NoModifier
      && (forall k | k != txid :: (k in w.entries <==> k in v.entries) && (k in w.entries ==> w.entries[k] == v.entries[k]))
      && (txid in w.entries <==> !(v.entries[txid].isFresh && v.entries[txid].coins.IsPruned()))
      && (txid in w.entries ==>
            && IsTrimOf(w.entries[txid].coins, v.entries[txid].coins)
            && w.entries[txid].isDirty == v.entries[txid].isDirty && w.entries[txid].isFresh == v.entries[txid].isFresh)
      && w.usage == v.usage - v.modifier.oldUsage + if txid in w.entries then mem(w.entries[txid].coins) else 0
  {
    CleanUpIs(v.entries[v.modifier.txid].coins);
    CleanUpKeeps(v.entries[v.modifier.txid].coins);
    hide CleanUp;
  }

  // Uncaching drops the entry exactly if it has neither flag.
  lemma UncacheIs(mem: Memory, v: View, txid: Txid)
    requires v.Cache?
    requires txid in v.entries ==> mem(v.entries[txid].coins) <= v.usage || v.entries[txid].isDirty || v.entries[txid].isFresh
    ensures var w := Uncache(mem, v, txid);
      if txid in v.entries && v.entries[txid] == Entry(v.entries[txid].coins, false, false) then
        w.Cache? && txid !in w.entries && w == v.(entries := w.entries, usage := v.usage - mem(v.entries[txid].coins))
        && forall k | k != txid :: (k in w.entries <==> k in v.entries) && (k in w.entries ==> w.entries[k] == v.entries[k])
      else
        w == v
  {
  }

  // The flag of a merged entry is ours if we have one, else the child's.
  ghost predicate FreshAfter(ours: Entries, child: Entries, txid: Txid)
    requires txid in child
  {
    if txid in ours then ours[txid].isFresh else child[txid].isFresh
  }

  // Merging: a clean entry of the child changes nothing; a dirty one takes ours away if that was
  // fresh and nothing is left, and otherwise takes its place, dirty and as fresh as before.
  lemma MergeIs(ours: Entries, child: Entries, txid: Txid)
    ensures txid !in child || !child[txid].isDirty ==>
      (txid in Merge(ours, child) <==> txid in ours) && (txid in ours ==> Merge(ours, child)[txid] == ours[txid])
    ensures txid in child && child[txid].isDirty ==>
      && (txid in Merge(ours, child) <==> !(FreshAfter(ours, child, txid) && child[txid].coins.IsPruned()))
      && (txid in Merge(ours, child) ==>
            Merge(ours, child)[txid] == Entry(child[txid].coins, true, FreshAfter(ours, child, txid)))
  {
    assert forall k :: k in Merge(ours, child) <==> k in ours.Keys + child.Keys && Merged(ours, child, k).Some?;
  }

  // The database keeps what is unspent of the dirty entries, and what it had of all others.
  lemma WriteDbIs(coins: map<Txid, Coins>, child: Entries, txid: Txid)
    ensures var dirty := txid in child && child[txid].isDirty;
      && (txid in WriteDb(coins, child) <==> if dirty then !child[txid].coins.IsPruned() else txid in coins)
      && (txid in WriteDb(coins, child) ==> WriteDb(coins, child)[txid] == if dirty then child[txid].coins else coins[txid])
  {
  }

  // After Flush the top is empty, and the level below has taken its best block; a database keeps
  // its own if there is none to take.
  lemma FlushIs(mem: Memory, v: View)
    requires v.Cache?
    ensures var w := Flush(mem, v);
      && w.Cache? && w.entries == map[] && w.usage == 0 && w.best == v.best && w.modifier == v.modifier
      && (v.base.Cache? ==> w.base.Cache? && w.base.best == v.best && w.base.entries == Merge(v.base.entries, v.entries) && w.base.base == v.base.base)
      && (v.base.Db? ==> w.base.Db? && w.base.coins == WriteDb(v.base.coins, v.entries) && w.base.best == if v.best == 0 then v.base.best else v.best)
  {
  }
}
