/** The cache objects themselves, linked into a stack over the database object.  The links and
    so the footprint of a stack never change; the fields of its objects do. */
module CoinsObjects {
  import opened CoinsTypes
  import opened Options
  import opened CoinsView
  import opened CoinsCache

  // CCoinsViewDB
  class CCoinsViewDB {
    var coins: map<Txid, Coins>
    var best: Hash

    constructor (coins: map<Txid, Coins>, best: Hash)
      ensures this.coins == coins && this.best == best
    {
      this.coins := coins;
      this.best := best;
    }

    // Every dirty entry is erased or written; the null hash is not written.
    method BatchWriteDb(child: Entries, hash: Hash)
      modifies this
      ensures Db(coins, best) == Db(WriteDb(old(coins), child), if hash != 0 then hash else old(best))
    {
      var todo := child.Keys;
      ghost var before := coins;
      while todo != {}
        invariant todo <= child.Keys
        invariant coins == WriteDb(before, child - todo)
        invariant best == old(best)
        decreases todo
      {
        var txid :| txid in todo;
        WriteDbNext(before, child, todo, txid);
        if child[txid].isDirty {
          if child[txid].coins.IsPruned() {
            coins := coins - {txid};
          } else {
            coins := coins[txid := child[txid].coins];
          }
        }
        todo := todo - {txid};
      }
      assert child - {} == child;
      if hash != 0 {
        best := hash;
      }
    }

    lemma WriteDbNext(coins: map<Txid, Coins>, child: Entries, todo: set<Txid>, txid: Txid)
      requires txid in todo && todo <= child.Keys
      ensures var done := WriteDb(coins, child - todo);
        WriteDb(coins, child - (todo - {txid})) ==
          if !child[txid].isDirty then done
          else if child[txid].coins.IsPruned() then done - {txid}
          else done[txid := child[txid].coins]
    {
    }
  }

  // What a cache writes back to.
  datatype Base = OnDb(db: CCoinsViewDB) | OnCache(cache: CCoinsViewCache)

  class CCoinsViewCache {
    const mem: Memory
    const base: Base
    var cacheCoins: Entries
    var hashBlock: Hash
    var cachedCoinsUsage: nat
    var modifier: Modifier
    ghost const Repr: set<object>
    ghost const depth: nat

    ghost predicate Linked()
      decreases depth
    {
      && this in Repr
      && match base
         case OnDb(db) => Repr == {this, db}
         case OnCache(c) => c.depth < depth && c.Linked() && c.mem == mem && this !in c.Repr && Repr == {this} + c.Repr
    }

    ghost function Below(): View
      requires Linked()
      reads Repr
      decreases depth, 0
    {
      match base
      case OnDb(db) => Db(db.coins, db.best)
      case OnCache(c) => c.Value()
    }

    ghost function Value(): View
      requires Linked()
      reads Repr
      decreases depth, 1
    {
      Cache(Below(), cacheCoins, hashBlock, cachedCoinsUsage, modifier)
    }

    constructor OverDb(mem: Memory, db: CCoinsViewDB)
      ensures Linked() && base == OnDb(db) && this.mem == mem && Repr == {this, db}
      ensures Value() == Push(Db(db.coins, db.best))
    {
      this.mem := mem;
      base := OnDb(db);
      cacheCoins, hashBlock, cachedCoinsUsage, modifier := map[], 0, 0, NoModifier;
      Repr := {this, db};
      depth := 0;
    }

    constructor OverCache(mem: Memory, c: CCoinsViewCache)
      requires c.Linked() && c.mem == mem
      ensures Linked() && base == OnCache(c) && this.mem == mem && Repr == {this} + c.Repr
      ensures Value() == Push(c.Value())
    {
      this.mem := mem;
      base := OnCache(c);
      cacheCoins, hashBlock, cachedCoinsUsage, modifier := map[], 0, 0, NoModifier;
      Repr := {this} + c.Repr;
      depth := c.depth + 1;
    }

    // base->GetCoins
    method GetFromBase(txid: Txid) returns (found: bool, coins: Coins)
      requires Linked()
      modifies Repr - {this}
      ensures Below() == Fetch(mem, old(Below()), txid)
      ensures found <==> Look(old(Below()), txid).Some?
      ensures found ==> coins == Look(old(Below()), txid).value
      decreases depth, 0
    {
      match base {
        case OnDb(db) =>
          found := txid in db.coins;
          coins := if found then db.coins[txid] else EMPTY;
        case OnCache(c) =>
          found, coins := c.GetCoins(txid);
      }
    }

    method FetchCoins(txid: Txid) returns (found: bool)
      requires Linked()
      modifies Repr
      ensures Value() == Fetch(mem, old(Value()), txid)
      ensures found <==> txid in cacheCoins
      decreases depth, 1
    {
      if txid in cacheCoins {
        return true;
      }
      var tmp;
      found, tmp := GetFromBase(txid);
      if found {
        cacheCoins := cacheCoins[txid := Entry(tmp, false, tmp.IsPruned())];
        cachedCoinsUsage := cachedCoinsUsage + mem(tmp);
      }
    }

    method GetCoins(txid: Txid) returns (found: bool, coins: Coins)
      requires Linked()
      modifies Repr
      ensures Value() == Fetch(mem, old(Value()), txid)
      ensures found <==> Look(old(Value()), txid).Some?
      ensures found ==> coins == Look(old(Value()), txid).value
      decreases depth, 2
    {
      FetchCaches(mem, Value(), txid);
      found := FetchCoins(txid);
      coins := if found then cacheCoins[txid].coins else EMPTY;
    }

    method HaveCoins(txid: Txid) returns (have: bool)
      requires Linked() && Inv(mem, Value()) && modifier.NoModifier?
      modifies Repr
      ensures Value() == Fetch(mem, old(Value()), txid)
      ensures have <==> txid in Unspent(old(Value()))
    {
      FetchCaches(mem, Value(), txid);
      HaveCoinsIsExact(mem, Value(), txid);
      var found := FetchCoins(txid);
      have := found && cacheCoins[txid].coins.vout != [];
    }

    method ModifyCoins(txid: Txid)
      requires Linked() && modifier.NoModifier?
      modifies Repr
      ensures Value() == Modify(mem, old(Value()), txid)
    {
      var oldUsage := 0;
      if txid !in cacheCoins {
        var found, coins := GetFromBase(txid);
        if !found {
          cacheCoins := cacheCoins[txid := Entry(EMPTY, false, true)];
        } else {
          cacheCoins := cacheCoins[txid := Entry(coins, false, coins.IsPruned())];
        }
      } else {
        oldUsage := mem(cacheCoins[txid].coins);
      }
      cacheCoins := cacheCoins[txid := cacheCoins[txid].(isDirty := true)];
      modifier := Modifying(txid, oldUsage);
    }

    method ModifyNewCoins(txid: Txid)
      requires Linked() && modifier.NoModifier?
      modifies this
      ensures Value() == ModifyNew(old(Value()), txid)
    {
      cacheCoins := cacheCoins[txid := Entry(EMPTY, true, true)];
      modifier := Modifying(txid, 0);
    }

    method AssignCoins(coins: Coins)
      requires Linked() && modifier.Modifying? && modifier.txid in cacheCoins
      modifies this
      ensures Value() == Assign(old(Value()), coins)
    {
      cacheCoins := cacheCoins[modifier.txid := cacheCoins[modifier.txid].(coins := coins)];
    }

    // ~CCoinsModifier; the subtraction cannot wrap.
    method ReleaseModifier()
      requires Linked() && modifier.Modifying? && modifier.txid in cacheCoins && modifier.oldUsage <= cachedCoinsUsage
      modifies this
      ensures Value() == Release(mem, old(Value()))
    {
      var txid := modifier.txid;
      var oldUsage := modifier.oldUsage;
      modifier := NoModifier;
      cacheCoins := cacheCoins[txid := cacheCoins[txid].(coins := CleanUp(cacheCoins[txid].coins))];
      cachedCoinsUsage := cachedCoinsUsage - oldUsage;
      if cacheCoins[txid].isFresh && cacheCoins[txid].coins.IsPruned() {
        DropPut(old(cacheCoins), txid, cacheCoins[txid]);
        cacheCoins := cacheCoins - {txid};
      } else {
        cachedCoinsUsage := cachedCoinsUsage + mem(cacheCoins[txid].coins);
      }
    }

    lemma DropPut(entries: Entries, txid: Txid, entry: Entry)
      ensures entries[txid := entry] - {txid} == entries - {txid}
    {
    }

    method UncacheCoins(txid: Txid)
      requires Linked()
      requires txid in cacheCoins ==> mem(cacheCoins[txid].coins) <= cachedCoinsUsage || cacheCoins[txid].isDirty || cacheCoins[txid].isFresh
      modifies this
      ensures Value() == Uncache(mem, old(Value()), txid)
    {
      if txid in cacheCoins && !cacheCoins[txid].isDirty && !cacheCoins[txid].isFresh {
        cachedCoinsUsage := cachedCoinsUsage - mem(cacheCoins[txid].coins);
        cacheCoins := cacheCoins - {txid};
      }
    }

    // One entry of the child; no subtraction from the usage wraps.
    method WriteEntry(txid: Txid, child: Entry)
      requires Linked() && child.isDirty && cachedCoinsUsage == Total(mem, cacheCoins)
      modifies `cacheCoins, `cachedCoinsUsage
      ensures cachedCoinsUsage == Total(mem, cacheCoins)
      ensures var ours := old(if txid in cacheCoins then Some(cacheCoins[txid]) else None);
        match MergeEntry(ours, child)
        case None => cacheCoins == old(cacheCoins) - {txid}
        case Some(entry) => cacheCoins == old(cacheCoins)[txid := entry]
    {
      OldUsage(mem, cacheCoins, txid);
      ghost var before := cacheCoins;
      if txid !in cacheCoins {
        NotThere(cacheCoins, txid);
        if !(child.isFresh && child.coins.IsPruned()) {
          var entry := Entry(child.coins, true, child.isFresh);
          TotalPut(mem, cacheCoins, txid, entry);
          cacheCoins := cacheCoins[txid := entry];
          cachedCoinsUsage := cachedCoinsUsage + mem(child.coins);
        }
      } else if cacheCoins[txid].isFresh && child.coins.IsPruned() {
        cachedCoinsUsage := cachedCoinsUsage - mem(cacheCoins[txid].coins);
        cacheCoins := cacheCoins - {txid};
      } else {
        var entry := Entry(child.coins, true, cacheCoins[txid].isFresh);
        TotalPut(mem, cacheCoins, txid, entry);
        cachedCoinsUsage := cachedCoinsUsage - mem(cacheCoins[txid].coins);
        cacheCoins := cacheCoins[txid := entry];
        cachedCoinsUsage := cachedCoinsUsage + mem(child.coins);
      }
    }

    lemma MergeNext(ours: Entries, child: Entries, todo: set<Txid>, txid: Txid)
      requires txid in todo && todo <= child.Keys
      ensures var done := Merge(ours, child - todo);
        && (txid in done <==> txid in ours) && (txid in ours ==> done[txid] == ours[txid])
        && Merge(ours, child - (todo - {txid})) ==
          match MergeEntry(if txid in done then Some(done[txid]) else None, child[txid])
          case None => done - {txid}
          case Some(entry) => done[txid := entry]
    {
    }

    // An entry that is not dirty is not written.
    lemma KeepsOurs(ours: Entries, txid: Txid, child: Entry)
      requires !child.isDirty
      ensures ours == match MergeEntry(if txid in ours then Some(ours[txid]) else None, child)
        case None => ours - {txid}
        case Some(entry) => ours[txid := entry]
    {
    }

    lemma MergeNothing(ours: Entries, child: Entries)
      ensures Merge(ours, child - child.Keys) == ours
    {
    }

    // The entries of the child in any order; the parent's accounting must be in order.
    method BatchWriteCache(child: Entries, hash: Hash)
      requires Linked() && modifier.NoModifier? && cachedCoinsUsage == Total(mem, cacheCoins)
      modifies this
      ensures Value() == BatchWrite(mem, old(Value()), child, hash)
    {
      hide Merge, MergeEntry, Merged, Total;
      ghost var before := cacheCoins;
      var todo := child.Keys;
      MergeNothing(before, child);
      while todo != {}
        invariant todo <= child.Keys
        invariant cacheCoins == Merge(before, child - todo)
        invariant cachedCoinsUsage == Total(mem, cacheCoins)
        invariant modifier == old(modifier)
        decreases todo
      {
        var txid :| txid in todo;
        MergeNext(before, child, todo, txid);
        if child[txid].isDirty {
          WriteEntry(txid, child[txid]);
        } else {
          KeepsOurs(cacheCoins, txid, child[txid]);
        }
        todo := todo - {txid};
      }
      assert child - {} == child;
      hashBlock := hash;
    }

    lemma BaseIsSettled(v: View)
      requires v.Cache? && v.base.Cache? && Inv(mem, v)
      ensures v.base.modifier.NoModifier? && v.base.usage == Total(mem, v.base.entries)
    {
    }

    method BatchWriteBase()
      requires Linked() && Inv(mem, Value())
      modifies Repr - {this}
      ensures Below() == BatchWrite(mem, old(Below()), cacheCoins, hashBlock)
    {
      match base {
        case OnDb(db) =>
          hide Inv, WriteDb;
          db.BatchWriteDb(cacheCoins, hashBlock);
        case OnCache(c) =>
          assert Below() == c.Value();
          BaseIsSettled(Value());
          hide Inv, Merge, Total;
          c.BatchWriteCache(cacheCoins, hashBlock);
      }
    }

    // Write everything back and forget it.
    method FlushCoins()
      requires Linked() && Inv(mem, Value()) && modifier.NoModifier?
      modifies Repr
      ensures Value() == Flush(mem, old(Value()))
      ensures Inv(mem, Value()) && Unspent(Below()) == Unspent(old(Value())) == Unspent(Value())
    {
      hide Inv, Unspent, Levels, BatchWrite;
      FlushKeeps(mem, Value());
      BatchWriteBase();
      cacheCoins := map[];
      cachedCoinsUsage := 0;
    }

    // The first answer is remembered, on every level that has none.
    method GetBestBlock() returns (hash: Hash)
      requires Linked()
      modifies Repr
      ensures hash == BestBlock(old(Value())) == BestBlock(Value())
      ensures Value() == Learn(old(Value()))
      decreases depth
    {
      hide Overlay;
      if hashBlock == 0 {
        match base {
          case OnDb(db) => hashBlock := db.best;
          case OnCache(c) => hashBlock := c.GetBestBlock();
        }
      }
      hash := hashBlock;
    }

    method SetBestBlock(hash: Hash)
      requires Linked()
      modifies this
      ensures Value() == old(Value()).(best := hash)
    {
      hashBlock := hash;
    }
  }
}
