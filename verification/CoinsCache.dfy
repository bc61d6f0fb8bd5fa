/** Every operation on the top of the cache stack is an operation on the plain maps it stands
    for, keeps what FRESH and DIRTY promise, and keeps the memory accounting. */
module CoinsCache {
  import opened CoinsTypes
  import opened Options
  import opened CoinsView

  // ---------------------------------------------------------------- adding up usages

  lemma {:induction false} TotalWithout(mem: Memory, entries: Entries, txid: Txid)
    requires txid in entries
    ensures Total(mem, entries) == mem(entries[txid].coins) + Total(mem, entries - {txid})
    decreases |entries|
  {
    var first :| first in entries && Total(mem, entries) == mem(entries[first].coins) + Total(mem, entries - {first});
    if first != txid {
      TotalWithout(mem, entries - {first}, txid);
      TotalWithout(mem, entries - {txid}, first);
      assert entries - {first} - {txid} == entries - {txid} - {first};
    }
  }

  lemma TotalPut(mem: Memory, entries: Entries, txid: Txid, entry: Entry)
    ensures Total(mem, entries[txid := entry]) == Total(mem, entries - {txid}) + mem(entry.coins)
  {
    TotalWithout(mem, entries[txid := entry], txid);
    assert entries[txid := entry] - {txid} == entries - {txid};
  }

  lemma NotThere(entries: Entries, txid: Txid)
    requires txid !in entries
    ensures entries - {txid} == entries
  {
  }

  // ---------------------------------------------------------------- reading

  // A lookup finds exactly the unspent coins, apart from pruned leftovers.
  lemma {:induction false} LookFindsUnspent(v: View, txid: Txid)
    ensures Look(v, txid).Some? && !Look(v, txid).value.IsPruned() <==> txid in Unspent(v)
    ensures txid in Unspent(v) ==> Look(v, txid).value == Unspent(v)[txid]
  {
    if v.Cache? && txid !in v.entries {
      LookFindsUnspent(v.base, txid);
    }
  }

  // In a consistent stack a found leftover has no outputs at all.
  lemma {:induction false} LookIsClean(mem: Memory, v: View, txid: Txid)
    requires Inv(mem, v) && (v.Cache? ==> v.modifier.NoModifier?)
    ensures Look(v, txid).Some? ==> IsClean(Look(v, txid).value)
  {
    if v.Cache? && txid !in v.entries {
      LookIsClean(mem, v.base, txid);
    }
  }

  // HaveCoins tests for an empty output list instead of a pruned one; the two agree.
  lemma HaveCoinsIsExact(mem: Memory, v: View, txid: Txid)
    requires Inv(mem, v) && (v.Cache? ==> v.modifier.NoModifier?)
    ensures Look(v, txid).Some? && Look(v, txid).value.vout != [] <==> txid in Unspent(v)
  {
    LookIsClean(mem, v, txid);
    LookFindsUnspent(v, txid);
    if Look(v, txid).Some? && Look(v, txid).value.vout != [] {
      var vout := Look(v, txid).value.vout;
      assert !vout[|vout| - 1].IsNull();
    }
  }

  // What a fetched entry may be: a clean copy of what is below.
  lemma FetchedEntry(below: map<Txid, Coins>, entries: Entries, txid: Txid, coins: Coins)
    requires FlagsOk(below, entries) && AsBelow(below, txid, coins)
    ensures FlagsOk(below, entries[txid := Entry(coins, false, coins.IsPruned())])
  {
  }

  lemma AsBelowIsInvisible(below: map<Txid, Coins>, entries: Entries, txid: Txid, entry: Entry)
    requires txid !in entries && AsBelow(below, txid, entry.coins)
    ensures Overlay(below, entries[txid := entry]) == Overlay(below, entries)
  {
  }

  // Fetching changes no level of the stack.
  lemma {:induction false} FetchKeeps(mem: Memory, v: View, txid: Txid)
    requires Inv(mem, v)
    ensures Inv(mem, Fetch(mem, v, txid))
    ensures Levels(Fetch(mem, v, txid)) == Levels(v) && Unspent(Fetch(mem, v, txid)) == Unspent(v)
    ensures BestBlock(Fetch(mem, v, txid)) == BestBlock(v)
    ensures v.Cache? ==> Fetch(mem, v, txid).Cache? && Fetch(mem, v, txid).modifier == v.modifier
    ensures v.Db? ==> Fetch(mem, v, txid) == v
  {
    if v.Cache? && txid !in v.entries {
      FetchKeeps(mem, v.base, txid);
      FetchedFromBelow(mem, v, txid);
    }
  }

  lemma FetchedFromBelow(mem: Memory, v: View, txid: Txid)
    requires Inv(mem, v) && v.Cache? && txid !in v.entries
    requires Inv(mem, Fetch(mem, v.base, txid))
    requires Levels(Fetch(mem, v.base, txid)) == Levels(v.base) && Unspent(Fetch(mem, v.base, txid)) == Unspent(v.base)
    requires BestBlock(Fetch(mem, v.base, txid)) == BestBlock(v.base)
    requires v.base.Cache? ==> Fetch(mem, v.base, txid).Cache? && Fetch(mem, v.base, txid).modifier == v.base.modifier
    requires v.base.Db? ==> Fetch(mem, v.base, txid) == v.base
    ensures Inv(mem, Fetch(mem, v, txid))
    ensures Levels(Fetch(mem, v, txid)) == Levels(v) && Unspent(Fetch(mem, v, txid)) == Unspent(v)
    ensures BestBlock(Fetch(mem, v, txid)) == BestBlock(v)
    ensures Fetch(mem, v, txid).Cache? && Fetch(mem, v, txid).modifier == v.modifier
  {
    hide Inv, FlagsOk, UsageOk, AllClean, AsBelow, Overlay, Look;
    var w := Fetch(mem, v, txid);
    PartsOfInv(mem, v);
    if Look(v.base, txid).Some? {
      var coins := Look(v.base, txid).value;
      var entry := Entry(coins, false, coins.IsPruned());
      FoundBelow(mem, v.base, txid);
      FetchedEntry(Unspent(v.base), v.entries, txid, coins);
      AsBelowIsInvisible(Unspent(v.base), v.entries, txid, entry);
      FetchedUsage(mem, v.entries, v.usage, v.modifier, txid, entry);
      FetchedClean(v.entries, v.modifier, txid, entry);
    }
    InvOfParts(mem, w);
  }

  lemma PartsOfInv(mem: Memory, v: View)
    requires Inv(mem, v) && v.Cache?
    ensures Inv(mem, v.base) && (v.base.Cache? ==> v.base.modifier.NoModifier?)
    ensures FlagsOk(Unspent(v.base), v.entries) && UsageOk(mem, v.entries, v.usage, v.modifier) && AllClean(v.entries, v.modifier)
  {
  }

  lemma InvOfParts(mem: Memory, v: View)
    requires v.Cache? && Inv(mem, v.base) && (v.base.Cache? ==> v.base.modifier.NoModifier?)
    requires FlagsOk(Unspent(v.base), v.entries) && UsageOk(mem, v.entries, v.usage, v.modifier) && AllClean(v.entries, v.modifier)
    ensures Inv(mem, v)
  {
  }

  lemma FoundBelow(mem: Memory, v: View, txid: Txid)
    requires Inv(mem, v) && (v.Cache? ==> v.modifier.NoModifier?) && Look(v, txid).Some?
    ensures AsBelow(Unspent(v), txid, Look(v, txid).value) && IsClean(Look(v, txid).value)
  {
    LookFindsUnspent(v, txid);
    LookIsClean(mem, v, txid);
  }

  lemma FetchedClean(entries: Entries, modifier: Modifier, txid: Txid, entry: Entry)
    requires AllClean(entries, modifier) && IsClean(entry.coins)
    ensures AllClean(entries[txid := entry], modifier)
  {
  }

  lemma FetchedUsage(mem: Memory, entries: Entries, usage: nat, modifier: Modifier, txid: Txid, entry: Entry)
    requires UsageOk(mem, entries, usage, modifier) && txid !in entries
    ensures UsageOk(mem, entries[txid := entry], usage + mem(entry.coins), modifier)
  {
    match modifier
    case NoModifier =>
      TotalPut(mem, entries, txid, entry);
      NotThere(entries, txid);
    case Modifying(live, _) =>
      TotalPut(mem, entries - {live}, txid, entry);
      NotThere(entries - {live}, txid);
      assert entries[txid := entry] - {live} == (entries - {live})[txid := entry];
  }

  // After a fetch the top cache has what there is to have.
  lemma FetchCaches(mem: Memory, v: View, txid: Txid)
    requires v.Cache?
    ensures txid in Fetch(mem, v, txid).entries <==> Look(v, txid).Some?
    ensures Look(v, txid).Some? ==> Fetch(mem, v, txid).entries[txid].coins == Look(v, txid).value
  {
  }

  // ---------------------------------------------------------------- modifying

  // One line of a plain map rewritten; pruned coins are taken out.
  ghost function Written(m: map<Txid, Coins>, txid: Txid, coins: Coins): map<Txid, Coins> {
    if coins.IsPruned() then m - {txid} else m[txid := coins]
  }

  lemma OverlayPut(below: map<Txid, Coins>, entries: Entries, txid: Txid, entry: Entry)
    ensures Overlay(below, entries[txid := entry]) == Written(Overlay(below, entries), txid, entry.coins)
  {
  }

  lemma OverlayDrop(below: map<Txid, Coins>, entries: Entries, txid: Txid)
    ensures Overlay(below, entries - {txid}) ==
      if txid in below then Overlay(below, entries)[txid := below[txid]] else Overlay(below, entries) - {txid}
  {
  }

  // An entry with the coins the overlay shows already.
  lemma OverlaySame(below: map<Txid, Coins>, entries: Entries, txid: Txid, coins: Coins)
    requires AsBelow(Overlay(below, entries), txid, coins)
    ensures Written(Overlay(below, entries), txid, coins) == Overlay(below, entries)
  {
  }

  lemma FlagsPut(below: map<Txid, Coins>, entries: Entries, txid: Txid, entry: Entry)
    requires FlagsOk(below, entries) && (!entry.isDirty ==> AsBelow(below, txid, entry.coins))
    ensures FlagsOk(below, entries[txid := entry]) <==> (entry.isFresh ==> txid !in below)
  {
    assert txid in entries[txid := entry];
  }

  lemma FlagsDrop(below: map<Txid, Coins>, entries: Entries, txid: Txid)
    requires FlagsOk(below, entries)
    ensures FlagsOk(below, entries - {txid})
  {
  }

  lemma PutDrop(entries: Entries, txid: Txid, entry: Entry)
    ensures entries[txid := entry] - {txid} == entries - {txid}
  {
  }

  // The overlay shows an entry's coins.
  lemma OverlayShows(below: map<Txid, Coins>, entries: Entries, txid: Txid)
    requires txid in entries
    ensures AsBelow(Overlay(below, entries), txid, entries[txid].coins)
  {
  }

  lemma ModifyPresent(mem: Memory, v: View, txid: Txid)
    requires v.Cache? && v.modifier.NoModifier? && Inv(mem, v) && txid in v.entries
    ensures Inv(mem, Modify(mem, v, txid))
    ensures Unspent(Modify(mem, v, txid)) == Unspent(v)
  {
    hide FlagsOk, Overlay, Total, AsBelow, Unspent;
    var entry := v.entries[txid].(isDirty := true);
    TotalWithout(mem, v.entries, txid);
    PutDrop(v.entries, txid, entry);
    OverlayPut(Unspent(v.base), v.entries, txid, entry);
    OverlayShows(Unspent(v.base), v.entries, txid);
    OverlaySame(Unspent(v.base), v.entries, txid, entry.coins);
    FreshIsNotBelow(Unspent(v.base), v.entries, txid);
    FlagsPut(Unspent(v.base), v.entries, txid, entry);
    UnspentIsOverlay(v);
    UnspentIsOverlay(Modify(mem, v, txid));
  }

  lemma FreshIsNotBelow(below: map<Txid, Coins>, entries: Entries, txid: Txid)
    requires FlagsOk(below, entries) && txid in entries
    ensures entries[txid].isFresh ==> txid !in below
  {
  }

  lemma UnspentIsOverlay(v: View)
    requires v.Cache?
    ensures Unspent(v) == Overlay(Unspent(v.base), v.entries)
  {
  }

  lemma ModifyAbsent(mem: Memory, v: View, txid: Txid)
    requires v.Cache? && v.modifier.NoModifier? && Inv(mem, v) && txid !in v.entries
    ensures Inv(mem, Modify(mem, v, txid))
    ensures Unspent(Modify(mem, v, txid)) == Unspent(v)
    ensures Levels(Modify(mem, v, txid).base) == Levels(v.base) && BestBlock(Modify(mem, v, txid).base) == BestBlock(v.base)
  {
    hide FlagsOk, Overlay, Total, AsBelow, Unspent, Look, Fetch, IsClean, Levels, BestBlock;
    FetchKeeps(mem, v.base, txid);
    FetchMeans(v.base, txid);
    var t := Modify(mem, v, txid);
    var entry := t.entries[txid];
    NotThere(v.entries, txid);
    PutDrop(v.entries, txid, entry);
    FlagsPut(Unspent(v.base), v.entries, txid, entry);
    AsBelowIsInvisible(Unspent(v.base), v.entries, txid, entry);
    UnspentIsOverlay(v);
    UnspentIsOverlay(t);
  }

  // The coins found below, or the empty ones, are as below.
  lemma FetchMeans(v: View, txid: Txid)
    ensures Look(v, txid).None? ==> txid !in Unspent(v) && AsBelow(Unspent(v), txid, EMPTY)
    ensures Look(v, txid).Some? ==> AsBelow(Unspent(v), txid, Look(v, txid).value)
    ensures Look(v, txid).Some? && Look(v, txid).value.IsPruned() ==> txid !in Unspent(v)
  {
    LookFindsUnspent(v, txid);
  }

  // Opening an entry for modification changes no level of the stack.
  lemma ModifyKeeps(mem: Memory, v: View, txid: Txid)
    requires v.Cache? && v.modifier.NoModifier? && Inv(mem, v)
    ensures Inv(mem, Modify(mem, v, txid))
    ensures Levels(Modify(mem, v, txid)) == Levels(v)
    ensures BestBlock(Modify(mem, v, txid)) == BestBlock(v)
    ensures Modify(mem, v, txid).modifier.Modifying? && Modify(mem, v, txid).modifier.txid == txid
  {
    hide Inv, Unspent, Overlay;
    if txid in v.entries {
      ModifyPresent(mem, v, txid);
    } else {
      ModifyAbsent(mem, v, txid);
    }
  }

  // Marking a new entry FRESH and counting it from zero is right, for the flags, the usage and
  // what the cache shows, exactly when nothing unspent lies below and any entry already cached
  // is empty.
  lemma ModifyNewKeepsIff(mem: Memory, v: View, txid: Txid)
    requires v.Cache? && v.modifier.NoModifier? && Inv(mem, v)
    ensures Inv(mem, ModifyNew(v, txid)) && Levels(ModifyNew(v, txid)) == Levels(v) <==>
      txid !in Unspent(v.base) && (txid in v.entries ==> v.entries[txid].coins.vout == [])
    ensures BestBlock(ModifyNew(v, txid)) == BestBlock(v)
    ensures Levels(ModifyNew(v, txid)) == Levels(v.base) + [Unspent(v) - {txid}]
  {
    var t := ModifyNew(v, txid);
    ModifyNewShows(v, txid);
    ModifyNewInv(mem, v, txid);
    EntryShows(v, txid);
    hide Inv, FlagsOk, Overlay, Total, Unspent, IsClean;
    if Levels(t) == Levels(v) {
      assert Levels(v)[|Levels(v.base)|] == Unspent(v);
      assert Levels(t)[|Levels(v.base)|] == Unspent(v) - {txid};
    } else {
      assert Unspent(v) - {txid} != Unspent(v);
      assert txid in Unspent(v);
    }
  }

  // The promise of the flags alone does not protect the coins of an entry without usage.
  lemma ModifyNewInv(mem: Memory, v: View, txid: Txid)
    requires v.Cache? && v.modifier.NoModifier? && Inv(mem, v)
    ensures Inv(mem, ModifyNew(v, txid)) <==>
      txid !in Unspent(v.base) && (txid in v.entries ==> mem(v.entries[txid].coins) == 0)
  {
    hide FlagsOk, Overlay, Total, Unspent;
    var t := ModifyNew(v, txid);
    PutDrop(v.entries, txid, t.entries[txid]);
    OldUsage(mem, v.entries, txid);
    FlagsPut(Unspent(v.base), v.entries, txid, t.entries[txid]);
  }

  lemma ModifyNewShows(v: View, txid: Txid)
    requires v.Cache? && v.modifier.NoModifier?
    ensures Levels(ModifyNew(v, txid)) == Levels(v.base) + [Unspent(v) - {txid}]
  {
    hide FlagsOk, Overlay, Unspent;
    var t := ModifyNew(v, txid);
    OverlayPut(Unspent(v.base), v.entries, txid, t.entries[txid]);
    UnspentIsOverlay(v);
    UnspentIsOverlay(t);
  }

  lemma EntryShows(v: View, txid: Txid)
    requires v.Cache? && v.modifier.NoModifier? && AllClean(v.entries, NoModifier)
    ensures txid in v.entries ==> (txid in Unspent(v) <==> v.entries[txid].coins.vout != [])
    ensures txid !in v.entries ==> (txid in Unspent(v) <==> txid in Unspent(v.base))
  {
    if txid in v.entries {
      assert IsClean(v.entries[txid].coins);
    }
    UnspentIsOverlay(v);
    OverlayAt(Unspent(v.base), v.entries, txid);
  }

  lemma OldUsage(mem: Memory, entries: Entries, txid: Txid)
    ensures Total(mem, entries) == Total(mem, entries - {txid}) + if txid in entries then mem(entries[txid].coins) else 0
  {
    if txid in entries {
      TotalWithout(mem, entries, txid);
    } else {
      NotThere(entries, txid);
    }
  }

  lemma AssignKeeps(mem: Memory, v: View, coins: Coins)
    requires v.Cache? && v.modifier.Modifying? && Inv(mem, v)
    ensures Inv(mem, Assign(v, coins))
    ensures Levels(Assign(v, coins)) == Levels(v.base) + [Written(Unspent(v), v.modifier.txid, coins)]
    ensures BestBlock(Assign(v, coins)) == BestBlock(v)
  {
    var txid := v.modifier.txid;
    hide FlagsOk, Overlay, Total, Unspent, Written, AsBelow;
    var entry := v.entries[txid].(coins := coins);
    PutDrop(v.entries, txid, entry);
    FreshIsNotBelow(Unspent(v.base), v.entries, txid);
    FlagsPut(Unspent(v.base), v.entries, txid, entry);
    OverlayPut(Unspent(v.base), v.entries, txid, entry);
    UnspentIsOverlay(v);
    UnspentIsOverlay(Assign(v, coins));
  }

  // Closing the entry trims it, and drops it if it is pruned and nothing lies below.
  lemma ReleaseKeeps(mem: Memory, v: View)
    requires v.Cache? && v.modifier.Modifying? && Inv(mem, v)
    ensures v.modifier.oldUsage <= v.usage
    ensures Inv(mem, Release(mem, v))
    ensures Levels(Release(mem, v)) == Levels(v.base) + [Written(Unspent(v), v.modifier.txid, CleanUp(v.entries[v.modifier.txid].coins))]
    ensures BestBlock(Release(mem, v)) == BestBlock(v)
  {
    hide FlagsOk, Overlay, Total, Unspent, AsBelow, CleanUp, IsClean, Written;
    ReleaseShows(mem, v);
    ReleaseFlags(mem, v);
    CleanUpKeeps(v.entries[v.modifier.txid].coins);
    TotalPut(mem, v.entries, v.modifier.txid, v.entries[v.modifier.txid].(coins := CleanUp(v.entries[v.modifier.txid].coins)));
  }

  lemma ReleaseFlags(mem: Memory, v: View)
    requires v.Cache? && v.modifier.Modifying? && Inv(mem, v)
    ensures v.modifier.oldUsage <= v.usage && FlagsOk(Unspent(v.base), Release(mem, v).entries)
  {
    var txid := v.modifier.txid;
    var entry := v.entries[txid].(coins := CleanUp(v.entries[txid].coins));
    hide FlagsOk, Overlay, Total, Unspent, AsBelow, CleanUp, IsClean;
    FreshIsNotBelow(Unspent(v.base), v.entries, txid);
    FlagsPut(Unspent(v.base), v.entries, txid, entry);
    FlagsDrop(Unspent(v.base), v.entries, txid);
  }

  lemma ReleaseShows(mem: Memory, v: View)
    requires v.Cache? && v.modifier.Modifying? && Inv(mem, v)
    ensures v.modifier.oldUsage <= v.usage
    ensures Unspent(Release(mem, v)) == Written(Unspent(v), v.modifier.txid, CleanUp(v.entries[v.modifier.txid].coins))
  {
    var txid := v.modifier.txid;
    var entry := v.entries[txid].(coins := CleanUp(v.entries[txid].coins));
    hide FlagsOk, Overlay, Total, Unspent, AsBelow, CleanUp, IsClean;
    FreshIsNotBelow(Unspent(v.base), v.entries, txid);
    OverlayPut(Unspent(v.base), v.entries, txid, entry);
    OverlayDrop(Unspent(v.base), v.entries, txid);
    UnspentIsOverlay(v);
    UnspentIsOverlay(Release(mem, v));
  }

  lemma UncacheKeeps(mem: Memory, v: View, txid: Txid)
    requires v.Cache? && Inv(mem, v)
    ensures txid in v.entries ==> mem(v.entries[txid].coins) <= v.usage || v.entries[txid].isDirty || v.entries[txid].isFresh
    ensures Inv(mem, Uncache(mem, v, txid))
    ensures Levels(Uncache(mem, v, txid)) == Levels(v)
    ensures BestBlock(Uncache(mem, v, txid)) == BestBlock(v)
  {
    if txid in v.entries && !v.entries[txid].isDirty && !v.entries[txid].isFresh {
      UncachedUsage(mem, v.entries, v.usage, v.modifier, txid);
      CleanIsInvisible(Unspent(v.base), v.entries, txid);
      FlagsDrop(Unspent(v.base), v.entries, txid);
      hide FlagsOk, Overlay, Total, Unspent, AsBelow, UsageOk;
      UnspentIsOverlay(v);
      UnspentIsOverlay(Uncache(mem, v, txid));
    }
  }

  // An entry that is not dirty can go without a trace.
  lemma CleanIsInvisible(below: map<Txid, Coins>, entries: Entries, txid: Txid)
    requires FlagsOk(below, entries) && txid in entries && !entries[txid].isDirty
    ensures Overlay(below, entries - {txid}) == Overlay(below, entries)
  {
    assert AsBelow(below, txid, entries[txid].coins);
    OverlayDrop(below, entries, txid);
  }

  lemma UncachedUsage(mem: Memory, entries: Entries, usage: nat, modifier: Modifier, txid: Txid)
    requires UsageOk(mem, entries, usage, modifier) && txid in entries && !entries[txid].isDirty
    ensures mem(entries[txid].coins) <= usage
    ensures UsageOk(mem, entries - {txid}, usage - mem(entries[txid].coins), modifier)
  {
    match modifier
    case NoModifier => TotalWithout(mem, entries, txid);
    case Modifying(live, _) =>
      TotalWithout(mem, entries - {live}, txid);
      assert entries - {live} - {txid} == entries - {txid} - {live};
  }

  // ---------------------------------------------------------------- writing back

  // Dropping and merging entries by their flags writes exactly what the child shows.
  lemma MergeShows(below: map<Txid, Coins>, ours: Entries, child: Entries)
    requires FlagsOk(below, ours) && FlagsOk(Overlay(below, ours), child)
    ensures Overlay(below, Merge(ours, child)) == Overlay(Overlay(below, ours), child)
  {
    var m := Merge(ours, child);
    forall txid
      ensures txid in Overlay(below, m) <==> txid in Overlay(Overlay(below, ours), child)
      ensures txid in Overlay(below, m) ==> Overlay(below, m)[txid] == Overlay(Overlay(below, ours), child)[txid]
    {
      MergeShowsAt(below, ours, child, txid);
    }
  }

  lemma MergeShowsAt(below: map<Txid, Coins>, ours: Entries, child: Entries, txid: Txid)
    requires FlagsOk(below, ours) && FlagsOk(Overlay(below, ours), child)
    ensures txid in Overlay(below, Merge(ours, child)) <==> txid in Overlay(Overlay(below, ours), child)
    ensures txid in Overlay(below, Merge(ours, child)) ==> Overlay(below, Merge(ours, child))[txid] == Overlay(Overlay(below, ours), child)[txid]
  {
    OverlayAt(below, ours, txid);
    OverlayAt(Overlay(below, ours), child, txid);
    OverlayAt(below, Merge(ours, child), txid);
    MergeAt(ours, child, txid);
    hide Overlay, Merge;
  }

  lemma OverlayAt(below: map<Txid, Coins>, entries: Entries, txid: Txid)
    ensures txid in Overlay(below, entries) <==> if txid in entries then !entries[txid].coins.IsPruned() else txid in below
    ensures txid in Overlay(below, entries) ==>
              Overlay(below, entries)[txid] == if txid in entries then entries[txid].coins else below[txid]
  {
  }

  lemma MergeAt(ours: Entries, child: Entries, txid: Txid)
    ensures txid in Merge(ours, child) <==> Merged(ours, child, txid).Some?
    ensures txid in Merge(ours, child) ==> Merge(ours, child)[txid] == Merged(ours, child, txid).value
  {
  }

  lemma MergeFlags(below: map<Txid, Coins>, ours: Entries, child: Entries)
    requires FlagsOk(below, ours) && FlagsOk(Overlay(below, ours), child)
    ensures FlagsOk(below, Merge(ours, child))
  {
  }

  lemma WriteDbShows(coins: map<Txid, Coins>, best: Hash, child: Entries, newBest: Hash)
    requires FlagsOk(Unspent(Db(coins, best)), child)
    ensures Unspent(Db(WriteDb(coins, child), newBest)) == Overlay(Unspent(Db(coins, best)), child)
  {
  }

  lemma MergeClean(ours: Entries, child: Entries)
    requires AllClean(ours, NoModifier) && AllClean(child, NoModifier)
    ensures AllClean(Merge(ours, child), NoModifier)
  {
  }

  // Writing back makes the level below show what the child shows.
  lemma BatchWriteKeeps(mem: Memory, v: View, child: Entries, best: Hash)
    requires Inv(mem, v) && (v.Cache? ==> v.modifier.NoModifier?)
    requires FlagsOk(Unspent(v), child) && AllClean(child, NoModifier)
    ensures Inv(mem, BatchWrite(mem, v, child, best))
    ensures BatchWrite(mem, v, child, best).Cache? ==> BatchWrite(mem, v, child, best).modifier.NoModifier?
    ensures Unspent(BatchWrite(mem, v, child, best)) == Overlay(Unspent(v), child)
    ensures Levels(v) != [] && Levels(BatchWrite(mem, v, child, best)) == Levels(v)[|Levels(v)| - 1 := Overlay(Unspent(v), child)]
  {
    match v {
      case Db(coins, ours) =>
        hide FlagsOk, Overlay;
        WriteDbShows(coins, ours, child, BatchWrite(mem, v, child, best).best);
      case Cache(base, ours, _, _, _) =>
        hide FlagsOk, Overlay, Merge, Total, AllClean, Unspent;
        UnspentIsOverlay(v);
        UnspentIsOverlay(BatchWrite(mem, v, child, best));
        MergeShows(Unspent(base), ours, child);
        MergeFlags(Unspent(base), ours, child);
        MergeClean(ours, child);
    }
  }

  lemma EmptyOverlay(below: map<Txid, Coins>)
    requires forall txid | txid in below :: !below[txid].IsPruned()
    ensures Overlay(below, map[]) == below
  {
  }

  lemma UnspentIsNotPruned(v: View)
    ensures forall txid | txid in Unspent(v) :: !Unspent(v)[txid].IsPruned()
  {
    if v.Cache? {
      UnspentIsNotPruned(v.base);
    }
  }

  // Flushing makes the level below equal to the flushed one and changes nothing else.
  lemma FlushKeeps(mem: Memory, v: View)
    requires v.Cache? && v.modifier.NoModifier? && Inv(mem, v)
    ensures Inv(mem, Flush(mem, v))
    ensures Unspent(Flush(mem, v).base) == Unspent(v) && Unspent(Flush(mem, v)) == Unspent(v)
    ensures |Levels(v)| >= 2
    ensures Levels(Flush(mem, v)) == Levels(v)[|Levels(v)| - 2 := Unspent(v)]
  {
    hide FlagsOk, Overlay, Total, BatchWrite, AllClean, Unspent;
    BatchWriteKeeps(mem, v.base, v.entries, v.best);
    var t := Flush(mem, v);
    UnspentIsOverlay(v);
    UnspentIsOverlay(t);
    UnspentIsNotPruned(t.base);
    EmptyOverlay(Unspent(t.base));
    NoEntries(mem, Unspent(t.base));
  }

  lemma NoEntries(mem: Memory, below: map<Txid, Coins>)
    ensures FlagsOk(below, map[]) && Total(mem, map[]) == 0 && AllClean(map[], NoModifier)
  {
  }

  // Flushing keeps the best block unless the null hash of a cache that never learnt its best
  // block overwrites one that the level below has set for itself.
  lemma FlushKeepsBestBlockIff(mem: Memory, v: View)
    requires v.Cache?
    ensures BestBlock(Flush(mem, v)) == BestBlock(v) <==>
      v.best != 0 || v.base.Db? || v.base.best == 0 || BestBlock(v.base.base) == v.base.best
  {
  }

  // So it can be lost: by a new cache on one that stands for block 8, over a database at block 7.
  lemma FlushLosesBestBlock(mem: Memory)
    ensures
      var v := Push(Cache(Db(map[], 7), map[], 8, 0, NoModifier));
      Inv(mem, v) && BestBlock(v) == 8 && BestBlock(Flush(mem, v)) == 7
  {
    var below := Cache(Db(map[], 7), map[], 8, 0, NoModifier);
    NoEntries(mem, Unspent(below.base));
    NoEntries(mem, Unspent(below));
  }
}
