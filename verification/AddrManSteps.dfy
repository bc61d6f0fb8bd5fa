/** Each primitive step of the address table keeps the core invariant, and what it does to
    the set of unreferenced entries and to the two populations. */
module AddrSteps {
  import opened AddrTypes
  import opened AddrState

  // An entry without its position in vRandom.
  ghost function Bare(info: AddrInfo): AddrInfo {
    info.(nRandomPos := 0)
  }

  // The entries of a are those of b restricted to keys, up to vRandom positions.
  ghost predicate SameEntries(a: map<int, AddrInfo>, b: map<int, AddrInfo>, keys: set<int>) {
    && a.Keys == keys
    && forall id | id in keys :: id in b && Bare(a[id]) == Bare(b[id])
  }

  lemma SlotsAfterErase(t: Table, slot: Slot, id: int)
    ensures SlotsOf(t - {slot}, id) == SlotsOf(t, id) - {slot}
  {
  }

  lemma SlotsAfterPut(t: Table, slot: Slot, v: int, id: int)
    requires slot !in t
    ensures SlotsOf(t[slot := v], id) == if id == v then SlotsOf(t, id) + {slot} else SlotsOf(t, id)
  {
  }

  // ---------------------------------------------------------------- Create

  lemma CreateRandom(info: map<int, AddrInfo>, random: seq<int>, id: int, entry: AddrInfo)
    requires RandomOk(info, random) && id !in info && entry.nRandomPos == |random|
    ensures RandomOk(info[id := entry], random + [id])
  {
  }

  lemma CreateRefs(info: map<int, AddrInfo>, env: Env, key: Key, newTable: Table, id: int, entry: AddrInfo)
    requires RefsOk(info, newTable) && NewOk(env, key, info, newTable)
    requires id !in info && entry.nRefCount == 0
    ensures RefsOk(info[id := entry], newTable)
  {
    assert SlotsOf(newTable, id) == {};
  }

  lemma CreatePopulations(info: map<int, AddrInfo>, id: int, entry: AddrInfo)
    requires id !in info && !entry.fInTried && entry.nRefCount == 0
    ensures Orphans(info[id := entry]) == Orphans(info) + {id}
    ensures TriedIds(info[id := entry]) == TriedIds(info)
    ensures NewIds(info[id := entry]) == NewIds(info) + {id}
  {
  }

  lemma CreateStep(s: State, addr: Address, source: NetAddr)
    requires Core(s) && addr.service.ip !in s.addr
    ensures s.nIdCount !in s.info
    ensures Core(Create(s, addr, source))
    ensures Orphans(Create(s, addr, source).info) == Orphans(s.info) + {s.nIdCount}
    ensures TriedIds(Create(s, addr, source).info) == TriedIds(s.info)
    ensures NewIds(Create(s, addr, source).info) == NewIds(s.info) + {s.nIdCount}
  {
    var entry := InfoOf(addr, source).(nRandomPos := |s.random|);
    CreateRandom(s.info, s.random, s.nIdCount, entry);
    CreateRefs(s.info, s.env, s.key, s.newTable, s.nIdCount, entry);
    CreatePopulations(s.info, s.nIdCount, entry);
  }

  // ---------------------------------------------------------------- SwapRandom and Delete

  lemma SwapPositions(s: State, i: nat, j: nat)
    requires RandomOk(s.info, s.random) && i < |s.random| && j < |s.random|
    ensures RandomOk(SwapRandom(s, i, j).info, SwapRandom(s, i, j).random)
    ensures SameEntries(SwapRandom(s, i, j).info, s.info, s.info.Keys)
    ensures SwapRandom(s, i, j).random == s.random[i := s.random[j]][j := s.random[i]]
  {
    if i != j {
      var t := SwapRandom(s, i, j);
      assert s.random[i] != s.random[j] && t.info.Keys == s.info.Keys;
      forall id | id in t.info ensures id in t.random {
        var k :| 0 <= k < |s.random| && s.random[k] == id;
        assert t.random[if k == i then j else if k == j then i else k] == id;
      }
    }
  }

  // Dropping one untried entry without cells, and moving others in vRandom, keeps the rest.
  lemma ShrinkKeepsIndexes(a: map<int, AddrInfo>, b: map<int, AddrInfo>, addr: map<NetAddr, int>, id: int)
    requires id in b && AddrOk(b, addr) && SameEntries(a, b, b.Keys - {id})
    ensures AddrOk(a, addr - {b[id].service.ip})
  {
    forall k | k in a ensures a[k].service == b[k].service {
      assert Bare(a[k]) == Bare(b[k]);
    }
  }

  lemma ShrinkKeepsTables(env: Env, key: Key, a: map<int, AddrInfo>, b: map<int, AddrInfo>, newTable: Table, triedTable: Table, gone: set<int>)
    requires SameEntries(a, b, b.Keys - gone)
    requires NewOk(env, key, b, newTable) && TriedOk(env, key, b, triedTable) && RefsOk(b, newTable)
    requires forall id | id in gone && id in b :: !b[id].fInTried && b[id].nRefCount == 0
    ensures NewOk(env, key, a, newTable) && TriedOk(env, key, a, triedTable) && RefsOk(a, newTable)
  {
    forall k | k in a ensures a[k].service == b[k].service && a[k].fInTried == b[k].fInTried && a[k].nRefCount == b[k].nRefCount {
      assert Bare(a[k]) == Bare(b[k]);
    }
    assert forall k | k in b && b[k].fInTried :: k in a;
    forall slot | slot in newTable ensures newTable[slot] in a {
      assert slot in SlotsOf(newTable, newTable[slot]);
    }
  }

  lemma ShrinkPopulations(a: map<int, AddrInfo>, b: map<int, AddrInfo>, gone: set<int>)
    requires SameEntries(a, b, b.Keys - gone)
    requires forall id | id in gone && id in b :: !b[id].fInTried
    ensures Orphans(a) == Orphans(b) - gone
    ensures TriedIds(a) == TriedIds(b)
    ensures NewIds(a) == NewIds(b) - gone
  {
    assert forall k | k in b && b[k].fInTried :: k in a;
    forall k | k in a ensures a[k].fInTried == b[k].fInTried && a[k].nRefCount == b[k].nRefCount {
      assert Bare(a[k]) == Bare(b[k]);
    }
  }

  lemma ShrinkKeepsAddr(a: map<int, AddrInfo>, b: map<int, AddrInfo>, addr: map<NetAddr, int>)
    requires AddrOk(b, addr) && SameEntries(a, b, b.Keys)
    ensures AddrOk(a, addr)
  {
    forall k | k in a ensures a[k].service == b[k].service {
      assert Bare(a[k]) == Bare(b[k]);
    }
  }

  lemma SwapStep(s: State, i: nat, j: nat)
    requires Core(s) && i < |s.random| && j < |s.random|
    ensures Core(SwapRandom(s, i, j))
    ensures SameEntries(SwapRandom(s, i, j).info, s.info, s.info.Keys)
    ensures Orphans(SwapRandom(s, i, j).info) == Orphans(s.info)
    ensures TriedIds(SwapRandom(s, i, j).info) == TriedIds(s.info)
    ensures NewIds(SwapRandom(s, i, j).info) == NewIds(s.info)
  {
    var t := SwapRandom(s, i, j);
    SwapPositions(s, i, j);
    assert s.info.Keys - {} == s.info.Keys;
    ShrinkKeepsTables(s.env, s.key, t.info, s.info, s.newTable, s.triedTable, {});
    ShrinkPopulations(t.info, s.info, {});
    ShrinkKeepsAddr(t.info, s.info, s.addr);
  }

  // Taking the last listed entry off vRandom.
  lemma PopPositions(info: map<int, AddrInfo>, random: seq<int>, id: int)
    requires RandomOk(info, random) && random != [] && random[|random| - 1] == id
    ensures RandomOk(info - {id}, random[..|random| - 1])
  {
    forall k | k in info - {id} ensures k in random[..|random| - 1] {
      var i :| 0 <= i < |random| && random[i] == k;
      assert random[..|random| - 1][i] == k;
    }
  }

  lemma DeleteSwaps(s: State, id: int)
    requires RandomOk(s.info, s.random) && id in s.info
    ensures 0 <= s.info[id].nRandomPos < |s.random| && s.random[|s.random| - 1] in s.info && s.random[s.info[id].nRandomPos] == id
    ensures var u := SwapRandom(s, s.info[id].nRandomPos, |s.random| - 1);
      && id in u.info && u.info[id].service == s.info[id].service && u.addr == s.addr
      && |u.random| == |s.random| && u.random[|u.random| - 1] == id
      && Delete(s, id) == u.(random := u.random[..|u.random| - 1], addr := s.addr - {s.info[id].service.ip}, info := u.info - {id}, nNew := s.nNew - 1)
  {
    ListedAtPosition(s.info, s.random, id);
  }

  lemma DeletePositions(s: State, id: int)
    requires RandomOk(s.info, s.random) && id in s.info
    ensures RandomOk(Delete(s, id).info, Delete(s, id).random)
    ensures SameEntries(Delete(s, id).info, s.info, s.info.Keys - {id})
    ensures Delete(s, id).addr == s.addr - {s.info[id].service.ip}
  {
    hide RandomOk, SwapRandom, Delete;
    DeleteSwaps(s, id);
    SwapPositions(s, s.info[id].nRandomPos, |s.random| - 1);
    var u := SwapRandom(s, s.info[id].nRandomPos, |s.random| - 1);
    PopPositions(u.info, u.random, id);
  }

  lemma DeleteStep(s: State, id: int)
    requires Core(s) && id in s.info && !s.info[id].fInTried && s.info[id].nRefCount == 0
    ensures Core(Delete(s, id))
    ensures SameEntries(Delete(s, id).info, s.info, s.info.Keys - {id})
    ensures Orphans(Delete(s, id).info) == Orphans(s.info) - {id}
    ensures TriedIds(Delete(s, id).info) == TriedIds(s.info)
    ensures NewIds(Delete(s, id).info) == NewIds(s.info) - {id}
    ensures Delete(s, id) == s.(info := Delete(s, id).info, random := Delete(s, id).random, addr := s.addr - {s.info[id].service.ip}, nNew := s.nNew - 1)
  {
    var t := Delete(s, id);
    DeletePositions(s, id);
    ShrinkKeepsIndexes(t.info, s.info, s.addr, id);
    ShrinkKeepsTables(s.env, s.key, t.info, s.info, s.newTable, s.triedTable, {id});
    ShrinkPopulations(t.info, s.info, {id});
  }

  // ---------------------------------------------------------------- cells of the new table

  // nNew minus what it should count; every step of an operation accounts for its change.
  ghost function Surplus(s: State): int {
    s.nNew - |NewIds(s.info)|
  }

  // Entry id gets refs references and nothing else changes.
  function WithRefs(info: map<int, AddrInfo>, id: int, refs: int): map<int, AddrInfo>
    requires id in info
  {
    info[id := info[id].(nRefCount := refs)]
  }

  // Changing one reference count touches neither the indexes nor the tried table.
  lemma RefsKeepIndexes(env: Env, key: Key, info: map<int, AddrInfo>, addr: map<NetAddr, int>, random: seq<int>, triedTable: Table, id: int, refs: int)
    requires id in info && AddrOk(info, addr) && RandomOk(info, random) && TriedOk(env, key, info, triedTable)
    ensures AddrOk(WithRefs(info, id, refs), addr)
    ensures RandomOk(WithRefs(info, id, refs), random)
    ensures TriedOk(env, key, WithRefs(info, id, refs), triedTable)
    ensures TriedIds(WithRefs(info, id, refs)) == TriedIds(info)
    ensures NewIds(WithRefs(info, id, refs)) == NewIds(info)
  {
  }

  lemma RefsOrphans(info: map<int, AddrInfo>, id: int, refs: int)
    requires id in info && !info[id].fInTried
    ensures Orphans(WithRefs(info, id, refs)) == if refs == 0 then Orphans(info) + {id} else Orphans(info) - {id}
  {
  }

  // Taking one cell away from its holder.
  function Unref(s: State, slot: Slot): State
    requires slot in s.newTable && s.newTable[slot] in s.info
  {
    var id := s.newTable[slot];
    s.(info := WithRefs(s.info, id, s.info[id].nRefCount - 1), newTable := s.newTable - {slot})
  }

  lemma UnrefCells(info: map<int, AddrInfo>, newTable: Table, slot: Slot)
    requires RefsOk(info, newTable) && slot in newTable && newTable[slot] in info
    ensures info[newTable[slot]].nRefCount > 0
    ensures RefsOk(WithRefs(info, newTable[slot], info[newTable[slot]].nRefCount - 1), newTable - {slot})
  {
    var id := newTable[slot];
    assert slot in SlotsOf(newTable, id);
    forall k ensures SlotsOf(newTable - {slot}, k) == if k == id then SlotsOf(newTable, k) - {slot} else SlotsOf(newTable, k) {
      SlotsAfterErase(newTable, slot, k);
    }
  }

  lemma UnrefStep(s: State, slot: Slot)
    requires Core(s) && slot in s.newTable
    ensures Core(Unref(s, slot))
    ensures s.info[s.newTable[slot]].nRefCount > 0
    ensures TriedIds(Unref(s, slot).info) == TriedIds(s.info)
    ensures NewIds(Unref(s, slot).info) == NewIds(s.info)
    ensures Orphans(Unref(s, slot).info) == Orphans(s.info) + if s.info[s.newTable[slot]].nRefCount == 1 then {s.newTable[slot]} else {}
  {
    var id := s.newTable[slot];
    UnrefCells(s.info, s.newTable, slot);
    RefsKeepIndexes(s.env, s.key, s.info, s.addr, s.random, s.triedTable, id, s.info[id].nRefCount - 1);
    RefsOrphans(s.info, id, s.info[id].nRefCount - 1);
  }

  // What ClearNew leaves alone.
  ghost predicate Clears(s: State, t: State, slot: Slot) {
    && t.newTable == s.newTable - {slot}
    && t == s.(info := t.info, random := t.random, addr := t.addr, newTable := t.newTable, nNew := t.nNew)
    && TriedIds(t.info) == TriedIds(s.info)
    && Orphans(t.info) == Orphans(s.info)
    && Surplus(t) == Surplus(s)
  }

  lemma ClearLastIs(s: State, slot: Slot)
    requires Core(s) && slot in s.newTable && s.newTable[slot] in s.info && s.info[s.newTable[slot]].nRefCount == 1
    ensures var u, id := Unref(s, slot), s.newTable[slot];
      && Core(u) && id in u.info && !u.info[id].fInTried && u.info[id].nRefCount == 0
      && ClearNew(s, slot) == Delete(u, id)
      && !s.info[id].fInTried && id !in Orphans(s.info)
  {
    hide Delete, AddrOk, IdsOk, TriedOk;
    UnrefStep(s, slot);
  }

  // The last cell of its holder takes the holder with it.
  lemma ClearLastCell(s: State, slot: Slot)
    requires Core(s) && slot in s.newTable && s.newTable[slot] in s.info && s.info[s.newTable[slot]].nRefCount == 1
    ensures Core(ClearNew(s, slot))
    ensures Clears(s, ClearNew(s, slot), slot)
    ensures SameEntries(ClearNew(s, slot).info, s.info, s.info.Keys - {s.newTable[slot]})
  {
    hide Core, ClearNew, Delete, Orphans, TriedIds, RandomOk;
    var id, u := s.newTable[slot], Unref(s, slot);
    ClearLastIs(s, slot);
    UnrefStep(s, slot);
    DeleteStep(u, id);
    assert NewIds(Delete(u, id).info) == NewIds(s.info) - {id} && id in NewIds(s.info);
    SameButOne(Delete(u, id).info, u.info, s.info, id);
  }

  lemma SameButOne(a: map<int, AddrInfo>, b: map<int, AddrInfo>, c: map<int, AddrInfo>, id: int)
    requires SameEntries(a, b, b.Keys - {id}) && b.Keys == c.Keys && forall k | k in c && k != id :: b[k] == c[k]
    ensures SameEntries(a, c, c.Keys - {id})
  {
  }

  lemma ClearNewStep(s: State, slot: Slot)
    requires Core(s)
    ensures Core(ClearNew(s, slot))
    ensures Clears(s, ClearNew(s, slot), slot)
    ensures slot in s.newTable && s.info[s.newTable[slot]].nRefCount == 1 ==> SameEntries(ClearNew(s, slot).info, s.info, s.info.Keys - {s.newTable[slot]})
    ensures !(slot in s.newTable && s.info[s.newTable[slot]].nRefCount == 1) ==> ClearNew(s, slot).info.Keys == s.info.Keys
    ensures forall id | id in s.info && !(slot in s.newTable && id == s.newTable[slot]) ::
      id in ClearNew(s, slot).info && Bare(ClearNew(s, slot).info[id]) == Bare(s.info[id])
  {
    if slot in s.newTable {
      UnrefStep(s, slot);
      if s.info[s.newTable[slot]].nRefCount == 1 {
        hide Core, ClearNew;
        ClearLastCell(s, slot);
      }
    }
  }

  lemma PutCells(info: map<int, AddrInfo>, newTable: Table, slot: Slot, id: int)
    requires RefsOk(info, newTable) && slot !in newTable
    requires id in info && !info[id].fInTried && info[id].nRefCount < NEW_BUCKETS_PER_ADDRESS
    ensures RefsOk(WithRefs(info, id, info[id].nRefCount + 1), newTable[slot := id])
  {
    forall k ensures SlotsOf(newTable[slot := id], k) == if k == id then SlotsOf(newTable, k) + {slot} else SlotsOf(newTable, k) {
      SlotsAfterPut(newTable, slot, id, k);
    }
  }

  lemma PutNewStep(s: State, slot: Slot, id: int)
    requires Core(s) && slot !in s.newTable && slot.bucket < NEW_BUCKET_COUNT
    requires id in s.info && !s.info[id].fInTried && s.info[id].nRefCount < NEW_BUCKETS_PER_ADDRESS
    requires slot.pos == NewPosition(s.env, s.key, s.info[id].service, slot.bucket)
    ensures Core(PutNew(s, slot, id, s.info[id].nRefCount + 1))
    ensures TriedIds(PutNew(s, slot, id, s.info[id].nRefCount + 1).info) == TriedIds(s.info)
    ensures NewIds(PutNew(s, slot, id, s.info[id].nRefCount + 1).info) == NewIds(s.info)
    ensures Orphans(PutNew(s, slot, id, s.info[id].nRefCount + 1).info) == Orphans(s.info) - {id}
  {
    var refs := s.info[id].nRefCount + 1;
    assert refs > 0;
    PutCells(s.info, s.newTable, slot, id);
    RefsKeepIndexes(s.env, s.key, s.info, s.addr, s.random, s.triedTable, id, refs);
    RefsOrphans(s.info, id, refs);
    assert PutNew(s, slot, id, refs).info == WithRefs(s.info, id, refs);
  }

  lemma DropOnce(s: State, id: int, bucket: nat)
    requires Core(s) && id in s.info && !s.info[id].fInTried
    ensures Core(DropFromBucket(s, id, bucket))
    ensures DropFromBucket(s, id, bucket) ==
      s.(info := WithRefs(s.info, id, DropFromBucket(s, id, bucket).info[id].nRefCount),
         newTable := map slot | slot in s.newTable && !(s.newTable[slot] == id && slot.bucket == bucket) :: s.newTable[slot])
  {
    var slot := Slot(bucket, NewPosition(s.env, s.key, s.info[id].service, bucket));
    if slot in s.newTable && s.newTable[slot] == id {
      UnrefStep(s, slot);
      assert DropFromBucket(s, id, bucket) == Unref(s, slot);
    }
    assert forall c | c in s.newTable && s.newTable[c] == id && c.bucket == bucket :: c == slot;
    assert DropFromBucket(s, id, bucket).newTable == map c | c in s.newTable && !(s.newTable[c] == id && c.bucket == bucket) :: s.newTable[c];
  }

  // The new table without the cells that hold id in the first n buckets.
  ghost function Without(newTable: Table, id: int, n: nat): Table {
    map slot | slot in newTable && !(newTable[slot] == id && slot.bucket < n) :: newTable[slot]
  }

  lemma WithoutNext(newTable: Table, id: int, n: nat)
    ensures var t := Without(newTable, id, n);
      Without(newTable, id, n + 1) == map slot | slot in t && !(t[slot] == id && slot.bucket == n) :: t[slot]
  {
  }

  lemma WithoutNothing(t: Table, id: int)
    ensures Without(t, id, 0) == t
  {
  }

  // The bucket loop of MakeTried takes away exactly the cells in the buckets it has passed.
  lemma {:induction false} DropStep(s: State, id: int, n: nat)
    requires Core(s) && id in s.info && !s.info[id].fInTried
    ensures Core(DropFromBuckets(s, id, n))
    ensures DropFromBuckets(s, id, n) ==
      s.(info := WithRefs(s.info, id, DropFromBuckets(s, id, n).info[id].nRefCount), newTable := Without(s.newTable, id, n))
  {
    hide Core, DropFromBucket, Without;
    if n == 0 {
      WithoutNothing(s.newTable, id);
    } else {
      DropStep(s, id, n - 1);
      DropOnce(DropFromBuckets(s, id, n - 1), id, n - 1);
      WithoutNext(s.newTable, id, n - 1);
    }
  }

  lemma DropAll(s: State, id: int)
    requires Core(s) && id in s.info && !s.info[id].fInTried
    ensures Core(DropFromBuckets(s, id, NEW_BUCKET_COUNT))
    ensures DropFromBuckets(s, id, NEW_BUCKET_COUNT) ==
      s.(info := WithRefs(s.info, id, 0), newTable := Without(s.newTable, id, NEW_BUCKET_COUNT))
    ensures SlotsOf(Without(s.newTable, id, NEW_BUCKET_COUNT), id) == {}
    ensures Orphans(WithRefs(s.info, id, 0)) == Orphans(s.info) + {id}
    ensures TriedIds(WithRefs(s.info, id, 0)) == TriedIds(s.info)
    ensures NewIds(WithRefs(s.info, id, 0)) == NewIds(s.info)
  {
    DropStep(s, id, NEW_BUCKET_COUNT);
    assert SlotsOf(Without(s.newTable, id, NEW_BUCKET_COUNT), id) == {};
    RefsOrphans(s.info, id, 0);
    RefsKeepIndexes(s.env, s.key, s.info, s.addr, s.random, s.triedTable, id, 0);
  }

  // ---------------------------------------------------------------- moving between the tables

  function WithTried(info: map<int, AddrInfo>, id: int, fInTried: bool): map<int, AddrInfo>
    requires id in info
  {
    info[id := info[id].(fInTried := fInTried)]
  }

  // MakeTried's removal of the occupant of a tried cell ...
  function Demote(s: State, slot: Slot): State
    requires slot in s.triedTable && s.triedTable[slot] in s.info
  {
    s.(info := WithTried(s.info, s.triedTable[slot], false), triedTable := s.triedTable - {slot}, nTried := s.nTried - 1)
  }

  // ... and its last lines, which enter the new occupant.
  function Promote(s: State, id: int): State
    requires id in s.info
  {
    s.(info := WithTried(s.info, id, true),
       triedTable := s.triedTable[TriedSlot(s.env, s.key, s.info[id].service) := id], nTried := s.nTried + 1)
  }

  lemma TriedFlagKeeps(info: map<int, AddrInfo>, addr: map<NetAddr, int>, random: seq<int>, newTable: Table, id: int, f: bool)
    requires id in info && AddrOk(info, addr) && RandomOk(info, random) && RefsOk(info, newTable) && info[id].nRefCount == 0
    ensures AddrOk(WithTried(info, id, f), addr) && RandomOk(WithTried(info, id, f), random)
    ensures RefsOk(WithTried(info, id, f), newTable)
  {
  }

  lemma TriedFlagPopulations(info: map<int, AddrInfo>, id: int)
    requires id in info && info[id].nRefCount == 0
    ensures TriedIds(WithTried(info, id, true)) == TriedIds(info) + {id}
    ensures NewIds(WithTried(info, id, true)) == NewIds(info) - {id}
    ensures Orphans(WithTried(info, id, true)) == Orphans(info) - {id}
    ensures TriedIds(WithTried(info, id, false)) == TriedIds(info) - {id}
    ensures NewIds(WithTried(info, id, false)) == NewIds(info) + {id}
    ensures Orphans(WithTried(info, id, false)) == Orphans(info) + {id}
  {
  }

  lemma TriedHasNoRefs(info: map<int, AddrInfo>, newTable: Table, id: int)
    requires RefsOk(info, newTable) && id in info && info[id].fInTried
    ensures info[id].nRefCount == 0
  {
    assert info[id].nRefCount == |SlotsOf(newTable, id)|;
  }

  // What the invariant says of the occupant of a tried cell.
  lemma TriedHolder(s: State, slot: Slot)
    requires Core(s) && slot in s.triedTable
    ensures s.triedTable[slot] in s.info
    ensures s.info[s.triedTable[slot]].fInTried && s.info[s.triedTable[slot]].nRefCount == 0
    ensures TriedSlot(s.env, s.key, s.info[s.triedTable[slot]].service) == slot
  {
    var id := s.triedTable[slot];
    assert id in s.info && s.info[id].fInTried;
    TriedHasNoRefs(s.info, s.newTable, id);
  }

  lemma DemoteStep(s: State, slot: Slot)
    requires Core(s) && slot in s.triedTable
    ensures Core(Demote(s, slot))
    ensures TriedIds(Demote(s, slot).info) == TriedIds(s.info) - {s.triedTable[slot]}
    ensures NewIds(Demote(s, slot).info) == NewIds(s.info) + {s.triedTable[slot]}
    ensures Orphans(Demote(s, slot).info) == Orphans(s.info) + {s.triedTable[slot]}
  {
    var id := s.triedTable[slot];
    TriedFlagKeeps(s.info, s.addr, s.random, s.newTable, id, false);
    TriedFlagPopulations(s.info, id);
  }

  lemma PromoteStep(s: State, id: int)
    requires Core(s) && id in Orphans(s.info)
    requires TriedSlot(s.env, s.key, s.info[id].service) !in s.triedTable
    ensures Core(Promote(s, id))
    ensures TriedIds(Promote(s, id).info) == TriedIds(s.info) + {id}
    ensures NewIds(Promote(s, id).info) == NewIds(s.info) - {id}
    ensures Orphans(Promote(s, id).info) == Orphans(s.info) - {id}
  {
    TriedFlagKeeps(s.info, s.addr, s.random, s.newTable, id, true);
    TriedFlagPopulations(s.info, id);
    assert SlotsOf(s.newTable, id) == {};
    forall slot | slot in s.newTable ensures s.newTable[slot] != id {
      assert slot in SlotsOf(s.newTable, s.newTable[slot]);
    }
  }
}
