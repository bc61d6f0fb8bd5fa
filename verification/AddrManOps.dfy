/** The operations of the address manager as functions on its state, and the theorem that
    every run of them keeps the structural invariant. */
module AddrOps {
  import opened AddrTypes
  import opened Numbers
  import opened AddrState
  import opened AddrSteps

  // ---------------------------------------------------------------- Good_

  // The new-table cell an evicted tried entry falls back to: the one of its original source.
  function HomeSlot(s: State, id: int): Slot
    requires id in s.info
  {
    NewSlot(s.env, s.key, s.info[id].service, s.info[id].source)
  }

  // Clearing a cell never touches an entry that holds no cell.
  lemma OrphansSurvive(s: State, slot: Slot)
    requires Core(s)
    ensures forall k | k in Orphans(s.info) :: k in ClearNew(s, slot).info && Bare(ClearNew(s, slot).info[k]) == Bare(s.info[k])
  {
    ClearNewStep(s, slot);
    if slot in s.newTable {
      assert slot in SlotsOf(s.newTable, s.newTable[slot]);
    }
  }

  // The first half of an eviction: out of the tried table, and the home cell is made free.
  function MakeRoomAtHome(s: State, slot: Slot): State
    requires Core(s) && slot in s.triedTable
  {
    DemoteStep(s, slot);
    ClearNew(Demote(s, slot), HomeSlot(s, s.triedTable[slot]))
  }

  lemma MakeRoomStep(s: State, slot: Slot)
    requires Core(s) && slot in s.triedTable
    ensures var id := s.triedTable[slot]; var u := MakeRoomAtHome(s, slot);
      && Core(u)
      && HomeSlot(s, id) !in u.newTable
      && Orphans(u.info) == Orphans(s.info) + {id}
      && TriedIds(u.info) == TriedIds(s.info) - {id}
      && Surplus(u) == Surplus(s) - 1
      && u == s.(info := u.info, random := u.random, addr := u.addr, newTable := u.newTable, nNew := u.nNew,
                 triedTable := s.triedTable - {slot}, nTried := s.nTried - 1)
  {
    TriedHolder(s, slot);
    hide Core;
    var id := s.triedTable[slot];
    var d := Demote(s, slot);
    DemoteStep(s, slot);
    ClearNewStep(d, HomeSlot(s, id));
    assert id !in NewIds(s.info);
    hide SameEntries, ClearNew;
  }

  // The evicted entry and the unreferenced ones are still there.
  lemma MakeRoomKeeps(s: State, slot: Slot, k: int)
    requires Core(s) && slot in s.triedTable && (k == s.triedTable[slot] || k in Orphans(s.info))
    ensures k in MakeRoomAtHome(s, slot).info
    ensures Bare(MakeRoomAtHome(s, slot).info[k]) == Bare(s.info[k].(fInTried := false))
  {
    TriedHolder(s, slot);
    hide Core;
    var d := Demote(s, slot);
    DemoteStep(s, slot);
    OrphansSurvive(d, HomeSlot(s, s.triedTable[slot]));
    assert k in Orphans(d.info);
    hide ClearNew;
  }

  // MakeTried's eviction: the occupant of a tried cell goes back to its home cell in the new
  // table, clearing whatever is there.
  function EvictTried(s: State, slot: Slot): State
    requires Core(s) && slot in s.triedTable
  {
    var id := s.triedTable[slot];
    MakeRoomKeeps(s, slot, id);
    var u := MakeRoomAtHome(s, slot);
    PutNew(u, HomeSlot(s, id), id, 1).(nNew := u.nNew + 1)
  }

  lemma CoreIgnoresNNew(s: State, n: int)
    requires Core(s)
    ensures Core(s.(nNew := n))
  {
  }

  lemma EvictTriedStep(s: State, slot: Slot)
    requires Core(s) && slot in s.triedTable
    ensures Core(EvictTried(s, slot))
    ensures Orphans(EvictTried(s, slot).info) == Orphans(s.info)
    ensures TriedIds(EvictTried(s, slot).info) == TriedIds(s.info) - {s.triedTable[slot]}
    ensures Surplus(EvictTried(s, slot)) == Surplus(s)
    ensures EvictTried(s, slot).nTried == s.nTried - 1
    ensures EvictTried(s, slot).triedTable == s.triedTable - {slot}
    ensures EvictTried(s, slot).env == s.env && EvictTried(s, slot).key == s.key
  {
    TriedHolder(s, slot);
    hide Core;
    MakeRoomStep(s, slot);
    var id := s.triedTable[slot];
    MakeRoomKeeps(s, slot, id);
    var u := MakeRoomAtHome(s, slot);
    hide MakeRoomAtHome;
    PutNewStep(u, HomeSlot(s, id), id);
    CoreIgnoresNNew(PutNew(u, HomeSlot(s, id), id, 1), u.nNew + 1);
    assert id !in Orphans(s.info);
  }

  lemma EvictKeepsOrphans(s: State, slot: Slot, k: int)
    requires Core(s) && slot in s.triedTable && k in Orphans(s.info)
    ensures k in EvictTried(s, slot).info && Bare(EvictTried(s, slot).info[k]) == Bare(s.info[k])
  {
    TriedHolder(s, slot);
    hide Core;
    MakeRoomKeeps(s, slot, k);
    MakeRoomKeeps(s, slot, s.triedTable[slot]);
    hide MakeRoomAtHome;
  }

  // The first half of MakeTried: out of all new buckets.
  function Vacate(s: State, id: int): State
    requires id in s.info
    ensures id in Vacate(s, id).info
  {
    var u := DropFromBuckets(s, id, NEW_BUCKET_COUNT);
    u.(nNew := u.nNew - 1)
  }

  lemma VacateStep(s: State, id: int)
    requires Core(s) && id in s.info && !s.info[id].fInTried
    ensures Core(Vacate(s, id))
    ensures Vacate(s, id) ==
      s.(info := WithRefs(s.info, id, 0), newTable := Without(s.newTable, id, NEW_BUCKET_COUNT), nNew := s.nNew - 1)
    ensures Orphans(Vacate(s, id).info) == Orphans(s.info) + {id}
    ensures TriedIds(Vacate(s, id).info) == TriedIds(s.info)
    ensures Surplus(Vacate(s, id)) == Surplus(s) - 1
  {
    hide Core;
    DropAll(s, id);
    CoreIgnoresNNew(DropFromBuckets(s, id, NEW_BUCKET_COUNT), s.nNew - 1);
  }

  // Then the tried cell is made free.
  function MakeRoomInTried(s: State, slot: Slot): State
    requires Core(s)
  {
    if slot in s.triedTable then EvictTried(s, slot) else s
  }

  lemma MakeRoomInTriedStep(s: State, slot: Slot, id: int)
    requires Core(s) && id in Orphans(s.info)
    ensures Core(MakeRoomInTried(s, slot))
    ensures slot !in MakeRoomInTried(s, slot).triedTable
    ensures id in MakeRoomInTried(s, slot).info && Bare(MakeRoomInTried(s, slot).info[id]) == Bare(s.info[id])
    ensures Orphans(MakeRoomInTried(s, slot).info) == Orphans(s.info)
    ensures Surplus(MakeRoomInTried(s, slot)) == Surplus(s)
    ensures MakeRoomInTried(s, slot).nTried - |TriedIds(MakeRoomInTried(s, slot).info)| == s.nTried - |TriedIds(s.info)|
    ensures MakeRoomInTried(s, slot).env == s.env && MakeRoomInTried(s, slot).key == s.key
  {
    if slot in s.triedTable {
      TriedHolder(s, slot);
      hide Core;
      EvictTriedStep(s, slot);
      EvictKeepsOrphans(s, slot, id);
      assert s.triedTable[slot] in TriedIds(s.info);
    }
  }

  function MakeTried(s: State, id: int): State
    requires Core(s) && id in s.info && !s.info[id].fInTried
  {
    var slot := TriedSlot(s.env, s.key, s.info[id].service);
    VacateStep(s, id);
    MakeRoomInTriedStep(Vacate(s, id), slot, id);
    Promote(MakeRoomInTried(Vacate(s, id), slot), id)
  }

  lemma MakeTriedKeeps(s: State, id: int)
    requires Inv(s) && id in s.info && !s.info[id].fInTried
    ensures Inv(MakeTried(s, id))
  {
    hide Core;
    var slot := TriedSlot(s.env, s.key, s.info[id].service);
    var v := Vacate(s, id);
    VacateStep(s, id);
    MakeRoomInTriedStep(v, slot, id);
    var w := MakeRoomInTried(v, slot);
    hide Vacate, MakeRoomInTried;
    PromoteStep(w, id);
    assert id in NewIds(w.info) && id !in TriedIds(w.info);
  }

  // New statistics for an entry; what the structure depends on stays.
  predicate SameStructure(a: AddrInfo, b: AddrInfo) {
    a.service == b.service && a.nRefCount == b.nRefCount && a.fInTried == b.fInTried && a.nRandomPos == b.nRandomPos
  }

  lemma TouchTables(s: State, id: int, entry: AddrInfo)
    requires Core(s) && id in s.info && SameStructure(entry, s.info[id])
    ensures NewOk(s.env, s.key, s.info[id := entry], s.newTable)
    ensures TriedOk(s.env, s.key, s.info[id := entry], s.triedTable)
    ensures RefsOk(s.info[id := entry], s.newTable)
  {
    assert |SlotsOf(s.newTable, id)| >= 0;
  }

  lemma TouchIndexes(s: State, id: int, entry: AddrInfo)
    requires Core(s) && id in s.info && SameStructure(entry, s.info[id])
    ensures IdsOk(s.info[id := entry], s.nIdCount)
    ensures AddrOk(s.info[id := entry], s.addr)
    ensures RandomOk(s.info[id := entry], s.random)
  {
  }

  lemma TouchStep(s: State, id: int, entry: AddrInfo)
    requires Core(s) && id in s.info && SameStructure(entry, s.info[id])
    ensures Core(s.(info := s.info[id := entry]))
    ensures Orphans(s.info[id := entry]) == Orphans(s.info)
    ensures TriedIds(s.info[id := entry]) == TriedIds(s.info)
    ensures NewIds(s.info[id := entry]) == NewIds(s.info)
  {
    TouchTables(s, id, entry);
    TouchIndexes(s, id, entry);
    hide IdsOk, AddrOk, RandomOk, NewOk, TriedOk, RefsOk;
  }

  // Good_'s search, from a random bucket on, for a new bucket the entry is in.
  predicate InSomeNewBucket(s: State, id: int, start: nat)
    requires id in s.info
  {
    exists n: nat | n < NEW_BUCKET_COUNT :: InNewBucket(s, id, n, start)
  }

  // The n-th bucket tried.
  predicate InNewBucket(s: State, id: int, n: nat, start: nat)
    requires id in s.info
  {
    var bucket := (n + start) % NEW_BUCKET_COUNT;
    var slot := Slot(bucket, NewPosition(s.env, s.key, s.info[id].service, bucket));
    slot in s.newTable && s.newTable[slot] == id
  }

  // Wherever the search starts, it finds a bucket.
  lemma UntriedIsInSomeBucket(s: State, id: int, start: nat)
    requires Inv(s) && id in s.info && !s.info[id].fInTried
    ensures InSomeNewBucket(s, id, start)
  {
    assert id !in Orphans(s.info);
    assert |SlotsOf(s.newTable, id)| > 0;
    var slot :| slot in SlotsOf(s.newTable, id);
    var n := (slot.bucket + NEW_BUCKET_COUNT - start % NEW_BUCKET_COUNT) % NEW_BUCKET_COUNT;
    assert (n + start) % NEW_BUCKET_COUNT == slot.bucket;
    assert InNewBucket(s, id, n, start);
  }

  function Good(s: State, service: Service, nTime: int, start: nat): State
    requires Core(s)
  {
    if !KnownExactly(s, service) then s else
      var id := s.addr[service.ip];
      var t := s.(info := s.info[id := s.info[id].(nLastSuccess := nTime, nLastTry := nTime, nAttempts := 0)]);
      TouchStep(s, id, t.info[id]);
      if t.info[id].fInTried || !InSomeNewBucket(t, id, start) then t else MakeTried(t, id)
  }

  lemma GoodKeeps(s: State, service: Service, nTime: int, start: nat)
    requires Inv(s)
    ensures Inv(Good(s, service, nTime, start))
  {
    hide Core;
    if KnownExactly(s, service) {
      var id := s.addr[service.ip];
      var t := s.(info := s.info[id := s.info[id].(nLastSuccess := nTime, nLastTry := nTime, nAttempts := 0)]);
      TouchStep(s, id, t.info[id]);
      if !t.info[id].fInTried && InSomeNewBucket(t, id, start) {
        MakeTriedKeeps(t, id);
      }
    }
  }

  // ---------------------------------------------------------------- Add_

  // Whether the holder of a new-table cell gives way to entry id.
  predicate GivesWay(s: State, holder: int, id: int, now: int)
    requires holder in s.info && id in s.info
  {
    IsTerrible(s.info[holder], now) || (s.info[holder].nRefCount > 1 && s.info[id].nRefCount == 0)
  }

  lemma NewHolder(s: State, slot: Slot)
    requires Core(s) && slot in s.newTable
    ensures s.newTable[slot] in s.info && !s.info[s.newTable[slot]].fInTried && s.info[s.newTable[slot]].nRefCount > 0
  {
    assert slot in SlotsOf(s.newTable, s.newTable[slot]);
  }

  lemma ClearNewKeepsOthers(s: State, slot: Slot, id: int)
    requires Core(s) && id in s.info && !(slot in s.newTable && s.newTable[slot] == id)
    ensures id in ClearNew(s, slot).info && Bare(ClearNew(s, slot).info[id]) == Bare(s.info[id])
  {
    ClearNewStep(s, slot);
  }

  // The second half of Add_: into the cell of this source, if its holder gives way.
  function Insert(s: State, id: int, source: NetAddr, now: int): State
    requires Core(s) && id in s.info
  {
    var slot := NewSlot(s.env, s.key, s.info[id].service, source);
    if slot in s.newTable && s.newTable[slot] == id then
      s
    else if slot !in s.newTable || (NewHolder(s, slot); GivesWay(s, s.newTable[slot], id, now)) then
      ClearNewKeepsOthers(s, slot, id);
      var t := ClearNew(s, slot);
      PutNew(t, slot, id, t.info[id].nRefCount + 1)
    else if s.info[id].nRefCount == 0 then
      Delete(s, id)
    else
      s
  }

  // The three outcomes of the second half of Add_.
  lemma InsertOutcomes(s: State, id: int, source: NetAddr, now: int, slot: Slot)
    requires Core(s) && id in s.info && slot == NewSlot(s.env, s.key, s.info[id].service, source)
    ensures slot in s.newTable ==> s.newTable[slot] in s.info
    ensures slot in s.newTable && s.newTable[slot] == id ==> Insert(s, id, source, now) == s
    ensures slot !in s.newTable || (s.newTable[slot] != id && GivesWay(s, s.newTable[slot], id, now)) ==>
      id in ClearNew(s, slot).info && Insert(s, id, source, now) == PutNew(ClearNew(s, slot), slot, id, ClearNew(s, slot).info[id].nRefCount + 1)
    ensures slot in s.newTable && s.newTable[slot] != id && !GivesWay(s, s.newTable[slot], id, now) ==>
      RandomOk(s.info, s.random) && Insert(s, id, source, now) == if s.info[id].nRefCount == 0 then Delete(s, id) else s
  {
    assert RandomOk(s.info, s.random);
    hide Core, RandomOk, ClearNew, Delete, GivesWay;
    if slot in s.newTable {
      NewHolder(s, slot);
    }
    if !(slot in s.newTable && s.newTable[slot] == id) {
      ClearNewKeepsOthers(s, slot, id);
    }
  }

  lemma InsertKeeps(s: State, id: int, source: NetAddr, now: int)
    requires Core(s) && id in s.info && !s.info[id].fInTried && s.info[id].nRefCount < NEW_BUCKETS_PER_ADDRESS
    requires s.nTried == |TriedIds(s.info)| && s.nNew == |NewIds(s.info)|
    requires Orphans(s.info) <= {id}
    ensures Inv(Insert(s, id, source, now))
  {
    hide Core;
    var slot := NewSlot(s.env, s.key, s.info[id].service, source);
    if slot in s.newTable {
      NewHolder(s, slot);
    }
    if slot in s.newTable && s.newTable[slot] == id {
      assert Orphans(s.info) == {};
    } else if slot !in s.newTable || GivesWay(s, s.newTable[slot], id, now) {
      ClearNewStep(s, slot);
      ClearNewKeepsOthers(s, slot, id);
      PutNewStep(ClearNew(s, slot), slot, id);
    } else if s.info[id].nRefCount == 0 {
      DeleteStep(s, id);
      assert id in NewIds(s.info);
    } else {
      assert Orphans(s.info) == {};
    }
  }

  // Whether Add_ stops at a known entry: no news, already tried, fully referenced, or unlucky.
  predicate KeepsAsIs(entry: AddrInfo, addr: Address, rnd: nat) {
    || addr.nTime == 0
    || (entry.nTime != 0 && addr.nTime <= entry.nTime)
    || entry.fInTried
    || entry.nRefCount == NEW_BUCKETS_PER_ADDRESS
    || (entry.nRefCount > 0 && rnd % Pow(2, entry.nRefCount) != 0)
  }

  // A new entry, with the time penalty applied and counted.
  function Register(s: State, addr: Address, source: NetAddr, penalty: int): State {
    var t := Create(s, addr, source);
    var entry := t.info[s.nIdCount];
    t.(info := t.info[s.nIdCount := entry.(nTime := ToTime(Max(0, entry.nTime - penalty)))], nNew := t.nNew + 1)
  }

  lemma RegisterStep(s: State, addr: Address, source: NetAddr, penalty: int)
    requires Core(s) && addr.service.ip !in s.addr
    ensures Core(Register(s, addr, source, penalty))
    ensures s.nIdCount !in s.info
    ensures Orphans(Register(s, addr, source, penalty).info) == Orphans(s.info) + {s.nIdCount}
    ensures TriedIds(Register(s, addr, source, penalty).info) == TriedIds(s.info)
    ensures Surplus(Register(s, addr, source, penalty)) == Surplus(s)
  {
    hide Core;
    CreateStep(s, addr, source);
    var t := Create(s, addr, source);
    var entry := t.info[s.nIdCount];
    TouchStep(t, s.nIdCount, entry.(nTime := ToTime(Max(0, entry.nTime - penalty))));
    CoreIgnoresNNew(t.(info := Register(s, addr, source, penalty).info), t.nNew + 1);
    assert s.nIdCount !in NewIds(s.info);
  }

  lemma UnknownIsNew(s: State, ip: NetAddr)
    requires Core(s) && !Known(s, ip)
    ensures ip !in s.addr
  {
  }

  // now and later are the two clock readings of Add_, rnd its random draw.
  function Add(s: State, addr: Address, source: NetAddr, penalty: int, now: int, later: int, rnd: nat): (State, bool)
    requires Core(s)
  {
    if !s.env.routable(addr.service.ip) then
      (s, false)
    else if Known(s, addr.service.ip) then
      var id := s.addr[addr.service.ip];
      var t := s.(info := s.info[id := Refresh(s.info[id], addr, penalty, now)]);
      TouchStep(s, id, t.info[id]);
      (if KeepsAsIs(t.info[id], addr, rnd) then t else Insert(t, id, source, later), false)
    else
      UnknownIsNew(s, addr.service.ip);
      RegisterStep(s, addr, source, penalty);
      (Insert(Register(s, addr, source, penalty), s.nIdCount, source, later), true)
  }

  lemma RefsBounded(s: State, id: int)
    requires Core(s) && id in s.info
    ensures s.info[id].nRefCount <= NEW_BUCKETS_PER_ADDRESS
  {
    assert |SlotsOf(s.newTable, id)| >= 0;
  }

  lemma AddKeeps(s: State, addr: Address, source: NetAddr, penalty: int, now: int, later: int, rnd: nat)
    requires Inv(s)
    ensures Inv(Add(s, addr, source, penalty, now, later, rnd).0)
  {
    hide Core;
    if s.env.routable(addr.service.ip) {
      if Known(s, addr.service.ip) {
        var id := s.addr[addr.service.ip];
        var t := s.(info := s.info[id := Refresh(s.info[id], addr, penalty, now)]);
        TouchStep(s, id, t.info[id]);
        if !KeepsAsIs(t.info[id], addr, rnd) {
          RefsBounded(t, id);
          InsertKeeps(t, id, source, later);
        }
      } else {
        UnknownIsNew(s, addr.service.ip);
        RegisterStep(s, addr, source, penalty);
        InsertKeeps(Register(s, addr, source, penalty), s.nIdCount, source, later);
      }
    }
  }

  // ---------------------------------------------------------------- Attempt_, Connected_, GetAddr_

  function Attempt(s: State, service: Service, nTime: int): State {
    if !KnownExactly(s, service) then s else
      var id := s.addr[service.ip];
      s.(info := s.info[id := s.info[id].(nLastTry := nTime, nAttempts := s.info[id].nAttempts + 1)])
  }

  function Connected(s: State, service: Service, nTime: int): State {
    if !KnownExactly(s, service) then s else
      var id := s.addr[service.ip];
      if nTime - s.info[id].nTime > 20 * 60 then s.(info := s.info[id := s.info[id].(nTime := ToTime(nTime))]) else s
  }

  // How many addresses GetAddr_ may return.
  function Quota(size: nat): nat {
    var n := GETADDR_MAX_PCT * size / 100;
    if n > GETADDR_MAX then GETADDR_MAX else n
  }

  // GetRandInt(size - n) + n
  function PickPosition(pick: nat, n: nat, size: nat): (r: nat)
    requires n < size
    ensures n <= r < size
  {
    pick % (size - n) + n
  }

  // One round of GetAddr_: nothing once the quota is met.
  function GetAddrRound(s: State, list: seq<AddrInfo>, now: int, n: nat, pick: nat): (r: (State, seq<AddrInfo>))
    requires RandomOk(s.info, s.random) && n < |s.random|
    ensures RandomOk(r.0.info, r.0.random) && |r.0.random| == |s.random|
  {
    if |list| >= Quota(|s.random|) then (s, list) else
      var pos := PickPosition(pick, n, |s.random|);
      SwapPositions(s, n, pos);
      var t := SwapRandom(s, n, pos);
      var ai := t.info[t.random[n]];
      (t, if IsTerrible(ai, now) then list else list + [ai])
  }

  // GetAddr_ after n rounds: picks are its random draws.
  function GetAddr(s: State, now: int, picks: nat -> nat, n: nat): (r: (State, seq<AddrInfo>))
    requires RandomOk(s.info, s.random) && n <= |s.random|
    ensures RandomOk(r.0.info, r.0.random) && |r.0.random| == |s.random|
  {
    if n == 0 then (s, []) else
      var r := GetAddr(s, now, picks, n - 1);
      GetAddrRound(r.0, r.1, now, n - 1, picks(n - 1))
  }

  lemma SameEntriesTrans(a: map<int, AddrInfo>, b: map<int, AddrInfo>, c: map<int, AddrInfo>)
    requires SameEntries(a, b, b.Keys) && SameEntries(b, c, c.Keys)
    ensures SameEntries(a, c, c.Keys)
  {
    forall id | id in a ensures Bare(a[id]) == Bare(c[id]) {
      assert Bare(a[id]) == Bare(b[id]);
    }
  }

  lemma RoundMoves(s: State, list: seq<AddrInfo>, now: int, n: nat, pick: nat)
    requires RandomOk(s.info, s.random) && n < |s.random|
    ensures var t := GetAddrRound(s, list, now, n, pick).0;
      SameEntries(t.info, s.info, s.info.Keys) && t == s.(info := t.info, random := t.random)
  {
    SwapPositions(s, n, PickPosition(pick, n, |s.random|));
  }

  lemma {:induction false} GetAddrMoves(s: State, now: int, picks: nat -> nat, n: nat)
    requires RandomOk(s.info, s.random) && n <= |s.random|
    ensures var t := GetAddr(s, now, picks, n).0;
      SameEntries(t.info, s.info, s.info.Keys) && t == s.(info := t.info, random := t.random)
  {
    hide GetAddrRound;
    if n > 0 {
      GetAddrMoves(s, now, picks, n - 1);
      var r := GetAddr(s, now, picks, n - 1);
      RoundMoves(r.0, r.1, now, n - 1, picks(n - 1));
      SameEntriesTrans(GetAddr(s, now, picks, n).0.info, r.0.info, s.info);
    }
  }

  // Once the quota is met, the remaining rounds change nothing.
  lemma {:induction false} GetAddrStopped(s: State, now: int, picks: nat -> nat, n: nat, m: nat)
    requires RandomOk(s.info, s.random) && n <= m <= |s.random|
    requires |GetAddr(s, now, picks, n).1| >= Quota(|s.random|)
    ensures GetAddr(s, now, picks, m) == GetAddr(s, now, picks, n)
    decreases m
  {
    hide RandomOk, GetAddrRound, Quota;
    if n < m {
      GetAddrStopped(s, now, picks, n, m - 1);
      var r := GetAddr(s, now, picks, m - 1);
      RoundStopped(r.0, r.1, now, m - 1, picks(m - 1));
    }
  }

  lemma RoundStopped(s: State, list: seq<AddrInfo>, now: int, n: nat, pick: nat)
    requires RandomOk(s.info, s.random) && n < |s.random| && |list| >= Quota(|s.random|)
    ensures GetAddrRound(s, list, now, n, pick) == (s, list)
  {
  }

  // GetAddr_ only reorders vRandom.
  lemma GetAddrKeeps(s: State, now: int, picks: nat -> nat, n: nat)
    requires Inv(s) && n <= |s.random|
    ensures Inv(GetAddr(s, now, picks, n).0)
  {
    GetAddrMoves(s, now, picks, n);
    var t := GetAddr(s, now, picks, n).0;
    hide GetAddr;
    assert s.info.Keys - {} == s.info.Keys;
    ShrinkKeepsTables(s.env, s.key, t.info, s.info, s.newTable, s.triedTable, {});
    ShrinkPopulations(t.info, s.info, {});
    ShrinkKeepsAddr(t.info, s.info, s.addr);
    hide AddrOk, RandomOk, NewOk, TriedOk, RefsOk, SameEntries, Orphans, NewIds, TriedIds;
  }

  lemma AttemptKeeps(s: State, service: Service, nTime: int)
    requires Inv(s)
    ensures Inv(Attempt(s, service, nTime))
  {
    hide Core;
    if KnownExactly(s, service) {
      var id := s.addr[service.ip];
      TouchStep(s, id, Attempt(s, service, nTime).info[id]);
    }
  }

  lemma ConnectedKeeps(s: State, service: Service, nTime: int)
    requires Inv(s)
    ensures Inv(Connected(s, service, nTime))
  {
    hide Core;
    if KnownExactly(s, service) {
      var id := s.addr[service.ip];
      TouchStep(s, id, Connected(s, service, nTime).info[id]);
    }
  }

  // ---------------------------------------------------------------- runs

  // One call on the address manager, with its clock readings and random draws.
  datatype Op =
    | AddOp(addr: Address, source: NetAddr, penalty: int, now: int, later: int, rnd: nat)
    | GoodOp(service: Service, nTime: int, start: nat)
    | AttemptOp(service: Service, nTime: int)
    | ConnectedOp(service: Service, nTime: int)
    | GetAddrOp(now: int, picks: nat -> nat)

  function Step(s: State, op: Op): State
    requires Core(s)
  {
    match op
    case AddOp(addr, source, penalty, now, later, rnd) => Add(s, addr, source, penalty, now, later, rnd).0
    case GoodOp(service, nTime, start) => Good(s, service, nTime, start)
    case AttemptOp(service, nTime) => Attempt(s, service, nTime)
    case ConnectedOp(service, nTime) => Connected(s, service, nTime)
    case GetAddrOp(now, picks) => GetAddr(s, now, picks, |s.random|).0
  }

  lemma StepKeeps(s: State, op: Op)
    requires Inv(s)
    ensures Inv(Step(s, op))
  {
    match op
    case AddOp(addr, source, penalty, now, later, rnd) => AddKeeps(s, addr, source, penalty, now, later, rnd);
    case GoodOp(service, nTime, start) => GoodKeeps(s, service, nTime, start);
    case AttemptOp(service, nTime) => AttemptKeeps(s, service, nTime);
    case ConnectedOp(service, nTime) => ConnectedKeeps(s, service, nTime);
    case GetAddrOp(now, picks) => GetAddrKeeps(s, now, picks, |s.random|);
  }

  ghost predicate SameKey(s: State, t: State) {
    t.env == s.env && t.key == s.key
  }

  lemma InsertKeepsKey(s: State, id: int, source: NetAddr, now: int)
    requires Core(s) && id in s.info
    ensures SameKey(s, Insert(s, id, source, now))
  {
    hide Core, IsTerrible;
    ClearNewStep(s, NewSlot(s.env, s.key, s.info[id].service, source));
  }

  lemma MakeTriedKeepsKey(s: State, id: int)
    requires Core(s) && id in s.info && !s.info[id].fInTried
    ensures SameKey(s, MakeTried(s, id))
  {
    hide Core;
    VacateStep(s, id);
    MakeRoomInTriedStep(Vacate(s, id), TriedSlot(s.env, s.key, s.info[id].service), id);
    hide Vacate, MakeRoomInTried;
  }

  lemma AddKeepsKey(s: State, addr: Address, source: NetAddr, penalty: int, now: int, later: int, rnd: nat)
    requires Core(s)
    ensures SameKey(s, Add(s, addr, source, penalty, now, later, rnd).0)
  {
    hide Core, Insert, IsTerrible, Orphans, TriedIds, NewIds;
    if Known(s, addr.service.ip) {
      var id := s.addr[addr.service.ip];
      var t := s.(info := s.info[id := Refresh(s.info[id], addr, penalty, now)]);
      TouchStep(s, id, t.info[id]);
      InsertKeepsKey(t, id, source, later);
    } else {
      UnknownIsNew(s, addr.service.ip);
      RegisterStep(s, addr, source, penalty);
      InsertKeepsKey(Register(s, addr, source, penalty), s.nIdCount, source, later);
    }
  }

  lemma GoodKeepsKey(s: State, service: Service, nTime: int, start: nat)
    requires Core(s)
    ensures SameKey(s, Good(s, service, nTime, start))
  {
    hide Core, MakeTried, Orphans, TriedIds, NewIds;
    if KnownExactly(s, service) {
      var id := s.addr[service.ip];
      var t := s.(info := s.info[id := s.info[id].(nLastSuccess := nTime, nLastTry := nTime, nAttempts := 0)]);
      TouchStep(s, id, t.info[id]);
      if !t.info[id].fInTried {
        MakeTriedKeepsKey(t, id);
      }
    }
  }

  lemma StepKeepsKey(s: State, op: Op)
    requires Core(s)
    ensures SameKey(s, Step(s, op))
  {
    match op
    case AddOp(addr, source, penalty, now, later, rnd) => AddKeepsKey(s, addr, source, penalty, now, later, rnd);
    case GoodOp(service, nTime, start) => GoodKeepsKey(s, service, nTime, start);
    case AttemptOp(_, _) =>
    case ConnectedOp(_, _) =>
    case GetAddrOp(now, picks) => GetAddrMoves(s, now, picks, |s.random|);
  }

  // Every run keeps the invariant: no step ever meets a state that breaks it.
  function Run(s: State, ops: seq<Op>): (r: State)
    requires Inv(s)
    ensures Inv(r)
    decreases |ops|
  {
    if ops == [] then s else
      StepKeeps(s, ops[0]);
      Run(Step(s, ops[0]), ops[1..])
  }

  lemma InitInv(env: Env, key: Key)
    ensures Inv(Init(env, key))
  {
    var s := Init(env, key);
    assert TriedIds(s.info) == {} && NewIds(s.info) == {} && Orphans(s.info) == {};
  }

  // ---------------------------------------------------------------- Clear

  // Clearing leaves a consistent manager only where there was nothing to clear.
  lemma ClearKeepsIff(s: State, key: Key)
    ensures Inv(Cleared(s, key)) <==> s.info == map[] && s.addr == map[]
    ensures Inv(s) ==> (Inv(Cleared(s, key)) <==> s.random == [])
  {
    if s.info == map[] && s.addr == map[] {
      assert Cleared(s, key) == Init(s.env, key);
      InitInv(s.env, key);
    }
    if RandomOk(s.info, []) && AddrOk(s.info, s.addr) {
      NothingListed(s.info, s.addr);
    }
    if RandomOk(s.info, s.random) && s.random != [] {
      assert s.random[0] in s.info;
    }
  }

  lemma NothingListed(info: map<int, AddrInfo>, addr: map<NetAddr, int>)
    requires RandomOk(info, []) && AddrOk(info, addr)
    ensures info == map[] && addr == map[]
  {
    assert forall id :: id !in info;
    assert info == map[];
    assert forall ip :: ip !in addr;
  }

  // The address added to an empty manager survives Clear() in the maps, and nowhere else.
  lemma ClearBreaks(env: Env, addr: Address, source: NetAddr, key: Key)
    requires env.routable(addr.service.ip)
    ensures Inv(Init(env, key))
    ensures Inv(Add(Init(env, key), addr, source, 0, 0, 0, 0).0)
    ensures !Inv(Cleared(Add(Init(env, key), addr, source, 0, 0, 0, 0).0, key))
  {
    var s := Init(env, key);
    InitInv(env, key);
    AddKeeps(s, addr, source, 0, 0, 0, 0);
    var t := Add(s, addr, source, 0, 0, 0, 0).0;
    assert t.info != map[] by { assert 0 in t.info; }
    ClearKeepsIff(t, key);
  }
}
