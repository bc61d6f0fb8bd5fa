/** CAddrMan itself: maps, the vRandom vector and two fixed-size bucket arrays updated in place.
    Each method leaves the object in the state its function of AddrOps computes, and every
    assertion of the source is proved where the source makes it. */
module AddrManager {
  import opened AddrTypes
  import opened Numbers
  import opened AddrState
  import opened AddrSteps
  import opened AddrOps
  import opened AddrStream
  import opened AddrRoundTrip
  import opened AddrCheck

  // The occupied cells of a bucket array; -1 marks a free cell.
  ghost function TableOf(a: array2<int>): Table
    reads a
  {
    map b: nat, p: nat | b < a.Length0 && p < a.Length1 && a[b, p] != -1 :: Slot(b, p) := a[b, p]
  }

  ghost function Written(t: Table, slot: Slot, v: int): Table {
    if v == -1 then t - {slot} else t[slot := v]
  }

  method Write(a: array2<int>, b: nat, p: nat, v: int)
    requires b < a.Length0 && p < a.Length1
    modifies a
    ensures a[b, p] == v
    ensures TableOf(a) == Written(old(TableOf(a)), Slot(b, p), v)
  {
    a[b, p] := v;
  }

  method Fill(a: array2<int>)
    modifies a
    ensures TableOf(a) == map[]
  {
    for b := 0 to a.Length0
      invariant forall i, p | 0 <= i < b && 0 <= p < a.Length1 :: a[i, p] == -1
    {
      for p := 0 to a.Length1
        invariant forall i, q | 0 <= i < b && 0 <= q < a.Length1 :: a[i, q] == -1
        invariant forall q | 0 <= q < p :: a[b, q] == -1
      {
        a[b, p] := -1;
      }
    }
  }

  class CAddrMan {
    const env: Env
    var nKey: Key
    var nIdCount: int
    var mapInfo: map<int, AddrInfo>
    var mapAddr: map<NetAddr, int>
    var vRandom: seq<int>
    var nTried: int
    const vvTried: array2<int>
    var nNew: int
    const vvNew: array2<int>

    ghost predicate Shape() {
      && vvTried.Length0 == TRIED_BUCKET_COUNT && vvTried.Length1 == BUCKET_SIZE
      && vvNew.Length0 == NEW_BUCKET_COUNT && vvNew.Length1 == BUCKET_SIZE
      && vvTried != vvNew
    }

    ghost function Value(): State
      reads this, vvTried, vvNew
    {
      State(env, nKey, nIdCount, mapInfo, mapAddr, vRandom, nTried, TableOf(vvTried), nNew, TableOf(vvNew))
    }

    // Clear() leaves mapInfo and mapAddr as they are, which is consistent only if they are empty.
    method Clear(key: Key)
      requires Shape()
      modifies this, vvTried, vvNew
      ensures Value() == Cleared(old(Value()), key)
      ensures Inv(Value()) <==> old(mapInfo) == map[] && old(mapAddr) == map[]
    {
      vRandom := [];
      nKey := key;
      Fill(vvNew);
      Fill(vvTried);
      nIdCount := 0;
      nTried := 0;
      nNew := 0;
      ClearKeepsIff(old(Value()), key);
    }

    constructor (env: Env, key: Key)
      ensures Shape() && fresh(vvTried) && fresh(vvNew)
      ensures this.env == env && Value() == Init(env, key)
    {
      this.env := env;
      mapInfo, mapAddr := map[], map[];
      vvTried := new int[TRIED_BUCKET_COUNT, BUCKET_SIZE];
      vvNew := new int[NEW_BUCKET_COUNT, BUCKET_SIZE];
      new;
      Clear(key);
    }

    method Find(ip: NetAddr) returns (found: bool, id: int)
      ensures found <==> Known(Value(), ip)
      ensures found ==> id == mapAddr[ip]
    {
      if ip !in mapAddr {
        return false, -1;
      }
      id := mapAddr[ip];
      found := id in mapInfo;
    }

    method CreateEntry(addr: Address, source: NetAddr) returns (id: int)
      requires Shape()
      modifies this
      ensures Value() == Create(old(Value()), addr, source) && id == old(nIdCount)
    {
      id := nIdCount;
      nIdCount := nIdCount + 1;
      mapInfo := mapInfo[id := InfoOf(addr, source)];
      mapAddr := mapAddr[addr.service.ip := id];
      mapInfo := mapInfo[id := mapInfo[id].(nRandomPos := |vRandom|)];
      vRandom := vRandom + [id];
    }

    method Swap(i: nat, j: nat)
      requires Shape() && i < |vRandom| && j < |vRandom|
      requires vRandom[i] in mapInfo && vRandom[j] in mapInfo
      modifies this
      ensures Value() == SwapRandom(old(Value()), i, j)
    {
      if i == j {
        return;
      }
      var id1 := vRandom[i];
      var id2 := vRandom[j];
      mapInfo := mapInfo[id1 := mapInfo[id1].(nRandomPos := j)];
      mapInfo := mapInfo[id2 := mapInfo[id2].(nRandomPos := i)];
      vRandom := vRandom[i := id2];
      vRandom := vRandom[j := id1];
    }

    method DeleteEntry(id: int)
      requires Shape() && id in mapInfo && Placed(mapInfo, vRandom, id)
      requires !mapInfo[id].fInTried && mapInfo[id].nRefCount == 0
      modifies this
      ensures Value() == Remove(old(Value()), id)
      ensures old(RandomOk(mapInfo, vRandom)) ==> Value() == Delete(old(Value()), id)
    {
      Swap(mapInfo[id].nRandomPos, |vRandom| - 1);
      vRandom := vRandom[..|vRandom| - 1];
      mapAddr := mapAddr - {mapInfo[id].service.ip};
      mapInfo := mapInfo - {id};
      nNew := nNew - 1;
    }

    method ClearNewCell(bucket: nat, pos: nat)
      requires Shape() && Core(Value())
      requires bucket < NEW_BUCKET_COUNT && pos < BUCKET_SIZE
      modifies this, vvNew
      ensures Value() == ClearNew(old(Value()), Slot(bucket, pos))
    {
      hide Core, RandomOk, TableOf, Orphans, TriedIds, NewIds, Delete;
      CellValue(vvNew, bucket, pos);
      if vvNew[bucket, pos] != -1 {
        var id := vvNew[bucket, pos];
        NewHolder(Value(), Slot(bucket, pos));
        UnrefStep(Value(), Slot(bucket, pos));
        assert mapInfo[id].nRefCount > 0;
        ghost var u := Unref(Value(), Slot(bucket, pos));
        ListedOk(u);
        mapInfo := mapInfo[id := mapInfo[id].(nRefCount := mapInfo[id].nRefCount - 1)];
        Write(vvNew, bucket, pos, -1);
        assert Value() == u;
        if mapInfo[id].nRefCount == 0 {
          ListedIsPlaced(mapInfo, vRandom, id);
          DeleteEntry(id);
        }
      }
    }
  
    // A free cell is one outside the table.
    lemma CellValue(a: array2<int>, b: nat, p: nat)
      requires b < a.Length0 && p < a.Length1
      ensures a[b, p] == -1 <==> Slot(b, p) !in TableOf(a)
      ensures a[b, p] != -1 ==> TableOf(a)[Slot(b, p)] == a[b, p]
    {
    }

    lemma SlotInTable(env: Env, key: Key, service: Service, source: NetAddr)
      ensures NewSlot(env, key, service, source).bucket < NEW_BUCKET_COUNT && NewSlot(env, key, service, source).pos < BUCKET_SIZE
    {
    }

    lemma ListedOk(s: State)
      requires Core(s)
      ensures RandomOk(s.info, s.random)
    {
    }

    lemma IdsAreNotNegative(s: State, id: int)
      requires Core(s) && id in s.info
      ensures id >= 0
    {
    }

    // One round of the bucket loop.
    method LeaveBucket(id: int, bucket: nat)
      requires Shape() && id in mapInfo && id >= 0 && bucket < NEW_BUCKET_COUNT
      modifies this, vvNew
      ensures Value() == DropFromBucket(old(Value()), id, bucket)
    {
      var pos := NewPosition(env, nKey, mapInfo[id].service, bucket);
      CellValue(vvNew, bucket, pos);
      if vvNew[bucket, pos] == id {
        Write(vvNew, bucket, pos, -1);
        mapInfo := mapInfo[id := mapInfo[id].(nRefCount := mapInfo[id].nRefCount - 1)];
      }
    }

    // MakeTried, first part: out of every new bucket.
    method LeaveNew(id: int)
      requires Shape() && Core(Value()) && id in mapInfo && !mapInfo[id].fInTried
      modifies this, vvNew
      ensures Value() == Vacate(old(Value()), id)
      ensures id in mapInfo && mapInfo[id].nRefCount == 0
    {
      hide Core, TableOf;
      ghost var s := Value();
      IdsAreNotNegative(s, id);
      for bucket := 0 to NEW_BUCKET_COUNT
        invariant Value() == DropFromBuckets(s, id, bucket)
      {
        LeaveBucket(id, bucket);
      }
      nNew := nNew - 1;
      VacateStep(s, id);
    }

    method LeaveTried(bucket: nat, pos: nat) returns (id: int)
      requires Shape() && Core(Value())
      requires bucket < TRIED_BUCKET_COUNT && pos < BUCKET_SIZE && vvTried[bucket, pos] != -1
      modifies this, vvTried
      ensures Slot(bucket, pos) in old(TableOf(vvTried))
      ensures id == old(TableOf(vvTried))[Slot(bucket, pos)] && id in old(mapInfo)
      ensures Value() == Demote(old(Value()), Slot(bucket, pos))
    {
      hide Core, TableOf;
      CellValue(vvTried, bucket, pos);
      TriedHolder(Value(), Slot(bucket, pos));
      id := vvTried[bucket, pos];
      assert id in mapInfo;
      mapInfo := mapInfo[id := mapInfo[id].(fInTried := false)];
      Write(vvTried, bucket, pos, -1);
      nTried := nTried - 1;
    }

    // MakeTried, second part: the occupant of the tried cell moves to its home cell in the new table.
    method Evict(bucket: nat, pos: nat)
      requires Shape() && Core(Value())
      requires bucket < TRIED_BUCKET_COUNT && pos < BUCKET_SIZE && vvTried[bucket, pos] != -1
      modifies this, vvTried, vvNew
      ensures Slot(bucket, pos) in old(TableOf(vvTried))
      ensures Value() == EvictTried(old(Value()), Slot(bucket, pos))
    {
      ghost var s := Value();
      hide Core, ClearNew, Orphans, TriedIds, NewIds, TableOf;
      var id := LeaveTried(bucket, pos);
      DemoteStep(s, Slot(bucket, pos));
      var home := NewSlot(env, nKey, mapInfo[id].service, mapInfo[id].source);
      ClearNewCell(home.bucket, home.pos);
      assert Value() == MakeRoomAtHome(s, Slot(bucket, pos));
      MakeRoomStep(s, Slot(bucket, pos));
      MakeRoomKeeps(s, Slot(bucket, pos), id);
      hide MakeRoomAtHome;
      CellValue(vvNew, home.bucket, home.pos);
      assert vvNew[home.bucket, home.pos] == -1;

      mapInfo := mapInfo[id := mapInfo[id].(nRefCount := 1)];
      IdsAreNotNegative(s, id);
      Write(vvNew, home.bucket, home.pos, id);
      nNew := nNew + 1;
    }

    // MakeTried, third part: into the free tried cell.
    method EnterTried(id: int, bucket: nat, pos: nat)
      requires Shape() && id in mapInfo && id >= 0
      requires bucket < TRIED_BUCKET_COUNT && pos < BUCKET_SIZE && vvTried[bucket, pos] == -1
      requires Slot(bucket, pos) == TriedSlot(env, nKey, mapInfo[id].service)
      modifies this, vvTried
      ensures Value() == Promote(old(Value()), id)
    {
      Write(vvTried, bucket, pos, id);
      nTried := nTried + 1;
      mapInfo := mapInfo[id := mapInfo[id].(fInTried := true)];
    }

    method MoveToTried(id: int)
      requires Shape() && Inv(Value()) && id in mapInfo && !mapInfo[id].fInTried
      modifies this, vvTried, vvNew
      ensures Value() == MakeTried(old(Value()), id)
      ensures Inv(Value())
    {
      ghost var s := Value();
      MakeTriedKeeps(s, id);
      IdsAreNotNegative(s, id);
      hide Core, Inv, Orphans, TriedIds, NewIds, TableOf, EvictTried, Vacate;
      VacateStep(s, id);
      var slot := TriedSlot(env, nKey, mapInfo[id].service);
      LeaveNew(id);
      MakeRoomInTriedStep(Value(), slot, id);
      CellValue(vvTried, slot.bucket, slot.pos);
      if vvTried[slot.bucket, slot.pos] != -1 {
        Evict(slot.bucket, slot.pos);
      }
      assert Value() == MakeRoomInTried(Vacate(s, id), slot);
      hide MakeRoomInTried;
      CellValue(vvTried, slot.bucket, slot.pos);
      assert vvTried[slot.bucket, slot.pos] == -1;
      EnterTried(id, slot.bucket, slot.pos);
    }
  
    // ---------------------------------------------------------------- the public operations

    // start is the random bucket the search begins at.
    method GoodAddr(service: Service, nTime: int, start: nat)
      requires Shape() && Inv(Value())
      modifies this, vvTried, vvNew
      ensures Value() == Good(old(Value()), service, nTime, start)
      ensures Inv(Value())
    {
      ghost var s := Value();
      GoodKeeps(s, service, nTime, start);
      hide Core, InSomeNewBucket, Orphans, TriedIds, NewIds, MakeTried, TableOf;
      var found, id := Find(service.ip);
      if !found || mapInfo[id].service != service {
        return;
      }
      mapInfo := mapInfo[id := mapInfo[id].(nLastSuccess := nTime, nLastTry := nTime, nAttempts := 0)];
      TouchStep(s, id, mapInfo[id]);
      if mapInfo[id].fInTried {
        return;
      }
      SearchAndMove(id, start);
    }

    method SearchAndMove(id: int, start: nat)
      requires Shape() && Inv(Value()) && id in mapInfo && !mapInfo[id].fInTried
      modifies this, vvTried, vvNew
      ensures InSomeNewBucket(old(Value()), id, start)
      ensures Value() == MakeTried(old(Value()), id)
      ensures Inv(Value())
    {
      UntriedIsInSomeBucket(Value(), id, start);
      IdsAreNotNegative(Value(), id);
      hide Inv, InSomeNewBucket, MakeTried;
      var bucket := FindNewBucket(id, start);
      assert bucket != -1;
      if bucket == -1 {
        return;
      }
      MoveToTried(id);
    }

    // The bucket search of Good_; -1 if there is none.
    method FindNewBucket(id: int, start: nat) returns (bucket: int)
      requires Shape() && id in mapInfo && id >= 0
      ensures bucket == -1 <==> !InSomeNewBucket(Value(), id, start)
    {
      bucket := -1;
      for n := 0 to NEW_BUCKET_COUNT
        invariant forall k: nat | k < n :: !InNewBucket(Value(), id, k, start)
      {
        var b := (n + start) % NEW_BUCKET_COUNT;
        var pos := NewPosition(env, nKey, mapInfo[id].service, b);
        CellValue(vvNew, b, pos);
        if vvNew[b, pos] == id {
          assert InNewBucket(Value(), id, n, start);
          return b;
        }
      }
    }

    method PutIn(bucket: nat, pos: nat, id: int, refs: int)
      requires Shape() && id in mapInfo && id >= 0 && bucket < NEW_BUCKET_COUNT && pos < BUCKET_SIZE
      modifies this, vvNew
      ensures Value() == PutNew(old(Value()), Slot(bucket, pos), id, refs)
    {
      mapInfo := mapInfo[id := mapInfo[id].(nRefCount := refs)];
      Write(vvNew, bucket, pos, id);
    }

    // Whether Add_ may put id into the cell.
    method MayTake(slot: Slot, id: int, now: int) returns (fInsert: bool)
      requires Shape() && Core(Value()) && id in mapInfo && slot.bucket < NEW_BUCKET_COUNT && slot.pos < BUCKET_SIZE
      ensures slot in TableOf(vvNew) ==> TableOf(vvNew)[slot] in mapInfo
      ensures fInsert <==> slot !in TableOf(vvNew) || GivesWay(Value(), TableOf(vvNew)[slot], id, now)
    {
      CellValue(vvNew, slot.bucket, slot.pos);
      hide Core, TableOf;
      fInsert := vvNew[slot.bucket, slot.pos] == -1;
      if !fInsert {
        NewHolder(Value(), slot);
        var existing := mapInfo[vvNew[slot.bucket, slot.pos]];
        if IsTerrible(existing, now) || (existing.nRefCount > 1 && mapInfo[id].nRefCount == 0) {
          fInsert := true;
        }
      }
    }

    method TakeCell(slot: Slot, id: int)
      requires Shape() && Core(Value()) && id in mapInfo && id >= 0 && slot.bucket < NEW_BUCKET_COUNT && slot.pos < BUCKET_SIZE
      requires id in ClearNew(Value(), slot).info
      modifies this, vvNew
      ensures Value() == PutNew(ClearNew(old(Value()), slot), slot, id, ClearNew(old(Value()), slot).info[id].nRefCount + 1)
    {
      hide Core, ClearNew, TableOf, PutNew;
      ClearNewCell(slot.bucket, slot.pos);
      PutIn(slot.bucket, slot.pos, id, mapInfo[id].nRefCount + 1);
    }

    // Into the cell, or not.
    method Settle(slot: Slot, id: int, now: int)
      requires Shape() && Core(Value()) && RandomOk(mapInfo, vRandom) && id in mapInfo && id >= 0 && !mapInfo[id].fInTried
      requires slot.bucket < NEW_BUCKET_COUNT && slot.pos < BUCKET_SIZE
      requires id in ClearNew(Value(), slot).info
      requires slot in TableOf(vvNew) ==> TableOf(vvNew)[slot] in mapInfo
      modifies this, vvNew
      ensures old(slot !in TableOf(vvNew) || GivesWay(Value(), TableOf(vvNew)[slot], id, now)) ==>
        Value() == PutNew(ClearNew(old(Value()), slot), slot, id, ClearNew(old(Value()), slot).info[id].nRefCount + 1)
      ensures old(!(slot !in TableOf(vvNew) || GivesWay(Value(), TableOf(vvNew)[slot], id, now))) ==>
        Value() == if old(mapInfo)[id].nRefCount == 0 then Delete(old(Value()), id) else old(Value())
    {
      hide Core, RandomOk, ClearNew, Delete, TableOf, GivesWay, PutNew;
      var fInsert := MayTake(slot, id, now);
      if fInsert {
        TakeCell(slot, id);
      } else {
        DropIfUnreferenced(id);
      }
    }

    // The second half of Add_.
    method InsertNew(id: int, source: NetAddr, now: int)
      requires Shape() && Core(Value()) && id in mapInfo && !mapInfo[id].fInTried
      modifies this, vvNew
      ensures Value() == Insert(old(Value()), id, source, now)
    {
      hide Insert, Core, RandomOk, ClearNew, Delete, TableOf, GivesWay, PutNew, NewSlot;
      var slot := NewSlot(env, nKey, mapInfo[id].service, source);
      SlotInTable(env, nKey, mapInfo[id].service, source);
      IdsAreNotNegative(Value(), id);
      InsertOutcomes(Value(), id, source, now, slot);
      ClearNewKeepsOthersIf(Value(), slot, id);
      ListedOk(Value());
      CellValue(vvNew, slot.bucket, slot.pos);
      if vvNew[slot.bucket, slot.pos] != id {
        Settle(slot, id, now);
      }
    }

    lemma ClearNewKeepsOthersIf(s: State, slot: Slot, id: int)
      requires Core(s) && id in s.info
      ensures !(slot in s.newTable && s.newTable[slot] == id) ==> id in ClearNew(s, slot).info
    {
      if !(slot in s.newTable && s.newTable[slot] == id) {
        ClearNewKeepsOthers(s, slot, id);
      }
    }

    method DropIfUnreferenced(id: int)
      requires Shape() && RandomOk(mapInfo, vRandom) && id in mapInfo && !mapInfo[id].fInTried
      modifies this
      ensures Value() == if old(mapInfo)[id].nRefCount == 0 then Delete(old(Value()), id) else old(Value())
    {
      hide RandomOk, Delete;
      if mapInfo[id].nRefCount == 0 {
        ListedIsPlaced(mapInfo, vRandom, id);
        DeleteEntry(id);
      }
    }

    // now and later are the two clock readings, rnd the random draw.
    method AddAddr(addr: Address, source: NetAddr, penalty: int, now: int, later: int, rnd: nat) returns (fNew: bool)
      requires Shape() && Inv(Value())
      modifies this, vvNew
      ensures (Value(), fNew) == Add(old(Value()), addr, source, penalty, now, later, rnd)
      ensures Inv(Value())
    {
      ghost var s := Value();
      AddKeeps(s, addr, source, penalty, now, later, rnd);
      hide Core, Insert, Orphans, TriedIds, NewIds, TableOf, Create;
      if !env.routable(addr.service.ip) {
        return false;
      }
      fNew := false;
      var found, id := Find(addr.service.ip);
      if found {
        mapInfo := mapInfo[id := Refresh(mapInfo[id], addr, penalty, now)];
        TouchStep(s, id, mapInfo[id]);
        var entry := mapInfo[id];
        if addr.nTime == 0 || (entry.nTime != 0 && addr.nTime <= entry.nTime) {
          return;
        }
        if entry.fInTried || entry.nRefCount == NEW_BUCKETS_PER_ADDRESS {
          return;
        }
        CountIsNotNegative(Value(), id);
        var nFactor := Factor(entry.nRefCount);
        if nFactor > 1 && rnd % nFactor != 0 {
          return;
        }
      } else {
        UnknownIsNew(s, addr.service.ip);
        RegisterStep(s, addr, source, penalty);
        id := Enroll(addr, source, penalty);
        fNew := true;
      }
      InsertNew(id, source, later);
    }

    lemma CountIsNotNegative(s: State, id: int)
      requires Core(s) && id in s.info
      ensures s.info[id].nRefCount >= 0
    {
      assert |SlotsOf(s.newTable, id)| >= 0;
    }

    method Factor(n: nat) returns (nFactor: int)
      ensures nFactor == Pow(2, n) && (nFactor > 1 <==> n > 0)
    {
      nFactor := 1;
      for i := 0 to n
        invariant nFactor == Pow(2, i) && (nFactor > 1 <==> i > 0)
      {
        nFactor := nFactor * 2;
      }
    }

    method Enroll(addr: Address, source: NetAddr, penalty: int) returns (id: int)
      requires Shape()
      modifies this
      ensures Value() == Register(old(Value()), addr, source, penalty) && id == old(nIdCount)
      ensures id in mapInfo && !mapInfo[id].fInTried
    {
      id := CreateEntry(addr, source);
      mapInfo := mapInfo[id := mapInfo[id].(nTime := ToTime(Max(0, mapInfo[id].nTime - penalty)))];
      nNew := nNew + 1;
    }

    method AttemptAddr(service: Service, nTime: int)
      requires Shape() && Inv(Value())
      modifies this
      ensures Value() == Attempt(old(Value()), service, nTime)
      ensures Inv(Value())
    {
      hide Inv, Core, TableOf;
      AttemptKeeps(Value(), service, nTime);
      var found, id := Find(service.ip);
      if !found || mapInfo[id].service != service {
        return;
      }
      mapInfo := mapInfo[id := mapInfo[id].(nLastTry := nTime, nAttempts := mapInfo[id].nAttempts + 1)];
    }

    method ConnectedAddr(service: Service, nTime: int)
      requires Shape() && Inv(Value())
      modifies this
      ensures Value() == Connected(old(Value()), service, nTime)
      ensures Inv(Value())
    {
      hide Inv, Core, TableOf;
      ConnectedKeeps(Value(), service, nTime);
      var found, id := Find(service.ip);
      if !found || mapInfo[id].service != service {
        return;
      }
      if nTime - mapInfo[id].nTime > 20 * 60 {
        mapInfo := mapInfo[id := mapInfo[id].(nTime := ToTime(nTime))];
      }
    }

    // One round of GetAddr_.
    method Pick(n: nat, pick: nat, now: int, list: seq<AddrInfo>) returns (vAddr: seq<AddrInfo>)
      requires Shape() && RandomOk(mapInfo, vRandom) && n < |vRandom| && |list| < Quota(|vRandom|)
      modifies this
      ensures (Value(), vAddr) == GetAddrRound(old(Value()), list, now, n, pick)
    {
      vAddr := list;
      var pos := PickPosition(pick, n, |vRandom|);
      RandomIsKnown(Value(), n, pos);
      hide RandomOk, IsTerrible, TableOf;
      Swap(n, pos);
      RandomIsKnown(Value(), n, n);
      var ai := mapInfo[vRandom[n]];
      if !IsTerrible(ai, now) {
        vAddr := vAddr + [ai];
      }
    }

    // picks are the random draws of the rounds.
    method GetAddresses(now: int, picks: nat -> nat) returns (vAddr: seq<AddrInfo>)
      requires Shape() && Inv(Value())
      modifies this
      ensures (Value(), vAddr) == GetAddr(old(Value()), now, picks, old(|vRandom|))
      ensures Inv(Value())
    {
      ghost var s := Value();
      GetAddrKeeps(s, now, picks, |s.random|);
      assert RandomOk(s.info, s.random);
      hide Inv, Core, RandomOk, TableOf, GetAddrRound;
      var nNodes := Quota(|vRandom|);
      vAddr := [];
      for n := 0 to |vRandom|
        invariant |vRandom| == |s.random|
        invariant (Value(), vAddr) == GetAddr(s, now, picks, n)
      {
        if |vAddr| >= nNodes {
          GetAddrStopped(s, now, picks, n, |s.random|);
          break;
        }
        vAddr := Pick(n, picks(n), now, vAddr);
      }
    }

    lemma RandomIsKnown(s: State, i: nat, j: nat)
      requires RandomOk(s.info, s.random) && i < |s.random| && j < |s.random|
      ensures s.random[i] in s.info && s.random[j] in s.info
      ensures RandomOk(SwapRandom(s, i, j).info, SwapRandom(s, i, j).random)
    {
      SwapPositions(s, i, j);
    }
  
    // ---------------------------------------------------------------- the stream

    method CountBucket(bucket: nat) returns (nSize: nat)
      requires Shape() && bucket < NEW_BUCKET_COUNT
      ensures nSize == |CellTokens(Value(), bucket, BUCKET_SIZE)|
    {
      ghost var s := Value();
      hide Rank, TableOf;
      nSize := 0;
      for i := 0 to BUCKET_SIZE
        invariant nSize == |CellTokens(s, bucket, i)|
      {
        CellValue(vvNew, bucket, i);
        if vvNew[bucket, i] != -1 {
          nSize := nSize + 1;
        }
      }
    }

    method WriteCells(bucket: nat, mapUnkIds: map<int, int>) returns (stream: seq<Token>)
      requires Shape() && bucket < NEW_BUCKET_COUNT
      requires forall id | id in mapInfo :: id in mapUnkIds && mapUnkIds[id] == Rank(mapInfo, id)
      requires forall slot | slot in TableOf(vvNew) :: TableOf(vvNew)[slot] in mapInfo
      ensures stream == CellTokens(Value(), bucket, BUCKET_SIZE)
    {
      ghost var s := Value();
      hide Rank, TableOf;
      stream := [];
      for i := 0 to BUCKET_SIZE
        invariant stream == CellTokens(s, bucket, i)
      {
        CellValue(vvNew, bucket, i);
        if vvNew[bucket, i] != -1 {
          assert s.newTable[Slot(bucket, i)] in mapInfo;
          stream := stream + [IntTok(mapUnkIds[vvNew[bucket, i]])];
        }
      }
    }

    method WriteBucket(bucket: nat, mapUnkIds: map<int, int>) returns (stream: seq<Token>)
      requires Shape() && bucket < NEW_BUCKET_COUNT
      requires forall id | id in mapInfo :: id in mapUnkIds && mapUnkIds[id] == Rank(mapInfo, id)
      requires forall slot | slot in TableOf(vvNew) :: TableOf(vvNew)[slot] in mapInfo
      ensures stream == BucketTokens(Value(), bucket)
    {
      hide Rank, TableOf, CellTokens;
      var nSize := CountBucket(bucket);
      stream := WriteCells(bucket, mapUnkIds);
      stream := [IntTok(nSize)] + stream;
    }

    lemma NextBucketTokens(s: State, bucket: nat, stream: seq<Token>)
      requires bucket < NEW_BUCKET_COUNT
      ensures (stream + BucketTokens(s, bucket)) + TokensFrom(s, bucket + 1) == stream + TokensFrom(s, bucket)
    {
      hide BucketTokens;
    }

    lemma LastBucketTokens(s: State, stream: seq<Token>)
      ensures stream + TokensFrom(s, NEW_BUCKET_COUNT) == stream
    {
    }

    method WriteBuckets(mapUnkIds: map<int, int>) returns (stream: seq<Token>)
      requires Shape()
      requires forall id | id in mapInfo :: id in mapUnkIds && mapUnkIds[id] == Rank(mapInfo, id)
      requires forall slot | slot in TableOf(vvNew) :: TableOf(vvNew)[slot] in mapInfo
      ensures stream == TokensFrom(Value(), 0)
    {
      ghost var s := Value();
      hide TableOf, BucketTokens, TokensFrom, Rank;
      stream := [];
      for bucket := 0 to NEW_BUCKET_COUNT
        invariant stream + TokensFrom(s, bucket) == TokensFrom(s, 0)
      {
        var more := WriteBucket(bucket, mapUnkIds);
        NextBucketTokens(s, bucket, stream);
        stream := stream + more;
      }
      LastBucketTokens(s, stream);
    }

    method SerializeTo() returns (stream: seq<Token>)
      requires Shape() && Inv(Value())
      ensures nIdCount >= 0 && stream == Serialize(Value())
    {
      WrittenInOrder(Value());
      assert forall slot | slot in Value().newTable :: Value().newTable[slot] in mapInfo;
      hide Inv, TableOf, InfoTokens, TokensFrom, NewBelow, TriedBelow, Rank;
      var news, mapUnkIds := WriteNew(mapInfo, nIdCount, nNew);
      var trieds := WriteTried(mapInfo, nIdCount, nTried);
      var cells := WriteBuckets(mapUnkIds);
      stream := Header(nKey, nNew, nTried) + news + trieds + cells;
    }

    // ---------------------------------------------------------------- reading

    // What has been read: this object and the rest of the stream, or a failure.
    ghost function Outcome(ok: bool, rest: seq<Token>): Reading
      reads this, vvTried, vvNew
    {
      if ok then Reading(Value(), rest) else Failed
    }

    method AppendEntry(entry: AddrInfo) returns (id: int)
      requires Shape()
      modifies this
      ensures Value() == Append(old(Value()), entry) && id == |old(vRandom)|
    {
      id := |vRandom|;
      mapInfo := mapInfo[id := entry];
      mapAddr := mapAddr[entry.service.ip := id];
      mapInfo := mapInfo[id := mapInfo[id].(nRandomPos := |vRandom|)];
      vRandom := vRandom + [id];
    }

    method ReadNewEntry(stream: seq<Token>, usable: bool) returns (ok: bool, rest: seq<Token>)
      requires Shape() && Numbered(Value())
      modifies this, vvNew
      ensures Outcome(ok, rest) == ReadNewRound(Reading(old(Value()), stream), usable)
    {
      hide Numbered;
      if stream == [] || !stream[0].InfoTok? {
        return false, stream;
      }
      var entry := EntryInto(stream[0].info, mapInfo, |vRandom|);
      var id := AppendEntry(entry);
      if !usable {
        var slot := NewSlot(env, nKey, entry.service, entry.source);
        CellValue(vvNew, slot.bucket, slot.pos);
        if vvNew[slot.bucket, slot.pos] == -1 {
          PutIn(slot.bucket, slot.pos, id, mapInfo[id].nRefCount + 1);
        }
      }
      return true, stream[1..];
    }

    method ReadTriedEntry(stream: seq<Token>) returns (ok: bool, rest: seq<Token>)
      requires Shape() && Numbered(Value())
      modifies this, vvTried
      ensures Outcome(ok, rest) == ReadTriedRound(Reading(old(Value()), stream))
    {
      hide Numbered;
      if stream == [] || !stream[0].InfoTok? {
        return false, stream;
      }
      var entry := FromDisk(stream[0].info);
      var slot := TriedSlot(env, nKey, entry.service);
      CellValue(vvTried, slot.bucket, slot.pos);
      if vvTried[slot.bucket, slot.pos] == -1 {
        var id := AppendEntry(entry.(fInTried := true));
        Write(vvTried, slot.bucket, slot.pos, id);
      } else {
        nTried := nTried - 1;
      }
      return true, stream[1..];
    }

    method ReadOneCell(stream: seq<Token>, bucket: nat, usable: bool) returns (ok: bool, rest: seq<Token>)
      requires Shape() && Numbered(Value()) && (usable ==> bucket < NEW_BUCKET_COUNT)
      modifies this, vvNew
      ensures Outcome(ok, rest) == ReadCell(Reading(old(Value()), stream), bucket, usable)
    {
      hide Numbered;
      if stream == [] || !stream[0].IntTok? {
        return false, stream;
      }
      var id := stream[0].i;
      if 0 <= id < nNew && id in mapInfo {
        var pos := NewPosition(env, nKey, mapInfo[id].service, bucket);
        if usable {
          CellValue(vvNew, bucket, pos);
          if vvNew[bucket, pos] == -1 && mapInfo[id].nRefCount < NEW_BUCKETS_PER_ADDRESS {
            PutIn(bucket, pos, id, mapInfo[id].nRefCount + 1);
          }
        }
      }
      return true, stream[1..];
    }

    method ReadOneBucket(stream: seq<Token>, bucket: nat, usable: bool) returns (ok: bool, rest: seq<Token>)
      requires Shape() && Numbered(Value()) && (usable ==> bucket < NEW_BUCKET_COUNT)
      modifies this, vvNew
      ensures Outcome(ok, rest) == ReadBucket(Reading(old(Value()), stream), bucket, usable)
    {
      ghost var s := Value();
      hide Numbered, NewPosition, PutNew, TableOf;
      if stream == [] || !stream[0].IntTok? {
        return false, stream;
      }
      var nSize := stream[0].i;
      ok, rest := true, stream[1..];
      for n := 0 to Max(0, nSize)
        invariant Ok(Reading(s, stream[1..]))
        invariant Outcome(ok, rest) == ReadCells(Reading(s, stream[1..]), bucket, n, usable)
      {
        if ok {
          ok, rest := ReadOneCell(rest, bucket, usable);
        }
      }
    }

    // The entries without a cell go, in the order of their ids.  An id past vRandom is left over
    // and has a cell count of its own.
    method PruneEntries()
      requires Shape() && Prunable(Value())
      modifies this
      ensures Value() == Prune(old(Value()), old(|vRandom|))
    {
      hide Prunable, Remove, Delete, RandomOk, TableOf;
      ghost var s := Value();
      var n := |vRandom|;
      for id := 0 to n
        invariant Value() == Prune(s, id)
      {
        if id in mapInfo && !mapInfo[id].fInTried && mapInfo[id].nRefCount == 0 {
          RemoveKeeps(Value(), id);
          DeleteEntry(id);
        }
      }
    }

    // Reading into an object, new or in use; key is the random one Clear() draws.  What an object
    // in use held stays in its maps (AddrOps.ClearKeepsIff), and entries are read into it.
    method UnserializeFrom(stream: seq<Token>, key: Key) returns (ok: bool, rest: seq<Token>)
      requires Shape() && Inv(Value())
      modifies this, vvTried, vvNew
      ensures AllHeld(old(mapInfo)) && Outcome(ok, rest) == UnserializeInto(old(Value()), stream)
    {
      InvIsHeld(Value());
      hide Inv, AllHeld, Numbered, RandomOk, Prunable, ReadNewRound, ReadTriedRound, ReadBucket, TableOf, FlipBit30;
      ghost var s := Value();
      Clear(key);
      rest := stream;
      var head := ReadHead(stream);
      if head.BadHead? {
        return false, stream;
      }
      nKey, nNew, nTried := head.key, head.nNew, head.nTried;
      ok, rest := ReadLoops(s, stream[6..], head);
      if !ok {
        return;
      }
      NumberedIsPrunable(Value());
      nIdCount := |vRandom|;
      StillPrunable(Value(), |vRandom|);
      PruneEntries();
    }

    method ReadLoops(ghost s: State, stream: seq<Token>, head: Head) returns (ok: bool, rest: seq<Token>)
      requires Shape() && head.Head? && (head.usable ==> head.nUBuckets == NEW_BUCKET_COUNT) && AllHeld(s.info)
      requires Value() == Cleared(s, head.key).(nNew := head.nNew, nTried := head.nTried)
      modifies this, vvTried, vvNew
      ensures Outcome(ok, rest) == ReadBody(s, head, stream)
    {
      ClearedIsOk(s, head.key, head.nNew, head.nTried, stream);
      hide Ok, ReadNew, ReadTried, ReadBuckets, TableOf;
      ok, rest := ReadNewLoop(true, stream, head.nNew, head.usable);
      ok, rest := ReadTriedLoop(ok, rest, Rounds(head.nTried));
      ok, rest := ReadBucketLoop(ok, rest, Rounds(head.nUBuckets), head.usable);
    }

    method ReadNewLoop(go: bool, stream: seq<Token>, count: nat, usable: bool) returns (ok: bool, rest: seq<Token>)
      requires Shape() && Ok(Outcome(go, stream))
      modifies this, vvNew
      ensures Outcome(ok, rest) == ReadNew(old(Outcome(go, stream)), count, usable)
    {
      ghost var r := Outcome(go, stream);
      hide Numbered, ReadNewRound, ReadTriedRound, ReadBucket, TableOf;
      ok, rest := go, stream;
      for n := 0 to count
        invariant Outcome(ok, rest) == ReadNew(r, n, usable)
      {
        if ok {
          ok, rest := ReadNewEntry(rest, usable);
        } else {
          FailedStays(0, usable);
        }
      }
    }

    method ReadTriedLoop(go: bool, stream: seq<Token>, count: nat) returns (ok: bool, rest: seq<Token>)
      requires Shape() && Ok(Outcome(go, stream))
      modifies this, vvTried
      ensures Outcome(ok, rest) == ReadTried(old(Outcome(go, stream)), count)
    {
      ghost var r := Outcome(go, stream);
      hide Numbered, ReadNewRound, ReadTriedRound, ReadBucket, TableOf;
      ok, rest := go, stream;
      for n := 0 to count
        invariant Outcome(ok, rest) == ReadTried(r, n)
      {
        if ok {
          ok, rest := ReadTriedEntry(rest);
        } else {
          FailedStays(0, true);
        }
      }
    }

    method ReadBucketLoop(go: bool, stream: seq<Token>, nUBuckets: nat, usable: bool) returns (ok: bool, rest: seq<Token>)
      requires Shape() && Ok(Outcome(go, stream)) && (usable ==> nUBuckets == NEW_BUCKET_COUNT)
      modifies this, vvNew
      ensures Outcome(ok, rest) == ReadBuckets(old(Outcome(go, stream)), nUBuckets, usable)
    {
      ghost var r := Outcome(go, stream);
      hide Numbered, ReadNewRound, ReadTriedRound, ReadBucket, TableOf;
      ok, rest := go, stream;
      for bucket := 0 to nUBuckets
        invariant Outcome(ok, rest) == ReadBuckets(r, bucket, usable)
      {
        if ok {
          ok, rest := ReadOneBucket(rest, bucket, usable);
        } else {
          FailedStays(bucket, usable);
        }
      }
    }

    // ---------------------------------------------------------------- Check_

    lemma TablesFit()
      requires Shape()
      ensures Fits(TableOf(vvTried), TRIED_BUCKET_COUNT) && Fits(TableOf(vvNew), NEW_BUCKET_COUNT)
    {
    }

    // One cell of the tried table: its holder must be expected and at home, and is taken off the list.
    method CheckTriedCell(n: nat, i: nat, left: set<int>) returns (code: int, next: set<int>)
      requires Shape() && n < TRIED_BUCKET_COUNT && i < BUCKET_SIZE
      requires TriedRight(Value(), n, i) && left == TriedLeft(Value(), n, i)
      ensures code == 0 ==> TriedRight(Value(), n, i + 1) && next == TriedLeft(Value(), n, i + 1)
      ensures code != 0 ==> code in {-11, -17, -18} && !TriedOk(env, nKey, mapInfo, TableOf(vvTried))
    {
      CellValue(vvTried, n, i);
      hide TableOf, TriedRight, TriedLeft, TriedOk;
      if vvTried[n, i] == -1 {
        TriedCellFree(Value(), n, i);
        return 0, left;
      }
      var id := vvTried[n, i];
      if id !in left {
        TriedCellBad(Value(), n, i);
        return -11, left;
      }
      TriedLeftIsKnown(Value(), n, i);
      if TriedSlot(env, nKey, mapInfo[id].service).bucket != n {
        TriedCellBad(Value(), n, i);
        return -17, left;
      }
      if TriedSlot(env, nKey, mapInfo[id].service).pos != i {
        TriedCellBad(Value(), n, i);
        return -18, left;
      }
      TriedCellGood(Value(), n, i);
      return 0, left - {id};
    }

    // Check_'s pass over the tried table: every occupied cell takes its holder off the list.
    method CheckTried(setTried: set<int>) returns (code: int, left: set<int>)
      requires Shape() && setTried == TriedIds(mapInfo)
      ensures code == 0 ==> (left == {} <==> TriedOk(env, nKey, mapInfo, TableOf(vvTried)))
      ensures code != 0 ==> code in {-11, -17, -18} && !TriedOk(env, nKey, mapInfo, TableOf(vvTried))
    {
      hide TableOf, TriedRight, TriedLeft, TriedOk, Fits;
      ghost var s := Value();
      TablesFit();
      TriedStart(s);
      left := setTried;
      for n := 0 to TRIED_BUCKET_COUNT
        invariant TriedRight(s, n, 0) && left == TriedLeft(s, n, 0)
      {
        for i := 0 to BUCKET_SIZE
          invariant TriedRight(s, n, i) && left == TriedLeft(s, n, i)
        {
          code, left := CheckTriedCell(n, i, left);
          if code != 0 {
            return;
          }
        }
        TriedNextBucket(s, n);
      }
      TriedEnd(s);
      code := 0;
    }

    // One cell of the new table: its holder must be expected and in position, and is counted down.
    method CheckNewCell(n: nat, i: nat, left: map<int, int>) returns (code: int, next: map<int, int>)
      requires Shape() && n < NEW_BUCKET_COUNT && i < BUCKET_SIZE
      requires NewRight(Value(), n, i) && left == NewLeft(Value(), n, i)
      ensures code == 0 ==> NewRight(Value(), n, i + 1) && next == NewLeft(Value(), n, i + 1)
      ensures code != 0 ==> code in {-12, -19} && !NewTableOk(Value())
    {
      CellValue(vvNew, n, i);
      hide TableOf, NewRight, NewLeft, NewTableOk;
      if vvNew[n, i] == -1 {
        NewCellFree(Value(), n, i);
        return 0, left;
      }
      var id := vvNew[n, i];
      if id !in left {
        NewCellBad(Value(), n, i);
        return -12, left;
      }
      NewLeftIsKnown(Value(), n, i);
      if NewPosition(env, nKey, mapInfo[id].service, n) != i {
        NewCellBad(Value(), n, i);
        return -19, left;
      }
      NewCellGood(Value(), n, i);
      return 0, CountDown(left, id);
    }

    method CheckNewBucket(n: nat, left: map<int, int>) returns (code: int, next: map<int, int>)
      requires Shape() && n < NEW_BUCKET_COUNT && NewRight(Value(), n, 0) && left == NewLeft(Value(), n, 0)
      ensures code == 0 ==> NewRight(Value(), n + 1, 0) && next == NewLeft(Value(), n + 1, 0)
      ensures code != 0 ==> code in {-12, -19} && !NewTableOk(Value())
    {
      hide TableOf, NewRight, NewLeft, NewTableOk, Fits;
      ghost var s := Value();
      TablesFit();
      next := left;
      for i := 0 to BUCKET_SIZE
        invariant NewRight(s, n, i) && next == NewLeft(s, n, i)
      {
        code, next := CheckNewCell(n, i, next);
        if code != 0 {
          return;
        }
      }
      NewNextBucket(s, n);
      code := 0;
    }

    // Check_'s pass over the new table: every occupied cell counts its holder down.
    method CheckNew(mapNew: map<int, int>) returns (code: int, left: map<int, int>)
      requires Shape() && mapNew == NewRefs(mapInfo) && RefsInRange(mapInfo)
      ensures code == 0 ==> (left == map[] <==> NewTableOk(Value()))
      ensures code != 0 ==> code in {-12, -19} && !NewTableOk(Value())
    {
      hide TableOf, NewRight, NewLeft, NewTableOk, Fits, RefsInRange, NewRefs;
      ghost var s := Value();
      TablesFit();
      NewStart(s);
      left := mapNew;
      for n := 0 to NEW_BUCKET_COUNT
        invariant NewRight(s, n, 0) && left == NewLeft(s, n, 0)
      {
        code, left := CheckNewBucket(n, left);
        if code != 0 {
          return;
        }
      }
      NewEnd(s);
      code := 0;
    }

    // Check_ passes exactly the sound tables with sane times and a key. Of a sound table it
    // complains about times or the key alone.
    method Check() returns (code: int)
      requires Shape()
      modifies `mapAddr
      ensures code == 0 <==> nKey != 0 && EntryTimesOk(mapInfo) && Sound(old(Value()))
      ensures Sound(old(Value())) ==> code in {0, -1, -6, -8, -16}
      ensures LookedUp(old(mapAddr), mapAddr, mapInfo)
      ensures Inv(old(Value())) ==> mapAddr == old(mapAddr)
    {
      ghost var s := Value();
      hide Inv, Sound, AllPass, LookedUp, TableOf, NewOk, RefsOk, TriedOk, RandomOk, EntryTimesOk, TriedIds, NewIds, NewRefs, RefsInRange;
      TestsAreSound(s);
      LookNothing(mapAddr, mapInfo);
      if |vRandom| != nTried + nNew {
        return -7;
      }
      var setTried, mapNew;
      code, mapAddr, setTried, mapNew := CheckEntries(mapInfo, mapAddr, vRandom);
      LookUpOfInv(s, mapAddr);
      if code != 0 {
        return;
      }
      NewRefsSize(mapInfo);
      if |setTried| != nTried {
        return -9;
      }
      if |mapNew| != nNew {
        return -10;
      }
      PassedRefs(mapInfo, s.addr, vRandom);
      code, setTried := CheckTried(setTried);
      if code != 0 {
        return;
      }
      code, mapNew := CheckNew(mapNew);
      if code != 0 {
        return;
      }
      if |setTried| != 0 {
        return -13;
      }
      if |mapNew| != 0 {
        return -15;
      }
      if nKey == 0 {
        return -16;
      }
    }
  }

  lemma WrittenInOrder(s: State)
    requires Inv(s)
    ensures s.nIdCount >= 0 && forall id | id in s.info :: 0 <= id < s.nIdCount
    ensures s.nNew == |NewBelow(s.info, s.nIdCount)| && s.nTried == |TriedBelow(s.info, s.nIdCount)|
  {
    ListingIsComplete(s);
  }

  lemma InfoTokensGrow(info: map<int, AddrInfo>, ids: seq<int>, id: int)
    requires (forall i | 0 <= i < |ids| :: ids[i] in info) && id in info
    ensures forall i | 0 <= i < |ids + [id]| :: (ids + [id])[i] in info
    ensures InfoTokens(info, ids + [id]) == InfoTokens(info, ids) + [InfoTok(ToDisk(info[id]))]
  {
    hide ToDisk;
  }

  lemma NothingListed(info: map<int, AddrInfo>)
    ensures NewBelow(info, 0) == [] && TriedBelow(info, 0) == [] && InfoTokens(info, []) == []
  {
  }

  lemma BelowNext(info: map<int, AddrInfo>, n: nat)
    ensures NewBelow(info, n + 1) == if n in info && info[n].nRefCount != 0 then NewBelow(info, n) + [n] else NewBelow(info, n)
    ensures TriedBelow(info, n + 1) == if n in info && info[n].fInTried then TriedBelow(info, n) + [n] else TriedBelow(info, n)
  {
  }

  // The entries of the new table in the order of their ids; mapUnkIds numbers them.
  method WriteNew(info: map<int, AddrInfo>, n: nat, nNew: int) returns (stream: seq<Token>, mapUnkIds: map<int, int>)
    requires nNew == |NewBelow(info, n)| && forall id | id in info :: 0 <= id < n
    ensures forall i | 0 <= i < |NewBelow(info, n)| :: NewBelow(info, n)[i] in info
    ensures stream == InfoTokens(info, NewBelow(info, n))
    ensures forall id | id in info :: id in mapUnkIds && mapUnkIds[id] == Rank(info, id)
  {
    hide InfoTokens, ToDisk, NewBelow;
    stream, mapUnkIds := [], map[];
    var nIds := 0;
    NothingListed(info);
    for id := 0 to n
      invariant forall i | 0 <= i < |NewBelow(info, id)| :: NewBelow(info, id)[i] in info
      invariant stream == InfoTokens(info, NewBelow(info, id)) && nIds == |NewBelow(info, id)|
      invariant forall k | k in info && k < id :: k in mapUnkIds && mapUnkIds[k] == Rank(info, k)
    {
      BelowIsKnown(info, id + 1);
      BelowNext(info, id);
      if id in info {
        mapUnkIds := mapUnkIds[id := nIds];
        if info[id].nRefCount != 0 {
          RankIsPosition(info, id, n);
          assert nIds != nNew;
          InfoTokensGrow(info, NewBelow(info, id), id);
          stream := stream + [InfoTok(ToDisk(info[id]))];
          nIds := nIds + 1;
        }
      }
    }
  }

  method WriteTried(info: map<int, AddrInfo>, n: nat, nTried: int) returns (stream: seq<Token>)
    requires nTried == |TriedBelow(info, n)|
    ensures forall i | 0 <= i < |TriedBelow(info, n)| :: TriedBelow(info, n)[i] in info
    ensures stream == InfoTokens(info, TriedBelow(info, n))
  {
    hide InfoTokens, ToDisk, TriedBelow;
    stream := [];
    var nIds := 0;
    NothingListed(info);
    for id := 0 to n
      invariant forall i | 0 <= i < |TriedBelow(info, id)| :: TriedBelow(info, id)[i] in info
      invariant stream == InfoTokens(info, TriedBelow(info, id)) && nIds == |TriedBelow(info, id)|
    {
      BelowIsKnown(info, id + 1);
      BelowNext(info, id);
      if id in info && info[id].fInTried {
        TriedGrows(info, id + 1, n);
        assert nIds != nTried;
        InfoTokensGrow(info, TriedBelow(info, id), id);
        stream := stream + [InfoTok(ToDisk(info[id]))];
        nIds := nIds + 1;
      }
    }
  }

  lemma {:induction false} TriedGrows(info: map<int, AddrInfo>, n: nat, m: nat)
    requires n <= m
    ensures |TriedBelow(info, n)| <= |TriedBelow(info, m)|
  {
    if n < m {
      TriedGrows(info, n, m - 1);
    }
  }
}
