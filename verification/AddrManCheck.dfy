/** The consistency check of the address manager: `CAddrMan::Check_` taken apart into its pass
    over the entries and its two passes over the bucket tables, on any table, sound or not. */
module AddrCheck {
  import opened AddrTypes
  import opened AddrState
  import opened AddrSteps
  import opened AddrOps
  import opened AddrStream
  import opened AddrRoundTrip

  // ---------------------------------------------------------------- what passes

  // mapAddr[ip]: an address that is not there counts as id 0.
  function AddrAt(addr: map<NetAddr, int>, ip: NetAddr): int {
    if ip in addr then addr[ip] else 0
  }

  // The part of the invariant that Check_ looks at.
  ghost predicate Sound(s: State) {
    && (forall id | id in s.info :: AddrAt(s.addr, s.info[id].service.ip) == id)
    && RandomOk(s.info, s.random)
    && NewOk(s.env, s.key, s.info, s.newTable)
    && TriedOk(s.env, s.key, s.info, s.triedTable)
    && RefsOk(s.info, s.newTable)
    && s.nTried == |TriedIds(s.info)|
    && s.nNew == |NewIds(s.info)|
    && Orphans(s.info) == {}
  }

  ghost function Addresses(info: map<int, AddrInfo>): set<NetAddr> {
    set id | id in info :: info[id].service.ip
  }

  // It does not look at the id counter, and at mapAddr only for the addresses of the entries.
  lemma SoundIsInv(s: State)
    ensures Inv(s) <==> Sound(s) && IdsOk(s.info, s.nIdCount) && s.addr.Keys == Addresses(s.info)
  {
    if Inv(s) {
      AddrsAreKeys(s.info, s.addr);
    }
    hide RandomOk, NewOk, TriedOk, RefsOk;
    if Sound(s) && s.addr.Keys == Addresses(s.info) {
      KeysAreAddrs(s.info, s.addr);
    }
  }

  lemma HasAddress(info: map<int, AddrInfo>, id: int)
    requires id in info
    ensures info[id].service.ip in Addresses(info)
  {
  }

  lemma AddrsAreKeys(info: map<int, AddrInfo>, addr: map<NetAddr, int>)
    requires AddrOk(info, addr)
    ensures addr.Keys == Addresses(info)
  {
    forall ip ensures ip in addr <==> ip in Addresses(info) {
      if ip in addr {
        HasAddress(info, addr[ip]);
      }
    }
  }

  lemma KeysAreAddrs(info: map<int, AddrInfo>, addr: map<NetAddr, int>)
    requires addr.Keys == Addresses(info) && forall id | id in info :: AddrAt(addr, info[id].service.ip) == id
    ensures AddrOk(info, addr)
  {
    forall id | id in info ensures info[id].service.ip in addr {
      assert info[id].service.ip in Addresses(info);
    }
    forall ip | ip in addr ensures addr[ip] in info && info[addr[ip]].service.ip == ip {
      assert ip in Addresses(info);
    }
  }

  // A left-over address goes unnoticed, ...
  lemma LeftOverIsSound(env: Env, key: Key, ip: NetAddr, id: int)
    ensures Sound(Init(env, key).(addr := map[ip := id])) && !Inv(Init(env, key).(addr := map[ip := id]))
  {
    InitInv(env, key);
    var addr := map[ip := id];
    assert ip in addr;
  }

  // ... so does the missing address of entry 0, which the look-up takes for id 0 and enters, ...
  lemma MissingZeroIsSound(s: State)
    requires Inv(s) && 0 in s.info
    ensures Sound(s.(addr := s.addr - {s.info[0].service.ip})) && !Inv(s.(addr := s.addr - {s.info[0].service.ip}))
    ensures IdsOk(s.info, s.nIdCount) && s.addr.Keys - {s.info[0].service.ip} < Addresses(s.info)
  {
    AddrsAreKeys(s.info, s.addr);
    var ip := s.info[0].service.ip;
    assert ip in s.addr && s.addr[ip] == 0;
    assert forall id | id in s.info && id != 0 :: s.info[id].service.ip != ip;
  }

  // ... but only of entry 0 ...
  lemma MissingIsZero(s: State, id: int)
    requires Sound(s) && id in s.info && s.info[id].service.ip !in s.addr
    ensures id == 0
  {
  }

  // ... and an id counter that is too low.
  lemma LowCounterIsSound(s: State, n: int)
    requires Inv(s)
    ensures Sound(s.(nIdCount := n))
    ensures Inv(s.(nIdCount := n)) <==> n >= 0 && forall id | id in s.info :: id < n
  {
  }

  predicate GoodTimes(info: AddrInfo) {
    info.nLastTry >= 0 && info.nLastSuccess >= 0 && (info.fInTried ==> info.nLastSuccess != 0)
  }

  ghost predicate EntryTimesOk(info: map<int, AddrInfo>) {
    forall id | id in info :: GoodTimes(info[id])
  }

  // ---------------------------------------------------------------- the entries

  ghost function NewRefs(info: map<int, AddrInfo>): map<int, int> {
    map id | id in info && !info[id].fInTried :: info[id].nRefCount
  }

  // The structural tests Check_ makes of one entry.
  ghost predicate EntryPasses(entry: AddrInfo, id: int, addr: map<NetAddr, int>, random: seq<int>) {
    && (if entry.fInTried then entry.nRefCount == 0 else 0 < entry.nRefCount <= NEW_BUCKETS_PER_ADDRESS)
    && AddrAt(addr, entry.service.ip) == id
    && 0 <= entry.nRandomPos < |random| && random[entry.nRandomPos] == id
  }

  ghost predicate AllPass(info: map<int, AddrInfo>, addr: map<NetAddr, int>, random: seq<int>) {
    forall id | id in info :: EntryPasses(info[id], id, addr, random)
  }

  // Looking addresses up enters the missing ones with id 0.
  ghost predicate LookedUp(before: map<NetAddr, int>, after: map<NetAddr, int>, info: map<int, AddrInfo>) {
    && (forall ip | ip in before :: ip in after && after[ip] == before[ip])
    && (forall ip | ip in after && ip !in before :: after[ip] == 0 && exists id :: id in info && info[id].service.ip == ip)
  }

  // Check_'s tests of one entry; 0 if it passes.
  method CheckEntry(entry: AddrInfo, id: int, addr: map<NetAddr, int>, random: seq<int>)
      returns (code: int, seen: map<NetAddr, int>)
    ensures code == 0 ==> GoodTimes(entry) && EntryPasses(entry, id, addr, random) && entry.service.ip in seen
    ensures code in {-1, -6, -8} ==> !GoodTimes(entry)
    ensures code !in {0, -1, -6, -8} ==> !EntryPasses(entry, id, addr, random)
    ensures seen == addr || (entry.service.ip !in addr && seen == addr[entry.service.ip := 0])
  {
    seen := addr;
    if entry.fInTried {
      if entry.nLastSuccess == 0 {
        return -1, seen;
      }
      if entry.nRefCount != 0 {
        return -2, seen;
      }
    } else {
      if entry.nRefCount < 0 || entry.nRefCount > NEW_BUCKETS_PER_ADDRESS {
        return -3, seen;
      }
      if entry.nRefCount == 0 {
        return -4, seen;
      }
    }
    if entry.service.ip !in seen {
      seen := seen[entry.service.ip := 0];
    }
    if seen[entry.service.ip] != id {
      return -5, seen;
    }
    if entry.nRandomPos < 0 || entry.nRandomPos >= |random| || random[entry.nRandomPos] != id {
      return -14, seen;
    }
    if entry.nLastTry < 0 {
      return -6, seen;
    }
    if entry.nLastSuccess < 0 {
      return -8, seen;
    }
    return 0, seen;
  }

  lemma SameLook(entry: AddrInfo, id: int, addr: map<NetAddr, int>, seen: map<NetAddr, int>, info: map<int, AddrInfo>, random: seq<int>)
    requires LookedUp(addr, seen, info)
    ensures EntryPasses(entry, id, addr, random) <==> EntryPasses(entry, id, seen, random)
  {
  }

  lemma LookUpNext(addr: map<NetAddr, int>, seen: map<NetAddr, int>, info: map<int, AddrInfo>, id: int)
    requires LookedUp(addr, seen, info) && id in info && info[id].service.ip !in seen
    ensures LookedUp(addr, seen[info[id].service.ip := 0], info)
  {
  }

  // Check_'s pass over the entries, sorting them into tried ones and counts of new ones.
  method CheckEntries(info: map<int, AddrInfo>, addr: map<NetAddr, int>, random: seq<int>)
      returns (code: int, seen: map<NetAddr, int>, setTried: set<int>, mapNew: map<int, int>)
    ensures code == 0 ==> EntryTimesOk(info) && AllPass(info, addr, random) && setTried == TriedIds(info) && mapNew == NewRefs(info)
    ensures code in {-1, -6, -8} ==> !EntryTimesOk(info)
    ensures code !in {0, -1, -6, -8} ==> !AllPass(info, addr, random)
    ensures LookedUp(addr, seen, info)
    ensures code == 0 ==> forall id | id in info :: info[id].service.ip in seen
  {
    hide EntryPasses, LookedUp, NewRefs, GoodTimes;
    seen, setTried, mapNew := addr, {}, map[];
    LookNothing(addr, info);
    var todo := info.Keys;
    while todo != {}
      invariant todo <= info.Keys
      invariant LookedUp(addr, seen, info)
      invariant setTried == TriedIds(info) - todo
      invariant mapNew.Keys == NewIds(info) - todo
      invariant forall id | id in mapNew :: mapNew[id] == info[id].nRefCount
      invariant forall id | id in info && id !in todo ::
        GoodTimes(info[id]) && EntryPasses(info[id], id, addr, random) && info[id].service.ip in seen
      decreases todo
    {
      NotEmpty(todo);
      var id :| id in todo;
      SameLook(info[id], id, addr, seen, info, random);
      if info[id].service.ip !in seen {
        LookUpNext(addr, seen, info, id);
      }
      code, seen := CheckEntry(info[id], id, seen, random);
      if code != 0 {
        return;
      }
      if info[id].fInTried {
        setTried := setTried + {id};
      } else {
        mapNew := mapNew[id := info[id].nRefCount];
      }
      todo := todo - {id};
    }
    IsNewRefs(info, mapNew);
    code := 0;
  }

  lemma IsNewRefs(info: map<int, AddrInfo>, m: map<int, int>)
    requires m.Keys == NewIds(info) && forall id | id in m :: m[id] == info[id].nRefCount
    ensures m == NewRefs(info)
  {
    var refs := NewRefs(info);
    assert m.Keys == refs.Keys;
    assert forall id | id in m :: m[id] == refs[id];
  }

  lemma NotEmpty(ids: set<int>)
    ensures ids != {} ==> exists id :: id in ids
  {
    assert (forall id :: id !in ids) ==> ids == {};
  }

  lemma LookNothing(addr: map<NetAddr, int>, info: map<int, AddrInfo>)
    ensures LookedUp(addr, addr, info)
  {
  }

  // On a sound table every address is looked up where it is, unless it is that of entry 0.
  lemma LookUpKeeps(addr: map<NetAddr, int>, seen: map<NetAddr, int>, info: map<int, AddrInfo>)
    requires LookedUp(addr, seen, info) && AddrOk(info, addr)
    ensures seen == addr
  {
  }

  lemma EntriesPass(s: State)
    requires Sound(s)
    ensures AllPass(s.info, s.addr, s.random)
  {
    forall id | id in s.info ensures EntryPasses(s.info[id], id, s.addr, s.random) {
      ListedAtPosition(s.info, s.random, id);
      assert s.info[id].nRefCount == |SlotsOf(s.newTable, id)|;
      assert id !in Orphans(s.info);
    }
  }

  lemma Populations(info: map<int, AddrInfo>)
    ensures |TriedIds(info)| + |NewIds(info)| == |info.Keys|
  {
    assert TriedIds(info) + NewIds(info) == info.Keys && TriedIds(info) !! NewIds(info);
  }

  lemma SizesAdd(s: State)
    requires Sound(s)
    ensures |s.random| == s.nTried + s.nNew
  {
    assert RandomOk(s.info, s.random);
    hide NewOk, TriedOk, RefsOk;
    Populations(s.info);
    forall id ensures id in s.random <==> id in s.info.Keys {}
    DistinctSize(s.random, s.info.Keys);
  }

  ghost function Positions(info: map<int, AddrInfo>, ids: set<int>): set<int>
    requires ids <= info.Keys
  {
    set id | id in ids :: info[id].nRandomPos
  }

  lemma PositionsDiffer(info: map<int, AddrInfo>, addr: map<NetAddr, int>, random: seq<int>, a: int, b: int)
    requires AllPass(info, addr, random) && a in info && b in info && a != b
    ensures info[a].nRandomPos != info[b].nRandomPos
  {
    assert EntryPasses(info[a], a, addr, random) && EntryPasses(info[b], b, addr, random);
  }

  lemma TakePosition(info: map<int, AddrInfo>, addr: map<NetAddr, int>, random: seq<int>, ids: set<int>, x: int)
    requires AllPass(info, addr, random) && ids <= info.Keys && x in ids
    ensures info[x].nRandomPos !in Positions(info, ids - {x})
    ensures Positions(info, ids) == Positions(info, ids - {x}) + {info[x].nRandomPos}
  {
    hide AllPass;
    forall id | id in ids - {x} ensures info[id].nRandomPos != info[x].nRandomPos {
      PositionsDiffer(info, addr, random, id, x);
    }
  }

  lemma {:induction false} PositionsSize(info: map<int, AddrInfo>, addr: map<NetAddr, int>, random: seq<int>, ids: set<int>)
    requires AllPass(info, addr, random) && ids <= info.Keys
    ensures |Positions(info, ids)| == |ids|
  {
    if ids == {} {
      assert Positions(info, ids) == {};
    } else {
      hide AllPass, Positions;
      NotEmpty(ids);
      var x :| x in ids;
      PositionsSize(info, addr, random, ids - {x});
      TakePosition(info, addr, random, ids, x);
    }
  }

  // As many positions as entries: vRandom lists every entry once.
  lemma ListedOnce(info: map<int, AddrInfo>, addr: map<NetAddr, int>, random: seq<int>)
    requires AllPass(info, addr, random) && |random| == |info.Keys|
    ensures RandomOk(info, random)
  {
    var taken := Positions(info, info.Keys);
    PositionsSize(info, addr, random, info.Keys);
    forall i | i in taken ensures i in Range(|random|) {
      var id :| id in info && info[id].nRandomPos == i;
      assert EntryPasses(info[id], id, addr, random);
    }
    SameSize(taken, Range(|random|));
    forall i | 0 <= i < |random| ensures random[i] in info && info[random[i]].nRandomPos == i {
      assert i in taken;
      var id :| id in info && info[id].nRandomPos == i;
      assert EntryPasses(info[id], id, addr, random);
    }
    forall id | id in info ensures id in random {
      assert EntryPasses(info[id], id, addr, random);
    }
  }

  lemma SameSize(a: set<int>, b: set<int>)
    requires a <= b && |a| == |b|
    ensures a == b
  {
    assert |b| == |a| + |b - a| by { assert b == a + (b - a); }
  }

  ghost predicate RefsInRange(info: map<int, AddrInfo>) {
    forall id | id in info :: if info[id].fInTried then info[id].nRefCount == 0 else 0 < info[id].nRefCount <= NEW_BUCKETS_PER_ADDRESS
  }

  lemma PassedRefs(info: map<int, AddrInfo>, addr: map<NetAddr, int>, random: seq<int>)
    requires AllPass(info, addr, random)
    ensures RefsInRange(info) && Orphans(info) == {}
    ensures forall id | id in info :: AddrAt(addr, info[id].service.ip) == id
  {
    forall id | id in info ensures EntryPasses(info[id], id, addr, random) {}
  }

  ghost predicate NewTableOk(s: State) {
    NewOk(s.env, s.key, s.info, s.newTable) && RefsOk(s.info, s.newTable)
  }

  // A table is sound exactly if it passes all the tests.
  lemma TestsAreSound(s: State)
    ensures Sound(s) <==>
      && |s.random| == s.nTried + s.nNew
      && AllPass(s.info, s.addr, s.random)
      && |TriedIds(s.info)| == s.nTried && |NewIds(s.info)| == s.nNew
      && TriedOk(s.env, s.key, s.info, s.triedTable)
      && NewTableOk(s)
  {
    Populations(s.info);
    if Sound(s) {
      EntriesPass(s);
      SizesAdd(s);
    }
    hide AllPass, TriedOk, NewOk, RefsOk, RandomOk, TriedIds, NewIds, Orphans;
    if AllPass(s.info, s.addr, s.random) {
      PassedRefs(s.info, s.addr, s.random);
      if |s.random| == |s.info.Keys| {
        ListedOnce(s.info, s.addr, s.random);
      }
    }
  }

  // On a consistent table the looking up changes nothing.
  lemma LookUpOfInv(s: State, seen: map<NetAddr, int>)
    requires LookedUp(s.addr, seen, s.info)
    ensures Inv(s) ==> seen == s.addr
  {
    if Inv(s) {
      LookUpKeeps(s.addr, seen, s.info);
    }
  }

  lemma NewRefsSize(info: map<int, AddrInfo>)
    ensures |NewRefs(info)| == |NewIds(info)|
  {
    assert NewRefs(info).Keys == NewIds(info);
  }

  // ---------------------------------------------------------------- the tried table

  // The cells are those of the arrays.
  ghost predicate Fits(t: Table, buckets: nat) {
    forall slot | slot in t :: slot.bucket < buckets && slot.pos < BUCKET_SIZE
  }

  lemma BeforeNext(slot: Slot, bucket: nat, pos: nat)
    ensures Before(slot, bucket, pos + 1) <==> Before(slot, bucket, pos) || slot == Slot(bucket, pos)
    ensures slot.pos < BUCKET_SIZE ==> (Before(slot, bucket, BUCKET_SIZE) <==> Before(slot, bucket + 1, 0))
  {
  }

  ghost predicate HoldsTried(s: State, slot: Slot)
    requires slot in s.triedTable
  {
    var id := s.triedTable[slot];
    id in s.info && s.info[id].fInTried && TriedSlot(s.env, s.key, s.info[id].service) == slot
  }

  ghost predicate IsHome(s: State, id: int)
    requires id in s.info
  {
    var slot := TriedSlot(s.env, s.key, s.info[id].service);
    slot in s.triedTable && s.triedTable[slot] == id
  }

  // The cells before the given one hold tried entries at home ...
  ghost predicate TriedRight(s: State, bucket: nat, pos: nat) {
    forall slot | slot in s.triedTable && Before(slot, bucket, pos) :: HoldsTried(s, slot)
  }

  // ... and these tried entries have not turned up yet.
  ghost function TriedLeft(s: State, bucket: nat, pos: nat): set<int> {
    set id | id in s.info && s.info[id].fInTried
             && !(IsHome(s, id) && Before(TriedSlot(s.env, s.key, s.info[id].service), bucket, pos))
  }

  lemma TriedStart(s: State)
    ensures TriedRight(s, 0, 0) && TriedLeft(s, 0, 0) == TriedIds(s.info)
  {
    hide TriedSlot, IsHome;
    assert forall id | id in s.info :: !Before(TriedSlot(s.env, s.key, s.info[id].service), 0, 0);
  }

  lemma TriedLeftIsKnown(s: State, bucket: nat, pos: nat)
    ensures forall id | id in TriedLeft(s, bucket, pos) :: id in s.info
  {
  }

  lemma TriedCellFree(s: State, bucket: nat, pos: nat)
    requires TriedRight(s, bucket, pos) && Slot(bucket, pos) !in s.triedTable
    ensures TriedRight(s, bucket, pos + 1) && TriedLeft(s, bucket, pos + 1) == TriedLeft(s, bucket, pos)
  {
    hide TriedSlot, HoldsTried;
    forall slot | slot in s.triedTable ensures Before(slot, bucket, pos + 1) <==> Before(slot, bucket, pos) {
      BeforeNext(slot, bucket, pos);
    }
    hide Before;
  }

  // What is not left, or not at home, is an error.
  lemma TriedCellBad(s: State, bucket: nat, pos: nat)
    requires Slot(bucket, pos) in s.triedTable
    requires s.triedTable[Slot(bucket, pos)] in TriedLeft(s, bucket, pos) ==>
      TriedSlot(s.env, s.key, s.info[s.triedTable[Slot(bucket, pos)]].service) != Slot(bucket, pos)
    ensures !TriedOk(s.env, s.key, s.info, s.triedTable)
  {
    hide TriedSlot;
  }

  lemma TriedCellGood(s: State, bucket: nat, pos: nat)
    requires TriedRight(s, bucket, pos) && Slot(bucket, pos) in s.triedTable
    requires s.triedTable[Slot(bucket, pos)] in TriedLeft(s, bucket, pos)
    requires TriedSlot(s.env, s.key, s.info[s.triedTable[Slot(bucket, pos)]].service) == Slot(bucket, pos)
    ensures TriedRight(s, bucket, pos + 1)
    ensures TriedLeft(s, bucket, pos + 1) == TriedLeft(s, bucket, pos) - {s.triedTable[Slot(bucket, pos)]}
  {
    hide TriedSlot;
    forall slot ensures Before(slot, bucket, pos + 1) <==> Before(slot, bucket, pos) || slot == Slot(bucket, pos) {
      BeforeNext(slot, bucket, pos);
    }
    assert !Before(Slot(bucket, pos), bucket, pos);
    hide Before;
  }

  lemma TriedNextBucket(s: State, bucket: nat)
    requires Fits(s.triedTable, TRIED_BUCKET_COUNT) && TriedRight(s, bucket, BUCKET_SIZE)
    ensures TriedRight(s, bucket + 1, 0) && TriedLeft(s, bucket + 1, 0) == TriedLeft(s, bucket, BUCKET_SIZE)
  {
    hide TriedSlot, HoldsTried;
    forall slot | slot in s.triedTable ensures Before(slot, bucket, BUCKET_SIZE) <==> Before(slot, bucket + 1, 0) {
      BeforeNext(slot, bucket, 0);
    }
    hide Before;
  }

  // Behind the last bucket nothing is left exactly if the table is in order.
  lemma TriedEnd(s: State)
    requires Fits(s.triedTable, TRIED_BUCKET_COUNT) && TriedRight(s, TRIED_BUCKET_COUNT, 0)
    ensures TriedLeft(s, TRIED_BUCKET_COUNT, 0) == {} <==> TriedOk(s.env, s.key, s.info, s.triedTable)
  {
    forall slot | slot in s.triedTable ensures Before(slot, TRIED_BUCKET_COUNT, 0) {}
    hide TriedSlot, Before;
    if TriedLeft(s, TRIED_BUCKET_COUNT, 0) == {} {
      forall id | id in s.info && s.info[id].fInTried ensures IsHome(s, id) {
        assert id !in TriedLeft(s, TRIED_BUCKET_COUNT, 0);
      }
    }
  }

  // ---------------------------------------------------------------- the new table

  ghost function CellsBefore(t: Table, id: int, bucket: nat, pos: nat): set<Slot> {
    set slot | slot in t && t[slot] == id && Before(slot, bucket, pos)
  }

  ghost predicate HoldsNew(s: State, slot: Slot)
    requires slot in s.newTable
  {
    var id := s.newTable[slot];
    id in s.info && !s.info[id].fInTried && NewPosition(s.env, s.key, s.info[id].service, slot.bucket) == slot.pos
  }

  ghost predicate NewRight(s: State, bucket: nat, pos: nat) {
    && (forall slot | slot in s.newTable && Before(slot, bucket, pos) :: HoldsNew(s, slot))
    && (forall id | id in s.info && !s.info[id].fInTried :: |CellsBefore(s.newTable, id, bucket, pos)| <= s.info[id].nRefCount)
  }

  // How many more cells each entry must turn up in.
  ghost function NewLeft(s: State, bucket: nat, pos: nat): map<int, int> {
    map id | id in s.info && !s.info[id].fInTried && |CellsBefore(s.newTable, id, bucket, pos)| < s.info[id].nRefCount ::
      s.info[id].nRefCount - |CellsBefore(s.newTable, id, bucket, pos)|
  }

  lemma NewStart(s: State)
    requires RefsInRange(s.info)
    ensures NewRight(s, 0, 0) && NewLeft(s, 0, 0) == NewRefs(s.info)
  {
    hide HoldsNew;
    forall id | id in s.info && !s.info[id].fInTried
      ensures CellsBefore(s.newTable, id, 0, 0) == {} && s.info[id].nRefCount > 0
    {
    }
  }

  // The cells before the next one.
  lemma CellsBeforeNext(t: Table, id: int, bucket: nat, pos: nat)
    ensures CellsBefore(t, id, bucket, pos + 1) ==
      CellsBefore(t, id, bucket, pos) + if Slot(bucket, pos) in t && t[Slot(bucket, pos)] == id then {Slot(bucket, pos)} else {}
    ensures Slot(bucket, pos) !in CellsBefore(t, id, bucket, pos)
  {
  }

  lemma NewLeftIsKnown(s: State, bucket: nat, pos: nat)
    ensures forall id | id in NewLeft(s, bucket, pos) :: id in s.info
  {
  }

  // One cell more of its holder, none more of any other entry.
  lemma NewCountNext(s: State, bucket: nat, pos: nat, id: int)
    ensures |CellsBefore(s.newTable, id, bucket, pos + 1)| == |CellsBefore(s.newTable, id, bucket, pos)|
      + if Slot(bucket, pos) in s.newTable && s.newTable[Slot(bucket, pos)] == id then 1 else 0
  {
    CellsBeforeNext(s.newTable, id, bucket, pos);
  }

  lemma NewCellFree(s: State, bucket: nat, pos: nat)
    requires NewRight(s, bucket, pos) && Slot(bucket, pos) !in s.newTable
    ensures NewRight(s, bucket, pos + 1) && NewLeft(s, bucket, pos + 1) == NewLeft(s, bucket, pos)
  {
    hide NewPosition, CellsBefore, HoldsNew, Before;
    forall id ensures |CellsBefore(s.newTable, id, bucket, pos + 1)| == |CellsBefore(s.newTable, id, bucket, pos)| {
      NewCountNext(s, bucket, pos, id);
    }
    forall slot | slot in s.newTable ensures Before(slot, bucket, pos + 1) <==> Before(slot, bucket, pos) {
      BeforeNext(slot, bucket, pos);
    }
  }

  // A holder that is not expected, or not at this position, is an error.
  lemma NewCellBad(s: State, bucket: nat, pos: nat)
    requires NewRight(s, bucket, pos) && Slot(bucket, pos) in s.newTable
    requires s.newTable[Slot(bucket, pos)] in NewLeft(s, bucket, pos) ==>
      NewPosition(s.env, s.key, s.info[s.newTable[Slot(bucket, pos)]].service, bucket) != pos
    ensures !NewTableOk(s)
  {
    hide NewPosition;
    var slot := Slot(bucket, pos);
    var id := s.newTable[slot];
    if id in s.info && !s.info[id].fInTried && id !in NewLeft(s, bucket, pos) {
      var seen := CellsBefore(s.newTable, id, bucket, pos);
      assert slot !in seen;
      MoreCells(seen, SlotsOf(s.newTable, id), slot);
    }
  }

  lemma MoreCells(a: set<Slot>, b: set<Slot>, slot: Slot)
    requires a <= b && slot in b && slot !in a
    ensures |a| < |b|
  {
    assert b == a + (b - a) && slot in b - a;
    assert |b| == |a| + |b - a|;
  }

  // --mapNew[id], and erase it at zero
  function CountDown(left: map<int, int>, id: int): map<int, int>
    requires id in left
  {
    if left[id] - 1 == 0 then left - {id} else left[id := left[id] - 1]
  }

  lemma NewCellGood(s: State, bucket: nat, pos: nat)
    requires NewRight(s, bucket, pos) && Slot(bucket, pos) in s.newTable
    requires s.newTable[Slot(bucket, pos)] in NewLeft(s, bucket, pos)
    requires NewPosition(s.env, s.key, s.info[s.newTable[Slot(bucket, pos)]].service, bucket) == pos
    ensures NewRight(s, bucket, pos + 1)
    ensures NewLeft(s, bucket, pos + 1) == CountDown(NewLeft(s, bucket, pos), s.newTable[Slot(bucket, pos)])
  {
    hide NewPosition, CellsBefore;
    forall k ensures |CellsBefore(s.newTable, k, bucket, pos + 1)| == |CellsBefore(s.newTable, k, bucket, pos)|
      + if s.newTable[Slot(bucket, pos)] == k then 1 else 0
    {
      NewCountNext(s, bucket, pos, k);
    }
    forall other ensures Before(other, bucket, pos + 1) <==> Before(other, bucket, pos) || other == Slot(bucket, pos) {
      BeforeNext(other, bucket, pos);
    }
    hide Before;
  }

  lemma NewNextBucket(s: State, bucket: nat)
    requires Fits(s.newTable, NEW_BUCKET_COUNT) && NewRight(s, bucket, BUCKET_SIZE)
    ensures NewRight(s, bucket + 1, 0) && NewLeft(s, bucket + 1, 0) == NewLeft(s, bucket, BUCKET_SIZE)
  {
    forall slot | slot in s.newTable ensures Before(slot, bucket, BUCKET_SIZE) <==> Before(slot, bucket + 1, 0) {
      BeforeNext(slot, bucket, 0);
    }
    hide Before, HoldsNew;
    forall id ensures CellsBefore(s.newTable, id, bucket + 1, 0) == CellsBefore(s.newTable, id, bucket, BUCKET_SIZE) {
    }
    hide CellsBefore;
  }

  // Behind the last bucket nothing is left exactly if the counts are right, and then so is the table.
  lemma NewEnd(s: State)
    requires Fits(s.newTable, NEW_BUCKET_COUNT) && NewRight(s, NEW_BUCKET_COUNT, 0) && RefsInRange(s.info)
    ensures NewLeft(s, NEW_BUCKET_COUNT, 0) == map[] <==> NewTableOk(s)
  {
    forall slot | slot in s.newTable ensures Before(slot, NEW_BUCKET_COUNT, 0) && HoldsNew(s, slot) {}
    assert NewOk(s.env, s.key, s.info, s.newTable);
    hide Before, NewOk, NewPosition;
    forall id ensures CellsBefore(s.newTable, id, NEW_BUCKET_COUNT, 0) == SlotsOf(s.newTable, id) {}
    forall id | id in s.info && s.info[id].fInTried ensures SlotsOf(s.newTable, id) == {} {
      forall slot | slot in s.newTable ensures s.newTable[slot] != id {
        assert HoldsNew(s, slot);
      }
    }
    hide CellsBefore, SlotsOf, HoldsNew;
    if NewLeft(s, NEW_BUCKET_COUNT, 0) == map[] {
      forall id | id in s.info && !s.info[id].fInTried ensures s.info[id].nRefCount == |SlotsOf(s.newTable, id)| {
        assert id !in NewLeft(s, NEW_BUCKET_COUNT, 0);
      }
    } else {
      var id :| id in NewLeft(s, NEW_BUCKET_COUNT, 0);
      assert s.info[id].nRefCount != |SlotsOf(s.newTable, id)|;
    }
  }
}
