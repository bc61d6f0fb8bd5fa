/** The peer address table as a value: the data CAddrMan keeps, the operations on it as
    functions, and the structural invariant that `CAddrMan::Check_` spells out.

    Hashing, the clock and random draws are parameters: a hash is any function of what the
    source hashes, a random draw is any number reduced the way the source reduces it. */
module AddrTypes {
  import opened Numbers

  const TRIED_BUCKET_COUNT := 256
  const NEW_BUCKET_COUNT := 1024
  const BUCKET_SIZE := 64
  const TRIED_BUCKETS_PER_GROUP := 8
  const NEW_BUCKETS_PER_SOURCE_GROUP := 64
  const NEW_BUCKETS_PER_ADDRESS := 8
  const HORIZON_DAYS := 30
  const RETRIES := 3
  const MAX_FAILURES := 10
  const MIN_FAIL_DAYS := 7
  const GETADDR_MAX_PCT := 23
  const GETADDR_MAX := 2500

  // A 16-byte network address (CNetAddr) and the 256-bit bucket key, as numbers.
  type NetAddr = nat
  type Key = nat
  // An address range.
  type Group = nat

  // CService: mapAddr is keyed by the address alone, equality also compares the port.
  datatype Service = Service(ip: NetAddr, port: nat)

  // CAddress, as received from a peer; nServices as the set of its bits.
  datatype Address = Address(service: Service, services: set<nat>, nTime: UInt32)

  // CAddrInfo
  datatype AddrInfo = AddrInfo(
    service: Service, services: set<nat>, nTime: UInt32, source: NetAddr,
    nLastSuccess: int, nLastTry: int, nAttempts: int,
    nRefCount: int, fInTried: bool, nRandomPos: int)

  // What the table asks of the world: the range an address belongs to (GetGroup), the keyed
  // hashes of what the source hashes, two for each bucket and one for the position, and the
  // routability test.
  datatype Env = Env(
    group: NetAddr -> Group,
    triedHash1: (Key, Service) -> nat,
    triedHash2: (Key, Group, nat) -> nat,
    newHash1: (Key, Group, Group) -> nat,
    newHash2: (Key, Group, nat) -> nat,
    positionHash: (Key, bool, nat, Service) -> nat,
    routable: NetAddr -> bool)

  // A cell of the "new" or "tried" table.
  datatype Slot = Slot(bucket: nat, pos: nat)

  // The occupied cells of a bucket table, with the id each one holds.
  type Table = map<Slot, int>

  function TriedBucket(env: Env, key: Key, service: Service): nat {
    var hash1 := env.triedHash1(key, service);
    env.triedHash2(key, env.group(service.ip), hash1 % TRIED_BUCKETS_PER_GROUP) % TRIED_BUCKET_COUNT
  }

  function NewBucket(env: Env, key: Key, ip: NetAddr, source: NetAddr): nat {
    var hash1 := env.newHash1(key, env.group(ip), env.group(source));
    env.newHash2(key, env.group(source), hash1 % NEW_BUCKETS_PER_SOURCE_GROUP) % NEW_BUCKET_COUNT
  }

  function TriedSlot(env: Env, key: Key, service: Service): Slot {
    var bucket := TriedBucket(env, key, service);
    Slot(bucket, env.positionHash(key, false, bucket, service) % BUCKET_SIZE)
  }

  function NewPosition(env: Env, key: Key, service: Service, bucket: nat): nat {
    env.positionHash(key, true, bucket, service) % BUCKET_SIZE
  }

  function NewSlot(env: Env, key: Key, service: Service, source: NetAddr): Slot {
    var bucket := NewBucket(env, key, service.ip, source);
    Slot(bucket, NewPosition(env, key, service, bucket))
  }

  predicate IsTerrible(info: AddrInfo, now: int) {
    if info.nLastTry != 0 && info.nLastTry >= now - 60 then
      false
    else
      || info.nTime > now + 10 * 60
      || info.nTime == 0
      || now - info.nTime > HORIZON_DAYS * 24 * 60 * 60
      || (info.nLastSuccess == 0 && info.nAttempts >= RETRIES)
      || (now - info.nLastSuccess > MIN_FAIL_DAYS * 24 * 60 * 60 && info.nAttempts >= MAX_FAILURES)
  }

  function Max(a: int, b: int): int {
    if a >= b then a else b
  }

  // Storing a 64-bit value in the 32-bit time field.
  function ToTime(t: int): UInt32 {
    t % 0x1_0000_0000
  }

  function InfoOf(addr: Address, source: NetAddr): AddrInfo {
    AddrInfo(addr.service, addr.services, addr.nTime, source, 0, 0, 0, 0, false, -1)
  }

  // Add_'s refresh of a known entry: nTime moves only by more than the update interval.
  function Refresh(info: AddrInfo, addr: Address, penalty: int, now: int): AddrInfo {
    var interval := if now - addr.nTime < 24 * 60 * 60 then 60 * 60 else 24 * 60 * 60;
    var nTime :=
      if addr.nTime != 0 && (info.nTime == 0 || info.nTime < addr.nTime - interval - penalty)
      then ToTime(Max(0, addr.nTime - penalty))
      else info.nTime;
    info.(nTime := nTime, services := info.services + addr.services)
  }
}

module AddrState {
  import opened AddrTypes

  datatype State = State(
    env: Env, key: Key, nIdCount: int,
    info: map<int, AddrInfo>, addr: map<NetAddr, int>, random: seq<int>,
    nTried: int, triedTable: Table, nNew: int, newTable: Table)

  ghost function SlotsOf(t: Table, id: int): set<Slot> {
    set slot | slot in t && t[slot] == id
  }

  ghost function TriedIds(info: map<int, AddrInfo>): set<int> {
    set id | id in info && info[id].fInTried
  }

  ghost function NewIds(info: map<int, AddrInfo>): set<int> {
    set id | id in info && !info[id].fInTried
  }

  // ---------------------------------------------------------------- the invariant

  ghost predicate IdsOk(info: map<int, AddrInfo>, nIdCount: int) {
    0 <= nIdCount && forall id | id in info :: 0 <= id < nIdCount
  }

  // mapAddr inverts mapInfo.
  ghost predicate AddrOk(info: map<int, AddrInfo>, addr: map<NetAddr, int>) {
    && (forall id | id in info :: info[id].service.ip in addr && addr[info[id].service.ip] == id)
    && (forall ip | ip in addr :: addr[ip] in info && info[addr[ip]].service.ip == ip)
  }

  // vRandom lists every id once, and every entry knows where it is listed.
  ghost predicate RandomOk(info: map<int, AddrInfo>, random: seq<int>) {
    && (forall i | 0 <= i < |random| :: random[i] in info && info[random[i]].nRandomPos == i)
    && (forall id | id in info :: id in random)
  }

  lemma ListedAtPosition(info: map<int, AddrInfo>, random: seq<int>, id: int)
    requires RandomOk(info, random) && id in info
    ensures 0 <= info[id].nRandomPos < |random| && random[info[id].nRandomPos] == id
  {
  }

  // Every occupied cell of the new table holds an untried entry, at that entry's position in the bucket.
  ghost predicate NewOk(env: Env, key: Key, info: map<int, AddrInfo>, newTable: Table) {
    forall slot | slot in newTable ::
      && slot.bucket < NEW_BUCKET_COUNT
      && newTable[slot] in info && !info[newTable[slot]].fInTried
      && slot.pos == NewPosition(env, key, info[newTable[slot]].service, slot.bucket)
  }

  // The tried table holds the tried entries, each in exactly its own cell.
  ghost predicate TriedOk(env: Env, key: Key, info: map<int, AddrInfo>, triedTable: Table) {
    && (forall slot | slot in triedTable ::
          && triedTable[slot] in info && info[triedTable[slot]].fInTried
          && slot == TriedSlot(env, key, info[triedTable[slot]].service))
    && (forall id | id in info && info[id].fInTried ::
          var slot := TriedSlot(env, key, info[id].service); slot in triedTable && triedTable[slot] == id)
  }

  // nRefCount counts the new-table cells of the entry.
  ghost predicate RefsOk(info: map<int, AddrInfo>, newTable: Table) {
    && (forall id | id in info :: info[id].nRefCount == |SlotsOf(newTable, id)| <= NEW_BUCKETS_PER_ADDRESS)
    && (forall id | id in info && info[id].fInTried :: info[id].nRefCount == 0)
  }

  // What holds between the individual steps of an operation ...
  ghost predicate Core(s: State) {
    && IdsOk(s.info, s.nIdCount)
    && AddrOk(s.info, s.addr)
    && RandomOk(s.info, s.random)
    && NewOk(s.env, s.key, s.info, s.newTable)
    && TriedOk(s.env, s.key, s.info, s.triedTable)
    && RefsOk(s.info, s.newTable)
  }

  // ... and what an operation may break only for a while: counters and unreferenced entries.
  ghost function Orphans(info: map<int, AddrInfo>): set<int> {
    set id | id in info && !info[id].fInTried && info[id].nRefCount == 0
  }

  ghost predicate Inv(s: State) {
    && Core(s)
    && s.nTried == |TriedIds(s.info)|
    && s.nNew == |NewIds(s.info)|
    && Orphans(s.info) == {}
  }

  // ---------------------------------------------------------------- the operations

  function Init(env: Env, key: Key): State {
    State(env, key, 0, map[], map[], [], 0, map[], 0, map[])
  }

  predicate Known(s: State, ip: NetAddr) {
    ip in s.addr && s.addr[ip] in s.info
  }

  // Find(addr) followed by the comparison with the exact service.
  predicate KnownExactly(s: State, service: Service) {
    Known(s, service.ip) && s.info[s.addr[service.ip]].service == service
  }

  // Clear() resets everything except mapInfo and mapAddr.
  function Cleared(s: State, key: Key): State {
    Init(s.env, key).(info := s.info, addr := s.addr)
  }

  function Create(s: State, addr: Address, source: NetAddr): State {
    s.(nIdCount := s.nIdCount + 1,
       info := s.info[s.nIdCount := InfoOf(addr, source).(nRandomPos := |s.random|)],
       addr := s.addr[addr.service.ip := s.nIdCount],
       random := s.random + [s.nIdCount])
  }

  function SwapRandom(s: State, i: nat, j: nat): State
    requires i < |s.random| && j < |s.random|
    requires s.random[i] in s.info && s.random[j] in s.info
  {
    if i == j then s else
      var a, b := s.random[i], s.random[j];
      var info1 := s.info[a := s.info[a].(nRandomPos := j)];
      s.(info := info1[b := info1[b].(nRandomPos := i)], random := s.random[i := b][j := a])
  }

  // What SwapRandom asserts when Delete moves an entry to the end of vRandom.
  ghost predicate Placed(info: map<int, AddrInfo>, random: seq<int>, id: int)
    requires id in info
  {
    0 <= info[id].nRandomPos < |random| && random[info[id].nRandomPos] == id && random[|random| - 1] in info
  }

  lemma ListedIsPlaced(info: map<int, AddrInfo>, random: seq<int>, id: int)
    requires RandomOk(info, random) && id in info
    ensures Placed(info, random, id)
  {
  }

  function Remove(s: State, id: int): State
    requires id in s.info && Placed(s.info, s.random, id)
  {
    var t := SwapRandom(s, s.info[id].nRandomPos, |s.random| - 1);
    t.(random := t.random[..|t.random| - 1],
       addr := t.addr - {t.info[id].service.ip},
       info := t.info - {id},
       nNew := t.nNew - 1)
  }

  function Delete(s: State, id: int): State
    requires id in s.info && RandomOk(s.info, s.random)
  {
    ListedAtPosition(s.info, s.random, id);
    Remove(s, id)
  }

  function ClearNew(s: State, slot: Slot): State
    requires Core(s)
  {
    if slot !in s.newTable then s else
      var id := s.newTable[slot];
      var t := s.(info := s.info[id := s.info[id].(nRefCount := s.info[id].nRefCount - 1)],
                  newTable := s.newTable - {slot});
      if t.info[id].nRefCount == 0 then Delete(t, id) else t
  }

  // One round of MakeTried's loop: take id out of this new bucket if it sits there.
  function DropFromBucket(s: State, id: int, bucket: nat): State
    requires id in s.info
  {
    var slot := Slot(bucket, NewPosition(s.env, s.key, s.info[id].service, bucket));
    if slot in s.newTable && s.newTable[slot] == id then
      s.(newTable := s.newTable - {slot}, info := s.info[id := s.info[id].(nRefCount := s.info[id].nRefCount - 1)])
    else s
  }

  // The first n rounds of the loop.
  function DropFromBuckets(s: State, id: int, n: nat): State
    requires id in s.info
    ensures id in DropFromBuckets(s, id, n).info
  {
    if n == 0 then s else DropFromBucket(DropFromBuckets(s, id, n - 1), id, n - 1)
  }

  function PutNew(s: State, slot: Slot, id: int, refs: int): State
    requires id in s.info
  {
    s.(info := s.info[id := s.info[id].(nRefCount := refs)], newTable := s.newTable[slot := id])
  }
}
