/** Writing the address manager to a stream and reading it back.

    The stream is a sequence of typed items, in the order the source writes them.  Ids are not
    written: an entry is known by its rank among the entries written before it, and the tried
    table, mapAddr and vRandom are rebuilt on reading. */
module AddrStream {
  import opened AddrTypes
  import opened Numbers
  import opened AddrState
  import opened AddrSteps

  // What CAddrInfo writes of itself.
  datatype DiskInfo = DiskInfo(
    service: Service, services: set<nat>, nTime: UInt32, source: NetAddr, nLastSuccess: int, nAttempts: int)

  datatype Token = ByteTok(byte: nat) | KeyTok(key: Key) | IntTok(i: int) | InfoTok(info: DiskInfo)

  function ToDisk(info: AddrInfo): DiskInfo {
    DiskInfo(info.service, info.services, info.nTime, info.source, info.nLastSuccess, info.nAttempts)
  }

  function FromDisk(d: DiskInfo): AddrInfo {
    AddrInfo(d.service, d.services, d.nTime, d.source, d.nLastSuccess, 0, d.nAttempts, 0, false, -1)
  }

  // Reading into an entry that is there leaves what is not in the stream.
  function Into(d: DiskInfo, info: AddrInfo): AddrInfo {
    info.(service := d.service, services := d.services, nTime := d.nTime, source := d.source,
          nLastSuccess := d.nLastSuccess, nAttempts := d.nAttempts)
  }

  // mapInfo[id], read into: a new entry if there is none.
  function EntryInto(d: DiskInfo, info: map<int, AddrInfo>, id: int): AddrInfo {
    if id in info then Into(d, info[id]) else FromDisk(d)
  }

  // n ^ (1 << 30)
  function FlipBit30(n: int): int {
    if n / 0x4000_0000 % 2 == 1 then n - 0x4000_0000 else n + 0x4000_0000
  }

  // ---------------------------------------------------------------- writing

  // Entries are written in the order of their ids.
  function NewBelow(info: map<int, AddrInfo>, n: nat): seq<int> {
    if n == 0 then []
    else if n - 1 in info && info[n - 1].nRefCount != 0 then NewBelow(info, n - 1) + [n - 1]
    else NewBelow(info, n - 1)
  }

  function TriedBelow(info: map<int, AddrInfo>, n: nat): seq<int> {
    if n == 0 then []
    else if n - 1 in info && info[n - 1].fInTried then TriedBelow(info, n - 1) + [n - 1]
    else TriedBelow(info, n - 1)
  }

  function InfoTokens(info: map<int, AddrInfo>, ids: seq<int>): seq<Token>
    requires forall i | 0 <= i < |ids| :: ids[i] in info
  {
    seq(|ids|, i requires 0 <= i < |ids| => InfoTok(ToDisk(info[ids[i]])))
  }

  // mapUnkIds
  function Rank(info: map<int, AddrInfo>, id: int): nat {
    |NewBelow(info, if id < 0 then 0 else id)|
  }

  // The indices of the first n cells of a bucket.
  function CellTokens(s: State, bucket: nat, n: nat): seq<Token> {
    if n == 0 then []
    else if Slot(bucket, n - 1) in s.newTable then
      CellTokens(s, bucket, n - 1) + [IntTok(Rank(s.info, s.newTable[Slot(bucket, n - 1)]))]
    else CellTokens(s, bucket, n - 1)
  }

  function BucketTokens(s: State, bucket: nat): seq<Token> {
    [IntTok(|CellTokens(s, bucket, BUCKET_SIZE)|)] + CellTokens(s, bucket, BUCKET_SIZE)
  }

  // The buckets from the given one on.
  function TokensFrom(s: State, bucket: nat): seq<Token>
    requires bucket <= NEW_BUCKET_COUNT
    decreases NEW_BUCKET_COUNT - bucket
  {
    if bucket == NEW_BUCKET_COUNT then [] else BucketTokens(s, bucket) + TokensFrom(s, bucket + 1)
  }

  lemma {:induction false} BelowIsKnown(info: map<int, AddrInfo>, n: nat)
    ensures forall id :: id in NewBelow(info, n) <==> 0 <= id < n && id in info && info[id].nRefCount != 0
    ensures forall id :: id in TriedBelow(info, n) <==> 0 <= id < n && id in info && info[id].fInTried
    ensures forall i | 0 <= i < |NewBelow(info, n)| :: NewBelow(info, n)[i] in info
    ensures forall i | 0 <= i < |TriedBelow(info, n)| :: TriedBelow(info, n)[i] in info
  {
    if n > 0 {
      BelowIsKnown(info, n - 1);
    }
  }

  function Header(key: Key, nNew: int, nTried: int): seq<Token> {
    [ByteTok(1), ByteTok(32), KeyTok(key), IntTok(nNew), IntTok(nTried), IntTok(FlipBit30(NEW_BUCKET_COUNT))]
  }

  function Serialize(s: State): seq<Token>
    requires s.nIdCount >= 0
  {
    BelowIsKnown(s.info, s.nIdCount);
    Header(s.key, s.nNew, s.nTried)
    + InfoTokens(s.info, NewBelow(s.info, s.nIdCount))
    + InfoTokens(s.info, TriedBelow(s.info, s.nIdCount))
    + TokensFrom(s, 0)
  }

  // ---------------------------------------------------------------- reading

  // The state read so far, and what is left of the stream; or a read failure.
  datatype Reading = Failed | Reading(s: State, rest: seq<Token>)

  // An entry that no pruning would take away.
  predicate Held(info: AddrInfo) {
    info.fInTried || info.nRefCount > 0
  }

  // Reading numbers the entries 0, 1, 2, ... as they come.  Others are left over from before.
  ghost predicate Numbered(s: State) {
    && (forall i | 0 <= i < |s.random| :: s.random[i] == i && i in s.info && s.info[i].nRandomPos == i)
    && (forall id | id in s.info :: 0 <= id < |s.random| || Held(s.info[id]))
  }

  ghost predicate Ok(r: Reading) {
    r.Reading? ==> Numbered(r.s)
  }

  function Append(s: State, entry: AddrInfo): State {
    var id := |s.random|;
    s.(info := s.info[id := entry.(nRandomPos := id)], addr := s.addr[entry.service.ip := id], random := s.random + [id])
  }

  // One entry of the new table; without usable cell positions it gets the cell of its own source.
  function ReadNewRound(r: Reading, usable: bool): (q: Reading)
    requires Ok(r)
    ensures Ok(q)
  {
    if r.Failed? || r.rest == [] || !r.rest[0].InfoTok? then Failed else
      var entry := EntryInto(r.rest[0].info, r.s.info, |r.s.random|);
      var t := Append(r.s, entry);
      var slot := NewSlot(t.env, t.key, entry.service, entry.source);
      Reading(if usable || slot in t.newTable then t else PutNew(t, slot, |r.s.random|, entry.nRefCount + 1), r.rest[1..])
  }

  function ReadNew(r: Reading, n: nat, usable: bool): (q: Reading)
    requires Ok(r)
    ensures Ok(q)
  {
    if n == 0 then r else ReadNewRound(ReadNew(r, n - 1, usable), usable)
  }

  // One entry of the tried table; a second one for the same cell is lost.
  function ReadTriedRound(r: Reading): (q: Reading)
    requires Ok(r)
    ensures Ok(q)
  {
    if r.Failed? || r.rest == [] || !r.rest[0].InfoTok? then Failed else
      var entry := FromDisk(r.rest[0].info);
      var slot := TriedSlot(r.s.env, r.s.key, entry.service);
      if slot in r.s.triedTable then Reading(r.s.(nTried := r.s.nTried - 1), r.rest[1..]) else
        var t := Append(r.s, entry.(fInTried := true));
        Reading(t.(triedTable := t.triedTable[slot := |r.s.random|]), r.rest[1..])
  }

  function ReadTried(r: Reading, n: nat): (q: Reading)
    requires Ok(r)
    ensures Ok(q)
  {
    if n == 0 then r else ReadTriedRound(ReadTried(r, n - 1))
  }

  // One cell of a bucket.
  function ReadCell(r: Reading, bucket: nat, usable: bool): (q: Reading)
    requires Ok(r)
    ensures Ok(q)
  {
    if r.Failed? || r.rest == [] || !r.rest[0].IntTok? then Failed else
      var id := r.rest[0].i;
      if !(0 <= id < r.s.nNew && id in r.s.info) then Reading(r.s, r.rest[1..]) else
        var slot := Slot(bucket, NewPosition(r.s.env, r.s.key, r.s.info[id].service, bucket));
        if usable && slot !in r.s.newTable && r.s.info[id].nRefCount < NEW_BUCKETS_PER_ADDRESS then
          Reading(PutNew(r.s, slot, id, r.s.info[id].nRefCount + 1), r.rest[1..])
        else
          Reading(r.s, r.rest[1..])
  }

  function ReadCells(r: Reading, bucket: nat, n: nat, usable: bool): (q: Reading)
    requires Ok(r)
    ensures Ok(q)
  {
    if n == 0 then r else ReadCell(ReadCells(r, bucket, n - 1, usable), bucket, usable)
  }

  function ReadBucket(r: Reading, bucket: nat, usable: bool): (q: Reading)
    requires Ok(r)
    ensures Ok(q)
  {
    if r.Failed? || r.rest == [] || !r.rest[0].IntTok? then Failed else
      ReadCells(r.(rest := r.rest[1..]), bucket, Max(0, r.rest[0].i), usable)
  }

  function ReadBuckets(r: Reading, n: nat, usable: bool): (q: Reading)
    requires Ok(r)
    ensures Ok(q)
  {
    if n == 0 then r else ReadBucket(ReadBuckets(r, n - 1, usable), n - 1, usable)
  }

  // After a failure nothing more is read.
  lemma FailedStays(bucket: nat, usable: bool)
    ensures ReadNewRound(Failed, usable) == ReadTriedRound(Failed) == ReadBucket(Failed, bucket, usable) == Failed
  {
  }

  // Everything listed stands where it is listed ...
  ghost predicate Listed(info: map<int, AddrInfo>, random: seq<int>) {
    forall i | 0 <= i < |random| :: random[i] in info && info[random[i]].nRandomPos == i
  }

  // ... and what is not listed is held.
  ghost predicate Prunable(s: State) {
    && Listed(s.info, s.random)
    && (forall id | id in s.info && id !in s.random :: Held(s.info[id]))
  }

  lemma NumberedIsPrunable(s: State)
    requires Numbered(s)
    ensures Prunable(s)
  {
    forall id | 0 <= id < |s.random| ensures id in s.random {
      assert s.random[id] == id;
    }
  }

  lemma ListedThere(info: map<int, AddrInfo>, random: seq<int>, id: int)
    requires Listed(info, random) && id in random
    ensures id in info && Placed(info, random, id)
  {
  }

  lemma RemovedListed(s: State, id: int)
    requires Listed(s.info, s.random) && id in s.info && Placed(s.info, s.random, id)
    ensures Listed(Remove(s, id).info, Remove(s, id).random)
  {
  }

  lemma RemovedRandom(s: State, id: int, k: int)
    requires id in s.info && Placed(s.info, s.random, id) && k in s.random && k != id
    ensures k in Remove(s, id).random
  {
    var j :| 0 <= j < |s.random| && s.random[j] == k;
    var t := Remove(s, id);
    assert t.random[if j == |s.random| - 1 then s.info[id].nRandomPos else j] == k;
  }

  lemma RemoveKeeps(s: State, id: int)
    requires Prunable(s) && id in s.info && !s.info[id].fInTried && s.info[id].nRefCount == 0
    ensures Placed(s.info, s.random, id) && Prunable(Remove(s, id))
  {
    ListedThere(s.info, s.random, id);
    hide Listed, Placed, Remove;
    RemovedListed(s, id);
    RemovedHeld(s, id);
    forall k | k in s.random && k != id ensures k in Remove(s, id).random {
      RemovedRandom(s, id, k);
    }
    RemovedIsGone(s, id);
  }

  lemma RemovedIsGone(s: State, id: int)
    requires id in s.info && Placed(s.info, s.random, id)
    ensures id !in Remove(s, id).info
  {
  }

  lemma RemovedHeld(s: State, id: int)
    requires id in s.info && Placed(s.info, s.random, id)
    ensures forall k | k in Remove(s, id).info :: k in s.info && Held(Remove(s, id).info[k]) == Held(s.info[k])
  {
  }

  lemma StillPrunable(s: State, n: int)
    ensures Prunable(s) ==> Prunable(s.(nIdCount := n))
  {
  }

  // Entries below n that ended up without a cell are dropped.
  function Prune(s: State, n: nat): (t: State)
    requires Prunable(s)
    ensures Prunable(t)
  {
    if n == 0 then s else
      var t := Prune(s, n - 1);
      if n - 1 in t.info && !t.info[n - 1].fInTried && t.info[n - 1].nRefCount == 0 then
        RemoveKeeps(t, n - 1);
        Remove(t, n - 1)
      else t
  }

  // What the reader takes from the header, after its checks.
  datatype Head = BadHead | Head(key: Key, nNew: nat, nTried: int, nUBuckets: int, usable: bool)

  function ReadHead(stream: seq<Token>): Head {
    if |stream| < 6 || !stream[0].ByteTok? || stream[1] != ByteTok(32) || !stream[2].KeyTok?
       || !stream[3].IntTok? || !stream[4].IntTok? || !stream[5].IntTok? then
      BadHead
    else
      var nVersion, nNew, nTried := stream[0].byte, stream[3].i, stream[4].i;
      if nNew > NEW_BUCKET_COUNT * BUCKET_SIZE || nTried > TRIED_BUCKET_COUNT * BUCKET_SIZE
         || nNew < 0 then
        BadHead
      else
        var nUBuckets := if nVersion != 0 then FlipBit30(stream[5].i) else stream[5].i;
        Head(stream[2].key, nNew, nTried, nUBuckets, nVersion == 1 && nUBuckets == NEW_BUCKET_COUNT)
  }

  // No entry of a manager is unreferenced.
  ghost predicate AllHeld(info: map<int, AddrInfo>) {
    forall id | id in info :: Held(info[id])
  }

  lemma ClearedIsOk(s: State, key: Key, nNew: int, nTried: int, body: seq<Token>)
    requires AllHeld(s.info)
    ensures Ok(Reading(Cleared(s, key).(nNew := nNew, nTried := nTried), body))
  {
  }

  // The three loops over the rest of the stream, into a manager that Clear() has gone through.
  function ReadBody(s: State, head: Head, body: seq<Token>): (q: Reading)
    requires head.Head? && AllHeld(s.info)
    ensures Ok(q)
  {
    var r := Reading(Cleared(s, head.key).(nNew := head.nNew, nTried := head.nTried), body);
    ReadBuckets(ReadTried(ReadNew(r, head.nNew, head.usable), Rounds(head.nTried)), Rounds(head.nUBuckets), head.usable)
  }

  // A loop up to a negative count does nothing.
  function Rounds(count: int): nat {
    Max(0, count)
  }

  // Unserialize: what a manager becomes.
  function UnserializeInto(s: State, stream: seq<Token>): Reading
    requires AllHeld(s.info)
  {
    var head := ReadHead(stream);
    if head.BadHead? then Failed else
      var q := ReadBody(s, head, stream[6..]);
      if q.Failed? then Failed else
        NumberedIsPrunable(q.s);
        Reading(Prune(q.s.(nIdCount := |q.s.random|), |q.s.random|), q.rest)
  }

  // Reading into a new object.
  function Unserialize(env: Env, stream: seq<Token>): Reading {
    UnserializeInto(Init(env, 0), stream)
  }

  lemma InvIsHeld(s: State)
    requires Inv(s)
    ensures AllHeld(s.info)
  {
    forall id | id in s.info ensures Held(s.info[id]) {
      assert id !in Orphans(s.info);
      assert s.info[id].nRefCount == |SlotsOf(s.newTable, id)|;
    }
  }
}
