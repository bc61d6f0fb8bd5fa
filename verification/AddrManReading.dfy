/** Reading any stream into a new address manager, whoever has written it: what is read is
    consistent as long as no address occurs twice, and nothing is lost but to a taken cell. */
module AddrReading {
  import opened AddrTypes
  import opened AddrState
  import opened AddrSteps
  import opened AddrOps
  import opened AddrBook
  import opened AddrStream

  // While reading, ids are handed out in the order of vRandom.
  ghost function Numbering(s: State): State {
    s.(nIdCount := |s.random|)
  }

  ghost predicate Building(s: State) {
    Core(Numbering(s))
  }

  // The addresses among the first k tokens.
  ghost function Ips(body: seq<Token>, k: nat): set<NetAddr> {
    set i | 0 <= i < k && i < |body| && body[i].InfoTok? :: body[i].info.service.ip
  }

  ghost predicate AddressesApart(body: seq<Token>, n: nat) {
    forall i, j | 0 <= i < j < n && j < |body| && body[i].InfoTok? && body[j].InfoTok? ::
      body[i].info.service.ip != body[j].info.service.ip
  }

  lemma NextAddress(body: seq<Token>, n: nat, k: nat)
    requires AddressesApart(body, n) && k < n && k < |body| && body[k].InfoTok?
    ensures body[k].info.service.ip !in Ips(body, k)
    ensures Ips(body, k + 1) == Ips(body, k) + {body[k].info.service.ip}
  {
    forall ip | ip in Ips(body, k + 1) ensures ip in Ips(body, k) + {body[k].info.service.ip} {
      var i :| 0 <= i < k + 1 && i < |body| && body[i].InfoTok? && body[i].info.service.ip == ip;
    }
  }

  // ---------------------------------------------------------------- one entry

  lemma AppendKeeps(s: State, d: DiskInfo)
    requires Building(s) && d.service.ip !in s.addr
    ensures |s.random| !in s.info
    ensures Building(Append(s, FromDisk(d)))
    ensures Orphans(Append(s, FromDisk(d)).info) == Orphans(s.info) + {|s.random|}
    ensures TriedIds(Append(s, FromDisk(d)).info) == TriedIds(s.info)
    ensures NewIds(Append(s, FromDisk(d)).info) == NewIds(s.info) + {|s.random|}
  {
    hide Core, Orphans, TriedIds, NewIds;
    var addr := Address(d.service, d.services, d.nTime);
    CreateStep(Numbering(s), addr, d.source);
    var c := Create(Numbering(s), addr, d.source);
    var entry := FromDisk(d).(nRandomPos := |s.random|);
    TouchStep(c, |s.random|, entry);
    assert c.info[|s.random| := entry] == Append(s, FromDisk(d)).info;
    assert Numbering(Append(s, FromDisk(d))) == c.(info := c.info[|s.random| := entry]);
  }

  ghost predicate Entered(body: seq<Token>, k: nat, s: State) {
    Building(s) && s.addr.Keys <= Ips(body, k)
  }

  lemma NewEntryKeeps(body: seq<Token>, n: nat, k: nat, s: State, usable: bool)
    requires Entered(body, k, s) && AddressesApart(body, n) && k < n && k < |body| && body[k].InfoTok? && Numbered(s)
    ensures var q := ReadNewRound(Reading(s, body[k..]), usable);
      && q.Reading? && q.rest == body[k + 1..]
      && Entered(body, k + 1, q.s)
      && NewIds(q.s.info) == NewIds(s.info) + {|s.random|} && |s.random| !in s.info
      && TriedIds(q.s.info) == TriedIds(s.info)
  {
    hide Core, Orphans, TriedIds, NewIds, Ips, Numbered, FromDisk, NewSlot;
    NextAddress(body, n, k);
    var d := body[k].info;
    AppendKeeps(s, d);
    FromDiskIs(d);
    var t := Append(s, FromDisk(d));
    var slot := NewSlot(t.env, t.key, d.service, d.source);
    NewSlotIs(t.env, t.key, d.service, d.source);
    if !usable && slot !in t.newTable {
      PutNewStep(Numbering(t), slot, |s.random|);
    }
  }

  lemma FromDiskIs(d: DiskInfo)
    ensures FromDisk(d).service == d.service && FromDisk(d).source == d.source
    ensures FromDisk(d).nRefCount == 0 && !FromDisk(d).fInTried
  {
  }

  lemma NewSlotIs(env: Env, key: Key, service: Service, source: NetAddr)
    ensures var slot := NewSlot(env, key, service, source);
      slot.bucket < NEW_BUCKET_COUNT && slot.pos == NewPosition(env, key, service, slot.bucket)
  {
  }

  lemma TriedEntryKeeps(body: seq<Token>, n: nat, k: nat, s: State)
    requires Entered(body, k, s) && AddressesApart(body, n) && k < n && k < |body| && body[k].InfoTok? && Numbered(s)
    ensures var q := ReadTriedRound(Reading(s, body[k..]));
      && q.Reading? && q.rest == body[k + 1..]
      && Entered(body, k + 1, q.s)
      && NewIds(q.s.info) == NewIds(s.info)
      && |s.random| !in s.info
      && if TriedSlot(s.env, s.key, body[k].info.service) in s.triedTable then q.s == s.(nTried := s.nTried - 1)
         else TriedIds(q.s.info) == TriedIds(s.info) + {|s.random|} && q.s.nTried == s.nTried
  {
    hide Core, Orphans, TriedIds, NewIds, Ips, Numbered, FromDisk, TriedSlot;
    NextAddress(body, n, k);
    var d := body[k].info;
    var id := |s.random|;
    AppendKeeps(s, d);
    FromDiskIs(d);
    var slot := TriedSlot(s.env, s.key, d.service);
    if slot !in s.triedTable {
      var t := Append(s, FromDisk(d));
      NoNewId(s);
      PromoteStep(Numbering(t), id);
      var q := ReadTriedRound(Reading(s, body[k..])).s;
      assert q.info == WithTried(t.info, id, true);
      assert Numbering(q) == Promote(Numbering(t), id).(nTried := s.nTried);
      CoreIgnoresNTried(Promote(Numbering(t), id), s.nTried);
    } else {
      CoreIgnoresNTried(Numbering(s), s.nTried - 1);
    }
  }

  lemma NoNewId(s: State)
    ensures |s.random| !in s.info ==> |s.random| !in NewIds(s.info)
  {
  }

  lemma CoreIgnoresNTried(s: State, n: int)
    requires Core(s)
    ensures Core(s.(nTried := n))
  {
  }

  // ---------------------------------------------------------------- the lists of entries

  // The parts of the state that the entry loops leave alone.
  ghost predicate SameHead(s: State, t: State) {
    t.env == s.env && t.key == s.key && t.nNew == s.nNew
  }

  // A reader that has gone through k tokens.
  ghost predicate At(body: seq<Token>, k: nat, r: Reading) {
    r.Reading? ==> k <= |body| && r.rest == body[k..] && Entered(body, k, r.s)
  }

  lemma NewRoundHead(r: Reading, usable: bool)
    requires Ok(r)
    ensures var q := ReadNewRound(r, usable);
      q.Reading? ==>
        && r.Reading? && r.rest != [] && r.rest[0].InfoTok?
        && SameHead(r.s, q.s) && q.s.nTried == r.s.nTried && |q.s.random| == |r.s.random| + 1
  {
  }

  lemma NewRoundKeeps(body: seq<Token>, n: nat, k: nat, r: Reading, usable: bool)
    requires Ok(r) && At(body, k, r) && AddressesApart(body, n) && k < n
    ensures At(body, k + 1, ReadNewRound(r, usable))
    ensures var q := ReadNewRound(r, usable);
      q.Reading? ==>
        && r.Reading? && SameHead(r.s, q.s) && q.s.nTried == r.s.nTried && |q.s.random| == |r.s.random| + 1
        && |NewIds(q.s.info)| == |NewIds(r.s.info)| + 1 && TriedIds(q.s.info) == TriedIds(r.s.info)
  {
    hide Building, AddressesApart, Ips, NewIds, TriedIds, Numbered, ReadNewRound;
    NewRoundHead(r, usable);
    if ReadNewRound(r, usable).Reading? {
      NewEntryKeeps(body, n, k, r.s, usable);
      NoNewId(r.s);
      OneMore(NewIds(r.s.info), |r.s.random|);
    }
  }

  lemma OneMore(ids: set<int>, id: int)
    requires id !in ids
    ensures |ids + {id}| == |ids| + 1
  {
  }

  lemma {:induction false} NewEntriesKeep(body: seq<Token>, n: nat, start: State, k: nat, usable: bool)
    requires AddressesApart(body, n) && k <= n && Entered(body, 0, start) && Numbered(start)
    ensures var q := ReadNew(Reading(start, body), k, usable);
      At(body, k, q) && (q.Reading? ==>
        && SameHead(start, q.s) && q.s.nTried == start.nTried && |q.s.random| == |start.random| + k
        && |NewIds(q.s.info)| == |NewIds(start.info)| + k && TriedIds(q.s.info) == TriedIds(start.info))
  {
    hide Building, Entered, AddressesApart, Ips, NewIds, TriedIds, Numbered, ReadNewRound;
    if k > 0 {
      NewEntriesKeep(body, n, start, k - 1, usable);
      NewRoundKeeps(body, n, k - 1, ReadNew(Reading(start, body), k - 1, usable), usable);
    }
  }

  lemma NoTriedId(s: State)
    requires |s.random| !in s.info
    ensures |s.random| !in TriedIds(s.info)
  {
  }

  lemma TriedRoundHead(r: Reading)
    requires Ok(r)
    ensures var q := ReadTriedRound(r);
      q.Reading? ==> r.Reading? && r.rest != [] && r.rest[0].InfoTok? && SameHead(r.s, q.s) && |q.s.random| >= |r.s.random|
  {
  }

  // Every tried entry is either one from before or has a later number.
  ghost predicate TriedLater(s: State, t: State) {
    |t.random| >= |s.random| && forall id | id in TriedIds(t.info) :: id in TriedIds(s.info) || id >= |s.random|
  }

  lemma TriedRoundKeeps(body: seq<Token>, n: nat, k: nat, r: Reading)
    requires Ok(r) && At(body, k, r) && AddressesApart(body, n) && k < n
    ensures At(body, k + 1, ReadTriedRound(r))
    ensures var q := ReadTriedRound(r);
      q.Reading? ==>
        && r.Reading? && SameHead(r.s, q.s) && NewIds(q.s.info) == NewIds(r.s.info) && TriedLater(r.s, q.s)
        && |TriedIds(q.s.info)| - q.s.nTried == |TriedIds(r.s.info)| - r.s.nTried + 1
  {
    hide Building, AddressesApart, Ips, NewIds, TriedIds, Numbered, ReadTriedRound, TriedSlot;
    TriedRoundHead(r);
    if ReadTriedRound(r).Reading? {
      TriedEntryKeeps(body, n, k, r.s);
      NoTriedId(r.s);
      OneMore(TriedIds(r.s.info), |r.s.random|);
    }
  }

  lemma {:induction false} TriedEntriesKeep(body: seq<Token>, n: nat, first: nat, r: Reading, m: nat)
    requires Ok(r) && At(body, first, r) && AddressesApart(body, n) && first + m <= n
    ensures var q := ReadTried(r, m);
      At(body, first + m, q) && (q.Reading? ==>
        && r.Reading? && SameHead(r.s, q.s) && NewIds(q.s.info) == NewIds(r.s.info) && TriedLater(r.s, q.s)
        && |TriedIds(q.s.info)| - q.s.nTried == |TriedIds(r.s.info)| - r.s.nTried + m)
  {
    hide Entered, AddressesApart, NewIds, TriedIds, Numbered, ReadTriedRound;
    if m > 0 {
      TriedEntriesKeep(body, n, first, r, m - 1);
      TriedRoundKeeps(body, n, first + m - 1, ReadTried(r, m - 1));
    }
  }

  // ---------------------------------------------------------------- the buckets

  // What the bucket loops do: no entry comes or goes.
  ghost predicate OnlyCells(s: State, t: State) {
    && Building(t) && SameHead(s, t) && t.nTried == s.nTried && t.addr == s.addr && t.random == s.random
    && NewIds(t.info) == NewIds(s.info) && TriedIds(t.info) == TriedIds(s.info)
  }

  // The first nNew ids are those of untried entries.
  ghost predicate NewFirst(s: State) {
    forall id | id in TriedIds(s.info) :: id >= s.nNew
  }

  lemma CellKeeps(r: Reading, bucket: nat, usable: bool)
    requires Ok(r) && bucket < NEW_BUCKET_COUNT && (r.Reading? ==> Building(r.s) && NewFirst(r.s))
    ensures var q := ReadCell(r, bucket, usable); q.Reading? ==> r.Reading? && OnlyCells(r.s, q.s)
  {
    var q := ReadCell(r, bucket, usable);
    if q.Reading? && q.s != r.s {
      var id := r.rest[0].i;
      var slot := Slot(bucket, NewPosition(r.s.env, r.s.key, r.s.info[id].service, bucket));
      assert id !in TriedIds(r.s.info);
      hide Core, Numbered;
      PutNewStep(Numbering(r.s), slot, id);
    }
  }

  lemma {:induction false} CellsKeep(r: Reading, bucket: nat, n: nat, usable: bool)
    requires Ok(r) && bucket < NEW_BUCKET_COUNT && (r.Reading? ==> Building(r.s) && NewFirst(r.s))
    ensures var q := ReadCells(r, bucket, n, usable); q.Reading? ==> r.Reading? && OnlyCells(r.s, q.s)
  {
    hide Building, NewIds, TriedIds, Numbered, ReadCell;
    if n > 0 {
      CellsKeep(r, bucket, n - 1, usable);
      CellKeeps(ReadCells(r, bucket, n - 1, usable), bucket, usable);
    }
  }

  // Cells that cannot be used are passed over.
  lemma UnusableCell(r: Reading, bucket: nat)
    requires Ok(r)
    ensures var q := ReadCell(r, bucket, false); q.Reading? ==> r.Reading? && q.s == r.s
  {
  }

  lemma {:induction false} UnusableCells(r: Reading, bucket: nat, n: nat)
    requires Ok(r)
    ensures var q := ReadCells(r, bucket, n, false); q.Reading? ==> r.Reading? && q.s == r.s
  {
    hide Numbered, ReadCell;
    if n > 0 {
      UnusableCells(r, bucket, n - 1);
      UnusableCell(ReadCells(r, bucket, n - 1, false), bucket);
    }
  }

  lemma BucketKeeps(r: Reading, bucket: nat, usable: bool)
    requires Ok(r) && (usable ==> bucket < NEW_BUCKET_COUNT) && (r.Reading? ==> Building(r.s) && NewFirst(r.s))
    ensures var q := ReadBucket(r, bucket, usable); q.Reading? ==> r.Reading? && OnlyCells(r.s, q.s)
  {
    hide Building, NewIds, TriedIds, Numbered, ReadCells;
    if r.Reading? && r.rest != [] && r.rest[0].IntTok? {
      if usable {
        CellsKeep(r.(rest := r.rest[1..]), bucket, Max(0, r.rest[0].i), true);
      } else {
        UnusableCells(r.(rest := r.rest[1..]), bucket, Max(0, r.rest[0].i));
      }
    }
  }

  lemma {:induction false} BucketsKeep(r: Reading, n: nat, usable: bool)
    requires Ok(r) && (usable ==> n <= NEW_BUCKET_COUNT) && (r.Reading? ==> Building(r.s) && NewFirst(r.s))
    ensures var q := ReadBuckets(r, n, usable); q.Reading? ==> r.Reading? && OnlyCells(r.s, q.s)
  {
    hide Building, NewIds, TriedIds, Numbered, ReadBucket;
    if n > 0 {
      BucketsKeep(r, n - 1, usable);
      BucketKeeps(ReadBuckets(r, n - 1, usable), n - 1, usable);
    }
  }

  // ---------------------------------------------------------------- pruning

  // Consistent but for entries without a cell, whose ids are not below n, and a gap in nTried.
  ghost predicate Pruned(s: State, n: nat, gap: int) {
    && Core(s) && |TriedIds(s.info)| == s.nTried + gap && s.nNew == |NewIds(s.info)|
    && forall id | id in Orphans(s.info) :: id >= n
  }

  lemma PruneOnce(s: State, n: nat, gap: int)
    requires Pruned(s, n, gap) && n in s.info && !s.info[n].fInTried && s.info[n].nRefCount == 0
    ensures Placed(s.info, s.random, n) && Pruned(Remove(s, n), n + 1, gap) && Remove(s, n).nIdCount == s.nIdCount
  {
    assert RandomOk(s.info, s.random);
    hide Core, RandomOk;
    ListedIsPlaced(s.info, s.random, n);
    DeleteStep(s, n);
    assert Delete(s, n) == Remove(s, n);
    assert n in NewIds(s.info);
    hide Remove, Delete, NewIds, TriedIds, Orphans, SameEntries;
  }

  lemma {:induction false} PruneKeeps(s: State, n: nat, gap: int)
    requires Prunable(s) && Pruned(s, 0, gap)
    ensures Pruned(Prune(s, n), n, gap)
    ensures Prune(s, n).nIdCount == s.nIdCount
  {
    hide Core, Prunable, NewIds, TriedIds, Placed;
    if n > 0 {
      PruneKeeps(s, n - 1, gap);
      var t := Prune(s, n - 1);
      if n - 1 in t.info && !t.info[n - 1].fInTried && t.info[n - 1].nRefCount == 0 {
        PruneOnce(t, n - 1, gap);
      }
    }
  }

  // ---------------------------------------------------------------- the whole stream

  lemma StartIsEmpty(env: Env, head: Head, body: seq<Token>)
    requires head.Head?
    ensures var start := Cleared(Init(env, 0), head.key).(nNew := head.nNew, nTried := head.nTried);
      && AllHeld(Init(env, 0).info) && Numbered(start) && Entered(body, 0, start)
      && start.random == [] && NewIds(start.info) == {} && TriedIds(start.info) == {}
  {
    var start := Cleared(Init(env, 0), head.key).(nNew := head.nNew, nTried := head.nTried);
    assert Orphans(start.info) == {};
  }

  lemma BodyIsConsistent(env: Env, head: Head, body: seq<Token>)
    requires head.Head? && (head.usable ==> head.nUBuckets <= NEW_BUCKET_COUNT)
    requires AddressesApart(body, head.nNew + Rounds(head.nTried))
    ensures AllHeld(Init(env, 0).info)
    ensures var q := ReadBody(Init(env, 0), head, body);
      q.Reading? ==> Pruned(Numbering(q.s), 0, Rounds(head.nTried) - head.nTried)
  {
    hide Entered, AddressesApart, NewIds, TriedIds, Numbered, ReadNew, ReadTried, ReadBuckets, Core, AllHeld, Cleared;
    StartIsEmpty(env, head, body);
    var start := Cleared(Init(env, 0), head.key).(nNew := head.nNew, nTried := head.nTried);
    var n, m := head.nNew, Rounds(head.nTried);
    NewEntriesKeep(body, n + m, start, n, head.usable);
    var news := ReadNew(Reading(start, body), n, head.usable);
    TriedEntriesKeep(body, n + m, n, news, m);
    var all := ReadTried(news, m);
    if all.Reading? {
      EnteredIsBuilding(body, n + m, all.s);
    }
    BucketsKeep(all, Rounds(head.nUBuckets), head.usable);
    var q := ReadBuckets(all, Rounds(head.nUBuckets), head.usable);
    if q.Reading? {
      OrphansHaveIds(Numbering(q.s));
    }
  }

  lemma EnteredIsBuilding(body: seq<Token>, k: nat, s: State)
    requires Entered(body, k, s)
    ensures Building(s)
  {
  }

  lemma OrphansHaveIds(s: State)
    requires Core(s)
    ensures forall id | id in Orphans(s.info) :: 0 <= id < s.nIdCount
  {
  }

  lemma HeadFacts(stream: seq<Token>)
    requires ReadHead(stream).Head?
    ensures |stream| >= 6 && (ReadHead(stream).usable ==> ReadHead(stream).nUBuckets == NEW_BUCKET_COUNT)
  {
  }

  lemma AllPruned(s: State, gap: int)
    requires s.nIdCount >= 0 && Pruned(s, s.nIdCount, gap)
    ensures Inv(s) <==> gap == 0
  {
    OrphansHaveIds(s);
    hide Core, NewIds, TriedIds, Orphans;
    assert forall id :: id !in Orphans(s.info);
  }

  // Whatever stream is read into a new manager: if no address occurs twice among its entries,
  // the manager is consistent, whatever the cells and the hashes say, unless the count of tried
  // entries was negative.
  lemma ReadingIsConsistent(env: Env, stream: seq<Token>)
    requires ReadHead(stream).Head? ==> AddressesApart(stream[6..], ReadHead(stream).nNew + Rounds(ReadHead(stream).nTried))
    ensures AllHeld(Init(env, 0).info)
    ensures Unserialize(env, stream).Reading? ==> (Inv(Unserialize(env, stream).s) <==> ReadHead(stream).nTried >= 0)
  {
    hide ReadHead, ReadBody, AddressesApart, NewIds, TriedIds, Numbered, Core, Prune, Prunable;
    var head := ReadHead(stream);
    if head.Head? {
      HeadFacts(stream);
      BodyIsConsistent(env, head, stream[6..]);
      var q := ReadBody(Init(env, 0), head, stream[6..]);
      if q.Reading? {
        NumberedIsPrunable(q.s);
        StillPrunable(q.s, |q.s.random|);
        PruneKeeps(Numbering(q.s), |q.s.random|, Rounds(head.nTried) - head.nTried);
        AllPruned(Prune(Numbering(q.s), |q.s.random|), Rounds(head.nTried) - head.nTried);
      }
    }
  }
}
