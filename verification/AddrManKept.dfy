/** Which entries of a stream are kept by the manager that reads it, and with what: every tried
    one that finds its cell free, and every new one that gets a cell. */
module AddrKept {
  import opened AddrTypes
  import opened AddrState
  import opened AddrSteps
  import opened AddrOps
  import opened AddrBook
  import opened AddrStream
  import opened AddrReading

  // The fields the stream has of an entry; the time of the last try is forgotten.
  ghost predicate IsEntry(info: AddrInfo, d: DiskInfo) {
    && info.service == d.service && info.services == d.services && info.nTime == d.nTime && info.source == d.source
    && info.nLastSuccess == d.nLastSuccess && info.nAttempts == d.nAttempts && info.nLastTry == 0
  }

  // The home cells of an entry in the stream.
  ghost function NewHome(s: State, body: seq<Token>, i: nat): Slot
    requires i < |body| && body[i].InfoTok?
  {
    NewSlot(s.env, s.key, body[i].info.service, body[i].info.source)
  }

  ghost function TriedHome(s: State, body: seq<Token>, i: nat): Slot
    requires i < |body| && body[i].InfoTok?
  {
    TriedSlot(s.env, s.key, body[i].info.service)
  }

  ghost predicate Entries(body: seq<Token>, n: nat) {
    n <= |body| && forall i | 0 <= i < n :: body[i].InfoTok?
  }

  // The first k tokens are the untried entries 0, 1, ...
  ghost predicate NewsIn(body: seq<Token>, k: nat, s: State) {
    && Entries(body, k)
    && (forall i | 0 <= i < k :: i in s.info && IsEntry(s.info[i], body[i].info) && !s.info[i].fInTried)
    && (forall id | id in s.info && !s.info[id].fInTried :: 0 <= id < k)
  }

  // Each cell is held by the first entry at home there, and no home is left free.
  ghost predicate HomesIn(body: seq<Token>, k: nat, s: State)
    requires Entries(body, k)
  {
    && (forall c | c in s.newTable ::
          0 <= s.newTable[c] < k && NewHome(s, body, s.newTable[c]) == c
          && forall j | 0 <= j < s.newTable[c] :: NewHome(s, body, j) != c)
    && (forall i | 0 <= i < k :: NewHome(s, body, i) in s.newTable)
  }

  lemma NewRoundEnters(body: seq<Token>, k: nat, s: State, usable: bool)
    requires NewsIn(body, k, s) && |s.random| == k && k < |body| && body[k].InfoTok? && Numbered(s) && k !in s.info
    ensures var q := ReadNewRound(Reading(s, body[k..]), usable);
      q.Reading? && NewsIn(body, k + 1, q.s)
  {
    hide Numbered, NewSlot;
  }

  lemma NewRoundCell(body: seq<Token>, k: nat, s: State)
    requires |s.random| == k && k < |body| && body[k].InfoTok? && Numbered(s) && k !in s.info
    ensures var q := ReadNewRound(Reading(s, body[k..]), false);
      var home := NewHome(s, body, k);
      q.Reading? && q.s.env == s.env && q.s.key == s.key
      && q.s.newTable == if home in s.newTable then s.newTable else s.newTable[home := k]
  {
    hide Numbered, NewSlot;
  }

  lemma HomesNext(body: seq<Token>, k: nat, s: State, t: State)
    requires Entries(body, k + 1) && HomesIn(body, k, s) && t.env == s.env && t.key == s.key
    requires var home := NewHome(s, body, k);
      t.newTable == if home in s.newTable then s.newTable else s.newTable[home := k]
    ensures HomesIn(body, k + 1, t)
  {
    hide NewSlot;
    forall i | 0 <= i < k + 1 ensures NewHome(t, body, i) == NewHome(s, body, i) {}
    hide NewHome;
  }

  lemma {:induction false} NewsAreRead(body: seq<Token>, n: nat, start: State, k: nat, usable: bool)
    requires AddressesApart(body, n) && k <= n && Entered(body, 0, start) && Numbered(start) && start.random == []
    requires start.newTable == map[] && start.triedTable == map[] && start.info == map[]
    ensures var q := ReadNew(Reading(start, body), k, usable);
      q.Reading? ==>
        && NewsIn(body, k, q.s) && q.s.triedTable == map[]
        && (!usable ==> HomesIn(body, k, q.s))
  {
    hide Building, Entered, AddressesApart, Ips, Numbered, ReadNewRound, HomesIn, NewsIn;
    if k == 0 {
      NothingRead(body, start);
    } else {
      NewsAreRead(body, n, start, k - 1, usable);
      var r := ReadNew(Reading(start, body), k - 1, usable);
      NewEntriesKeep(body, n, start, k - 1, usable);
      NewRoundReads(body, k - 1, r, usable);
    }
  }

  lemma NothingRead(body: seq<Token>, s: State)
    requires s.newTable == map[] && s.info == map[]
    ensures NewsIn(body, 0, s) && HomesIn(body, 0, s)
  {
  }

  lemma NewRoundReads(body: seq<Token>, k: nat, r: Reading, usable: bool)
    requires Ok(r) && At(body, k, r) && (r.Reading? ==> |r.s.random| == k && NewsIn(body, k, r.s))
    ensures var q := ReadNewRound(r, usable);
      q.Reading? ==>
        && r.Reading? && NewsIn(body, k + 1, q.s) && q.s.triedTable == r.s.triedTable
        && (!usable && HomesIn(body, k, r.s) ==> HomesIn(body, k + 1, q.s))
  {
    hide Building, Ips, Numbered, ReadNewRound, HomesIn, NewsIn, NewHome;
    NewRoundHead(r, usable);
    NewRoundTried(r, usable);
    if ReadNewRound(r, usable).Reading? {
      NextIsFree(r.s);
      assert r.rest[0] == body[k];
      NewRoundEnters(body, k, r.s, usable);
      EntriesOf(body, k + 1, ReadNewRound(r, usable).s);
      if !usable && HomesIn(body, k, r.s) {
        NewRoundCell(body, k, r.s);
        HomesNext(body, k, r.s, ReadNewRound(r, usable).s);
      }
    }
  }

  lemma EntriesOf(body: seq<Token>, k: nat, s: State)
    requires NewsIn(body, k, s)
    ensures Entries(body, k)
  {
  }

  lemma NextIsFree(s: State)
    requires Building(s)
    ensures |s.random| !in s.info
  {
  }

  lemma NewRoundTried(r: Reading, usable: bool)
    requires Ok(r)
    ensures var q := ReadNewRound(r, usable); r.Reading? && q.Reading? ==> q.s.triedTable == r.s.triedTable
  {
  }

  // ---------------------------------------------------------------- the tried entries

  // Token i is the first tried one at home in its cell, and the entry there is made of it.
  ghost predicate Occupies(body: seq<Token>, n: nat, i: int, s: State, cell: Slot)
    requires n <= i && Entries(body, i + 1) && cell in s.triedTable
  {
    && TriedHome(s, body, i) == cell && (forall j | n <= j < i :: TriedHome(s, body, j) != cell)
    && s.triedTable[cell] in s.info && s.info[s.triedTable[cell]].fInTried && IsEntry(s.info[s.triedTable[cell]], body[i].info)
  }

  ghost predicate TriedIn(body: seq<Token>, n: nat, k: nat, s: State) {
    && n <= k && Entries(body, k)
    && (forall i | n <= i < k :: TriedHome(s, body, i) in s.triedTable)
    && (forall c | c in s.triedTable :: exists i :: n <= i < k && Occupies(body, n, i, s, c))
  }

  // What a round of the tried loop does.
  ghost predicate TriedRound(s: State, q: State, d: DiskInfo) {
    && q.env == s.env && q.key == s.key && q.newTable == s.newTable
    && (forall id | id in s.info :: id in q.info && q.info[id] == s.info[id])
    && (forall id | id in q.info && id !in s.info :: q.info[id].fInTried)
    && var cell := TriedSlot(s.env, s.key, d.service);
      if cell in s.triedTable then q.triedTable == s.triedTable
      else
        && q.triedTable == s.triedTable[cell := |s.random|]
        && |s.random| in q.info && q.info[|s.random|].fInTried && IsEntry(q.info[|s.random|], d)
  }

  lemma TriedRoundIs(r: Reading)
    requires Ok(r)
    ensures var q := ReadTriedRound(r);
      q.Reading? ==>
        && r.Reading? && r.rest != [] && r.rest[0].InfoTok?
        && (|r.s.random| !in r.s.info ==> TriedRound(r.s, q.s, r.rest[0].info))
  {
    hide TriedSlot, Numbered;
  }

  lemma OccupiesStays(body: seq<Token>, n: nat, i: int, s: State, q: State, cell: Slot)
    requires n <= i && Entries(body, i + 1) && cell in s.triedTable && Occupies(body, n, i, s, cell)
    requires q.env == s.env && q.key == s.key && cell in q.triedTable && q.triedTable[cell] == s.triedTable[cell]
    requires forall id | id in s.info :: id in q.info && q.info[id] == s.info[id]
    ensures Occupies(body, n, i, q, cell)
  {
    hide TriedSlot;
    forall j | n <= j < i ensures TriedHome(q, body, j) == TriedHome(s, body, j) {}
  }

  lemma TriedNext(body: seq<Token>, n: nat, k: nat, s: State, q: State)
    requires TriedIn(body, n, k, s) && k < |body| && body[k].InfoTok? && TriedRound(s, q, body[k].info)
    ensures TriedIn(body, n, k + 1, q)
  {
    hide TriedSlot, IsEntry;
    var home := TriedHome(s, body, k);
    forall i | n <= i < k + 1 ensures TriedHome(q, body, i) == TriedHome(s, body, i) {}
    forall c | c in q.triedTable ensures exists i :: n <= i < k + 1 && Occupies(body, n, i, q, c) {
      if c in s.triedTable {
        var i :| n <= i < k && Occupies(body, n, i, s, c);
        OccupiesStays(body, n, i, s, q, c);
      } else {
        assert Occupies(body, n, k, q, c);
      }
    }
  }

  lemma NewsStay(body: seq<Token>, k: nat, s: State, q: State)
    requires NewsIn(body, k, s) && forall id | id in s.info :: id in q.info && q.info[id] == s.info[id]
    requires forall id | id in q.info && id !in s.info :: q.info[id].fInTried
    ensures NewsIn(body, k, q)
  {
  }

  lemma HomesStay(body: seq<Token>, k: nat, s: State, q: State)
    requires Entries(body, k) && HomesIn(body, k, s) && q.env == s.env && q.key == s.key && q.newTable == s.newTable
    ensures HomesIn(body, k, q)
  {
    hide NewSlot;
    forall i | 0 <= i < k ensures NewHome(q, body, i) == NewHome(s, body, i) {}
  }

  // What holds after the new entries and k tokens in all.
  ghost predicate Read(body: seq<Token>, n: nat, k: nat, usable: bool, s: State) {
    && NewsIn(body, n, s) && TriedIn(body, n, k, s)
    && (!usable ==> HomesIn(body, n, s))
  }

  lemma TriedRoundReads(body: seq<Token>, n: nat, k: nat, r: Reading, usable: bool)
    requires Ok(r) && At(body, k, r) && (r.Reading? ==> Read(body, n, k, usable, r.s))
    ensures var q := ReadTriedRound(r); q.Reading? ==> r.Reading? && Read(body, n, k + 1, usable, q.s)
  {
    hide Building, Ips, Numbered, ReadTriedRound, HomesIn, NewsIn, TriedIn, TriedRound;
    TriedRoundIs(r);
    var q := ReadTriedRound(r);
    if q.Reading? {
      NextIsFree(r.s);
      assert r.rest[0] == body[k];
      TriedNext(body, n, k, r.s, q.s);
      RoundStays(r.s, q.s, body[k].info);
      NewsStay(body, n, r.s, q.s);
      if !usable {
        HomesStay(body, n, r.s, q.s);
      }
    }
  }

  lemma RoundStays(s: State, q: State, d: DiskInfo)
    requires TriedRound(s, q, d)
    ensures q.env == s.env && q.key == s.key && q.newTable == s.newTable
    ensures forall id | id in s.info :: id in q.info && q.info[id] == s.info[id]
    ensures forall id | id in q.info && id !in s.info :: q.info[id].fInTried
  {
  }

  lemma {:induction false} TriedAreRead(body: seq<Token>, all: nat, n: nat, r: Reading, m: nat, usable: bool)
    requires Ok(r) && At(body, n, r) && AddressesApart(body, all) && n + m <= all && (r.Reading? ==> Read(body, n, n, usable, r.s))
    ensures var q := ReadTried(r, m); q.Reading? ==> Read(body, n, n + m, usable, q.s)
  {
    hide Entered, AddressesApart, Numbered, ReadTriedRound, Read;
    if m > 0 {
      TriedAreRead(body, all, n, r, m - 1, usable);
      TriedEntriesKeep(body, all, n, r, m - 1);
      TriedRoundReads(body, n, n + m - 1, ReadTried(r, m - 1), usable);
    }
  }

  // ---------------------------------------------------------------- cells and pruning

  // The bucket loops change the reference counts only, and nothing at all if the cells cannot be used.
  ghost predicate OnlyRefs(s: State, t: State) {
    && t.env == s.env && t.key == s.key && t.triedTable == s.triedTable && t.info.Keys == s.info.Keys
    && forall id | id in s.info :: id in t.info && t.info[id] == s.info[id].(nRefCount := t.info[id].nRefCount)
  }

  lemma OnlyRefsTrans(s: State, t: State, u: State)
    requires OnlyRefs(s, t) && OnlyRefs(t, u)
    ensures OnlyRefs(s, u)
  {
  }

  lemma CellRefs(r: Reading, bucket: nat, usable: bool)
    requires Ok(r)
    ensures var q := ReadCell(r, bucket, usable); q.Reading? ==> r.Reading? && OnlyRefs(r.s, q.s) && (!usable ==> q.s == r.s)
  {
    hide Numbered, NewPosition;
  }

  lemma {:induction false} CellsRefs(r: Reading, bucket: nat, n: nat, usable: bool)
    requires Ok(r)
    ensures var q := ReadCells(r, bucket, n, usable); q.Reading? ==> r.Reading? && OnlyRefs(r.s, q.s) && (!usable ==> q.s == r.s)
  {
    if n > 0 {
      hide Numbered, ReadCell, OnlyRefs;
      CellsRefs(r, bucket, n - 1, usable);
      var q := ReadCells(r, bucket, n - 1, usable);
      CellRefs(q, bucket, usable);
      if ReadCells(r, bucket, n, usable).Reading? {
        OnlyRefsTrans(r.s, q.s, ReadCells(r, bucket, n, usable).s);
      }
    }
  }

  lemma BucketRefs(r: Reading, bucket: nat, usable: bool)
    requires Ok(r)
    ensures var q := ReadBucket(r, bucket, usable); q.Reading? ==> r.Reading? && OnlyRefs(r.s, q.s) && (!usable ==> q.s == r.s)
  {
    hide Numbered, ReadCells, OnlyRefs;
    if r.Reading? && r.rest != [] && r.rest[0].IntTok? {
      CellsRefs(r.(rest := r.rest[1..]), bucket, Max(0, r.rest[0].i), usable);
    }
  }

  lemma {:induction false} BucketsRefs(r: Reading, n: nat, usable: bool)
    requires Ok(r)
    ensures var q := ReadBuckets(r, n, usable); q.Reading? ==> r.Reading? && OnlyRefs(r.s, q.s) && (!usable ==> q.s == r.s)
  {
    if n > 0 {
      hide Numbered, ReadBucket, OnlyRefs;
      BucketsRefs(r, n - 1, usable);
      var q := ReadBuckets(r, n - 1, usable);
      BucketRefs(q, n - 1, usable);
      if ReadBuckets(r, n, usable).Reading? {
        OnlyRefsTrans(r.s, q.s, ReadBuckets(r, n, usable).s);
      }
    }
  }

  lemma OccupiesRefs(body: seq<Token>, n: nat, i: int, s: State, t: State, cell: Slot)
    requires n <= i && Entries(body, i + 1) && cell in s.triedTable && Occupies(body, n, i, s, cell) && OnlyRefs(s, t)
    ensures Occupies(body, n, i, t, cell)
  {
    hide TriedSlot;
    forall j | n <= j < i ensures TriedHome(t, body, j) == TriedHome(s, body, j) {}
    var id := s.triedTable[cell];
    assert t.info[id] == s.info[id].(nRefCount := t.info[id].nRefCount);
  }

  lemma RefsReads(body: seq<Token>, n: nat, k: nat, usable: bool, s: State, t: State)
    requires Read(body, n, k, usable, s) && OnlyRefs(s, t) && (!usable ==> t == s)
    ensures Read(body, n, k, usable, t)
  {
    if usable {
      hide TriedSlot;
      forall i | n <= i < k ensures TriedHome(t, body, i) == TriedHome(s, body, i) {}
      forall c | c in t.triedTable ensures exists i :: n <= i < k && Occupies(body, n, i, t, c) {
        var i :| n <= i < k && Occupies(body, n, i, s, c);
        OccupiesRefs(body, n, i, s, t, c);
      }
    }
  }

  // Pruning takes entries that are not held, and moves others in vRandom only.
  ghost predicate PrunedTo(s: State, t: State) {
    && t.env == s.env && t.key == s.key && t.newTable == s.newTable && t.triedTable == s.triedTable
    && (forall id | id in t.info :: id in s.info && Bare(t.info[id]) == Bare(s.info[id]))
    && (forall id | id in s.info && Held(s.info[id]) :: id in t.info)
  }

  lemma PrunedOnce(s: State, id: int)
    requires id in s.info && Placed(s.info, s.random, id) && !Held(s.info[id])
    ensures PrunedTo(s, Remove(s, id))
  {
  }

  lemma PrunedTrans(s: State, t: State, u: State)
    requires PrunedTo(s, t) && PrunedTo(t, u)
    ensures PrunedTo(s, u)
  {
    forall id | id in t.info ensures Held(t.info[id]) == Held(s.info[id]) {
      assert Bare(t.info[id]) == Bare(s.info[id]);
    }
  }

  lemma {:induction false} PruneKeepsHeld(s: State, n: nat)
    requires Prunable(s)
    ensures PrunedTo(s, Prune(s, n))
  {
    if n > 0 {
      hide Prunable, Placed, PrunedTo, Remove;
      PruneKeepsHeld(s, n - 1);
      var t := Prune(s, n - 1);
      if n - 1 in t.info && !t.info[n - 1].fInTried && t.info[n - 1].nRefCount == 0 {
        RemoveKeeps(t, n - 1);
        PrunedOnce(t, n - 1);
        PrunedTrans(s, t, Remove(t, n - 1));
      }
    } else {
      assert Prune(s, 0) == s;
    }
  }

  // ---------------------------------------------------------------- what is kept

  // A stream that a new manager reads to its end, with no address twice among the entries.
  ghost predicate IsReadable(env: Env, stream: seq<Token>) {
    && ReadHead(stream).Head?
    && ReadHead(stream).nTried >= 0
    && |stream| >= 6 && AddressesApart(stream[6..], ReadHead(stream).nNew + ReadHead(stream).nTried)
    && AllHeld(Init(env, 0).info) && Unserialize(env, stream).Reading?
  }

  lemma BodyReads(env: Env, head: Head, body: seq<Token>)
    requires head.Head? && head.nTried >= 0 && AddressesApart(body, head.nNew + head.nTried)
    ensures AllHeld(Init(env, 0).info)
    ensures var q := ReadBody(Init(env, 0), head, body);
      q.Reading? ==> Read(body, head.nNew, head.nNew + head.nTried, head.usable, q.s) && q.s.env == env && q.s.key == head.key
  {
    hide Entered, AddressesApart, Numbered, ReadNew, ReadTried, ReadBuckets, AllHeld, Read, OnlyRefs, NewIds, TriedIds;
    StartIsEmpty(env, head, body);
    var start := Cleared(Init(env, 0), head.key).(nNew := head.nNew, nTried := head.nTried);
    var n, m := head.nNew, head.nTried;
    NewEntriesKeep(body, n + m, start, n, head.usable);
    NewsAreRead(body, n + m, start, n, head.usable);
    var news := ReadNew(Reading(start, body), n, head.usable);
    if news.Reading? {
      NoTriedYet(body, n, head.usable, news.s);
    }
    TriedAreRead(body, n + m, n, news, m, head.usable);
    var all := ReadTried(news, m);
    BucketsRefs(all, Rounds(head.nUBuckets), head.usable);
    var q := ReadBuckets(all, Rounds(head.nUBuckets), head.usable);
    if q.Reading? {
      RefsReads(body, n, n + m, head.usable, all.s, q.s);
      TriedEntriesKeep(body, n + m, n, news, m);
      SameKeys(env, head.key, start, all.s, q.s);
    }
  }

  lemma SameKeys(env: Env, key: Key, start: State, s: State, t: State)
    requires start.env == env && start.key == key && SameHead(start, s) && OnlyRefs(s, t)
    ensures t.env == env && t.key == key
  {
  }

  lemma NoTriedYet(body: seq<Token>, n: nat, usable: bool, s: State)
    requires NewsIn(body, n, s) && s.triedTable == map[] && (!usable ==> HomesIn(body, n, s))
    ensures Read(body, n, n, usable, s)
  {
  }

  // What is left after pruning, as the table before it has it.
  ghost predicate IsResult(env: Env, stream: seq<Token>, s: State, t: State) {
    && |stream| >= 6 && ReadHead(stream).Head? && ReadHead(stream).nTried >= 0
    && Read(stream[6..], ReadHead(stream).nNew, ReadHead(stream).nNew + ReadHead(stream).nTried, ReadHead(stream).usable, s)
    && AddrOk(s.info, s.addr) && PrunedTo(s, t) && Inv(t)
    && s.env == env && s.key == ReadHead(stream).key
  }

  lemma PrunedNumbering(s: State, t: State)
    requires PrunedTo(Numbering(s), t)
    ensures PrunedTo(s, t)
  {
  }

  lemma PrunedAddr(s: State)
    requires Pruned(Numbering(s), 0, 0)
    ensures AddrOk(s.info, s.addr)
  {
  }

  lemma ResultOf(env: Env, stream: seq<Token>) returns (s: State)
    requires IsReadable(env, stream)
    ensures IsResult(env, stream, s, Unserialize(env, stream).s)
  {
    hide ReadHead, ReadBody, AddressesApart, Numbered, Pruned, Core, Inv, Prune, Prunable, Read, AddrOk, AllHeld, PrunedTo, IsEntry;
    ReadingIsConsistent(env, stream);
    var head := ReadHead(stream);
    HeadFacts(stream);
    BodyIsConsistent(env, head, stream[6..]);
    BodyReads(env, head, stream[6..]);
    s := ReadBody(Init(env, 0), head, stream[6..]).s;
    NumberedIsPrunable(s);
    StillPrunable(s, |s.random|);
    PruneKeepsHeld(Numbering(s), |s.random|);
    PrunedNumbering(s, Unserialize(env, stream).s);
    PrunedAddr(s);
  }

  lemma KeptIff(s: State, t: State, id: int)
    requires PrunedTo(s, t) && Inv(t) && id in s.info
    ensures id in t.info <==> s.info[id].fInTried || SlotsOf(s.newTable, id) != {}
  {
    if id in t.info {
      assert id !in Orphans(t.info);
      assert t.info[id].nRefCount == |SlotsOf(t.newTable, id)|;
      assert Bare(t.info[id]) == Bare(s.info[id]);
    }
    if SlotsOf(s.newTable, id) != {} {
      var c :| c in SlotsOf(s.newTable, id);
      assert c in t.newTable && t.newTable[c] == id;
    }
  }

  // An entry is found in the book under its address if its id is still there.
  lemma KeptId(s: State, t: State, id: int)
    requires AddrOk(s.info, s.addr) && PrunedTo(s, t) && Inv(t) && id in s.info
    ensures s.info[id].service.ip in Abs(t) <==> id in t.info
    ensures id in t.info ==>
      && Abs(t)[s.info[id].service.ip] == EntryOf(t.info[id], SlotsOf(s.newTable, id))
      && Bare(t.info[id]) == Bare(s.info[id])
      && t.info[id].nRefCount == |SlotsOf(s.newTable, id)|
    ensures id in t.info <==> s.info[id].fInTried || SlotsOf(s.newTable, id) != {}
  {
    KeptIff(s, t, id);
    InvIsCore(t);
    hide Core;
    LookUp(t, s.info[id].service.ip);
  }

  // The profile an entry of the stream gets.
  function ProfileOf(d: DiskInfo): AddrInfo {
    AddrInfo(d.service, d.services, d.nTime, d.source, d.nLastSuccess, 0, d.nAttempts, 0, false, -1)
  }

  lemma EntryProfile(info: AddrInfo, b: AddrInfo, d: DiskInfo, cells: set<Slot>)
    requires IsEntry(info, d) && Bare(b) == Bare(info)
    ensures EntryOf(b, cells) == Entry(ProfileOf(d), if info.fInTried then InTried else InNew(cells))
  {
    BareProfile(b, info, cells);
  }

  // The entry at i in the stream is at home in the cell.
  ghost predicate NewAtHome(env: Env, key: Key, stream: seq<Token>, i: nat, cell: Slot) {
    6 + i < |stream| && stream[6 + i].InfoTok? && NewSlot(env, key, stream[6 + i].info.service, stream[6 + i].info.source) == cell
  }

  ghost predicate TriedAtHome(env: Env, key: Key, stream: seq<Token>, i: nat, cell: Slot) {
    6 + i < |stream| && stream[6 + i].InfoTok? && TriedSlot(env, key, stream[6 + i].info.service) == cell
  }

  lemma Homes(stream: seq<Token>, s: State, i: nat, cell: Slot)
    requires 6 + i < |stream| && stream[6 + i].InfoTok?
    ensures NewAtHome(s.env, s.key, stream, i, cell) <==> NewHome(s, stream[6..], i) == cell
    ensures TriedAtHome(s.env, s.key, stream, i, cell) <==> TriedHome(s, stream[6..], i) == cell
  {
    hide NewSlot, TriedSlot;
  }

  lemma TokensOf(stream: seq<Token>, s: State, n: nat, k: nat, usable: bool)
    requires |stream| >= 6 && Read(stream[6..], n, k, usable, s)
    ensures n <= k && 6 + k <= |stream| && forall i | 0 <= i < k :: stream[6 + i] == stream[6..][i] && stream[6 + i].InfoTok?
  {
  }

  // New entries: each that is kept has what the stream says.  Where the cells cannot be used,
  // exactly the first one at home in each cell is kept, in that cell alone.
  lemma NewIsKept(env: Env, stream: seq<Token>, i: nat)
    requires IsReadable(env, stream) && i < ReadHead(stream).nNew
    ensures 6 + i < |stream| && stream[6 + i].InfoTok?
    ensures var d, b := stream[6 + i].info, Abs(Unserialize(env, stream).s);
      && (d.service.ip in b ==> b[d.service.ip].profile == ProfileOf(d) && b[d.service.ip].place.InNew?)
      && (!ReadHead(stream).usable ==>
            var home := NewSlot(env, ReadHead(stream).key, d.service, d.source);
            if exists j: nat | j < i :: NewAtHome(env, ReadHead(stream).key, stream, j, home)
            then d.service.ip !in b
            else d.service.ip in b && b[d.service.ip].place == InNew({home}))
  {
    hide Inv, AddrOk, NewSlot, Unserialize, ReadHead, PrunedTo, AllHeld, AddressesApart, Abs, ProfileOf, Read, IsEntry;
    var s := ResultOf(env, stream);
    var t := Unserialize(env, stream).s;
    var head := ReadHead(stream);
    TokensOf(stream, s, head.nNew, head.nNew + head.nTried, head.usable);
    NewInResult(stream[6..], head.nNew, head.nNew + head.nTried, head.usable, s, t, i);
    if !head.usable {
      forall j: nat | j <= i
        ensures NewAtHome(env, head.key, stream, j, NewHome(s, stream[6..], i)) <==> NewHome(s, stream[6..], j) == NewHome(s, stream[6..], i)
      {
        Homes(stream, s, j, NewHome(s, stream[6..], i));
      }
    }
  }

  // The same, told of the tables before and after pruning.
  lemma NewInResult(body: seq<Token>, n: nat, k: nat, usable: bool, s: State, t: State, i: nat)
    requires Read(body, n, k, usable, s) && AddrOk(s.info, s.addr) && PrunedTo(s, t) && Inv(t) && i < n
    ensures Entries(body, n)
    ensures var d, b := body[i].info, Abs(t);
      && (d.service.ip in b ==> b[d.service.ip].profile == ProfileOf(d) && b[d.service.ip].place.InNew?)
      && (!usable ==>
            if exists j: nat | j < i :: NewHome(s, body, j) == NewHome(s, body, i)
            then d.service.ip !in b
            else d.service.ip in b && b[d.service.ip].place == InNew({NewHome(s, body, i)}))
  {
    hide Inv, AddrOk, NewSlot, PrunedTo, Abs, ProfileOf, NewHome, SlotsOf, TriedIn;
    KeptId(s, t, i);
    if i in t.info {
      EntryProfile(s.info[i], t.info[i], body[i].info, SlotsOf(s.newTable, i));
    }
    if !usable {
      CellsOf(body, n, s, i);
    }
    EntryIp(s.info[i], body[i].info);
    hide IsEntry;
  }

  lemma EntryIp(info: AddrInfo, d: DiskInfo)
    requires IsEntry(info, d)
    ensures info.service == d.service
  {
  }

  // The first one at home in a cell has it, the others have none.
  lemma CellsOf(body: seq<Token>, n: nat, s: State, i: nat)
    requires Entries(body, n) && HomesIn(body, n, s) && i < n
    ensures SlotsOf(s.newTable, i) ==
      if exists j: nat | j < i :: NewHome(s, body, j) == NewHome(s, body, i) then {} else {NewHome(s, body, i)}
  {
    hide NewHome;
    var home := NewHome(s, body, i);
    assert home in s.newTable;
  }

  // Tried entries: exactly the first one at home in each cell is kept, with what the stream says.
  lemma TriedIsKept(env: Env, stream: seq<Token>, i: nat)
    requires IsReadable(env, stream) && ReadHead(stream).nNew <= i < ReadHead(stream).nNew + ReadHead(stream).nTried
    ensures 6 + i < |stream| && stream[6 + i].InfoTok?
    ensures var d, b := stream[6 + i].info, Abs(Unserialize(env, stream).s);
      var home := TriedSlot(env, ReadHead(stream).key, d.service);
      if exists j: nat | ReadHead(stream).nNew <= j < i :: TriedAtHome(env, ReadHead(stream).key, stream, j, home)
      then d.service.ip !in b
      else d.service.ip in b && b[d.service.ip] == Entry(ProfileOf(d), InTried)
  {
    hide Inv, AddrOk, TriedSlot, Unserialize, ReadHead, PrunedTo, AllHeld, AddressesApart, Abs, ProfileOf, Read, IsEntry, Entries, IsFirst, TriedAtHome, Occupies, TriedHome;
    var s := ResultOf(env, stream);
    var t := Unserialize(env, stream).s;
    var head := ReadHead(stream);
    TokensOf(stream, s, head.nNew, head.nNew + head.nTried, head.usable);
    TriedInResult(stream[6..], head.nNew, head.nNew + head.nTried, head.usable, s, t, i);
    FirstIs(stream, s, head.nNew, i);
  }

  lemma FirstIs(stream: seq<Token>, s: State, n: nat, i: nat)
    requires 6 + i < |stream| && stream[6 + i].InfoTok? && Entries(stream[6..], i + 1)
    ensures var home := TriedSlot(s.env, s.key, stream[6 + i].info.service);
      IsFirst(stream[6..], n, s, i) <==> !exists j: nat | n <= j < i :: TriedAtHome(s.env, s.key, stream, j, home)
  {
    hide TriedSlot, NewSlot;
    var home := TriedHome(s, stream[6..], i);
    forall j: nat | j <= i ensures TriedAtHome(s.env, s.key, stream, j, home) <==> TriedHome(s, stream[6..], j) == home {
      assert stream[6..][j].InfoTok?;
      Homes(stream, s, j, home);
    }
    hide TriedHome, TriedAtHome;
  }

  ghost predicate IsFirst(body: seq<Token>, n: nat, s: State, i: nat)
    requires Entries(body, i + 1)
  {
    forall j: nat | n <= j < i :: TriedHome(s, body, j) != TriedHome(s, body, i)
  }

  lemma TriedInResult(body: seq<Token>, n: nat, k: nat, usable: bool, s: State, t: State, i: nat)
    requires Read(body, n, k, usable, s) && AddrOk(s.info, s.addr) && PrunedTo(s, t) && Inv(t) && n <= i < k
    requires AddressesApart(body, k)
    ensures Entries(body, i + 1)
    ensures var d, b := body[i].info, Abs(t);
      if IsFirst(body, n, s, i)
      then d.service.ip in b && b[d.service.ip] == Entry(ProfileOf(d), InTried)
      else d.service.ip !in b
  {
    hide Inv, AddrOk, PrunedTo, Abs, ProfileOf, TriedHome, SlotsOf, HomesIn;
    var home := TriedHome(s, body, i);
    var v :| n <= v < k && Occupies(body, n, v, s, home);
    var id := s.triedTable[home];
    if IsFirst(body, n, s, i) {
      assert v == i;
      EntryIp(s.info[id], body[i].info);
      KeptId(s, t, id);
      EntryProfile(s.info[id], t.info[id], body[i].info, SlotsOf(s.newTable, id));
    } else if body[i].info.service.ip in Abs(t) {
      NotFirst(body, n, k, usable, s, t, i);
    }
  }

  // Whoever has the address is made of the token, and so is first at home.
  lemma NotFirst(body: seq<Token>, n: nat, k: nat, usable: bool, s: State, t: State, i: nat)
    requires Read(body, n, k, usable, s) && PrunedTo(s, t) && Inv(t) && n <= i < k
    requires AddressesApart(body, k)
    requires Entries(body, i + 1) && body[i].info.service.ip in Abs(t)
    ensures IsFirst(body, n, s, i)
  {
    var ip := body[i].info.service.ip;
    LookUp(t, ip);
    var id := t.addr[ip];
    assert id in t.info && t.info[id].service.ip == ip && Bare(t.info[id]) == Bare(s.info[id]);
    if t.info[id].fInTried {
      var cell := TriedSlot(t.env, t.key, t.info[id].service);
      assert cell in t.triedTable && t.triedTable[cell] == id;
      hide Inv, TriedSlot, Abs, HomesIn, TriedHome, Core;
      var v :| n <= v < k && Occupies(body, n, v, s, cell);
      assert body[v].info.service.ip == ip;
      assert v == i;
    } else {
      hide Inv, TriedSlot, Abs, HomesIn, TriedHome, TriedIn, Core;
      assert false;
    }
  }

  // ---------------------------------------------------------------- an address that occurs twice

  // An old stream with the same address as a new and as a tried entry.
  function Twice(key: Key, d: DiskInfo): seq<Token> {
    [ByteTok(0), ByteTok(32), KeyTok(key), IntTok(1), IntTok(1), IntTok(0), InfoTok(d), InfoTok(d)]
  }

  lemma TwiceIsRead(env: Env, key: Key, d: DiskInfo) returns (q: Reading)
    ensures AllHeld(Init(env, 0).info)
    ensures ReadHead(Twice(key, d)) == Head(key, 1, 1, 0, false)
    ensures q == ReadBody(Init(env, 0), Head(key, 1, 1, 0, false), [InfoTok(d), InfoTok(d)])
    ensures q.Reading? && |q.s.random| == 2 && q.s.info.Keys == {0, 1}
    ensures q.s.info[0].service.ip == d.service.ip == q.s.info[1].service.ip
    ensures Held(q.s.info[0]) && Held(q.s.info[1])
  {
    hide NewSlot, TriedSlot;
    var body := [InfoTok(d), InfoTok(d)];
    var start := Cleared(Init(env, 0), key).(nNew := 1, nTried := 1);
    var a := ReadNewRound(Reading(start, body), false);
    assert ReadNew(Reading(start, body), 0, false) == Reading(start, body);
    assert ReadNew(Reading(start, body), 1, false) == a;
    assert a.Reading? && a.rest == [InfoTok(d)] && a.s.info.Keys == {0} && a.s.info[0].nRefCount == 1;
    q := ReadTriedRound(a);
    assert ReadTried(a, 0) == a && ReadTried(a, 1) == q;
    assert q.s.info.Keys == {0, 1};
  }

  // The manager that reads it knows both, and finds the address at one of them only.
  lemma TwiceIsInconsistent(env: Env, key: Key, d: DiskInfo)
    ensures AllHeld(Init(env, 0).info)
    ensures Unserialize(env, Twice(key, d)).Reading? && !Inv(Unserialize(env, Twice(key, d)).s)
  {
    hide ReadHead, ReadBody, Prune, Held, Numbered, Prunable;
    var q := TwiceIsRead(env, key, d);
    assert Twice(key, d)[6..] == [InfoTok(d), InfoTok(d)];
    NumberedIsPrunable(q.s);
    StillPrunable(q.s, 2);
    PruneKeepsHeld(q.s.(nIdCount := 2), 2);
    var t := Unserialize(env, Twice(key, d)).s;
    assert 0 in t.info && 1 in t.info;
    assert Bare(t.info[0]) == Bare(q.s.info[0]) && Bare(t.info[1]) == Bare(q.s.info[1]);
    OneIdAnAddress(t);
  }

  lemma OneIdAnAddress(t: State)
    ensures Inv(t) ==> forall a, b | a in t.info && b in t.info && a != b :: t.info[a].service.ip != t.info[b].service.ip
  {
  }
}
