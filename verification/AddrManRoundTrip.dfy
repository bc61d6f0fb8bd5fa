/** Writing a consistent address manager and reading it into a fresh one gives a consistent
    address manager with the same book: the same addresses with the same statistics (nLastTry
    is memory only), in the same cells of the new table and in the same half. */
module AddrRoundTrip {
  import opened AddrTypes
  import opened AddrState
  import opened AddrSteps
  import opened AddrOps
  import opened AddrBook
  import opened AddrStream

  // ---------------------------------------------------------------- the order of writing

  ghost predicate Distinct(ids: seq<int>) {
    forall i, j | 0 <= i < j < |ids| :: ids[i] != ids[j]
  }

  lemma {:induction false} BelowIsDistinct(info: map<int, AddrInfo>, n: nat)
    ensures Distinct(NewBelow(info, n)) && Distinct(TriedBelow(info, n))
  {
    if n > 0 {
      BelowIsDistinct(info, n - 1);
      BelowIsKnown(info, n - 1);
      AppendDistinct(NewBelow(info, n - 1), n - 1);
      AppendDistinct(TriedBelow(info, n - 1), n - 1);
      hide Distinct;
    }
  }

  lemma AppendDistinct(ids: seq<int>, id: int)
    requires Distinct(ids) && id !in ids
    ensures Distinct(ids + [id])
  {
  }

  lemma {:induction false} DistinctSize(ids: seq<int>, all: set<int>)
    requires Distinct(ids) && forall id :: id in ids <==> id in all
    ensures |ids| == |all|
  {
    if ids == [] {
      assert forall id | id in all :: id in ids;
      assert all == {};
    } else {
      var last := ids[|ids| - 1];
      var front := ids[..|ids| - 1];
      assert ids == front + [last];
      forall id ensures id in front <==> id in all - {last} {
        if id in front {
          var i :| 0 <= i < |front| && front[i] == id;
          assert ids[i] == id;
        }
      }
      DistinctSize(front, all - {last});
    }
  }

  // The rank of an entry is where it stands in the list.
  lemma {:induction false} RankIsPosition(info: map<int, AddrInfo>, id: int, n: nat)
    requires 0 <= id < n && id in info && info[id].nRefCount != 0
    ensures Rank(info, id) < |NewBelow(info, n)| && NewBelow(info, n)[Rank(info, id)] == id
  {
    if id < n - 1 {
      RankIsPosition(info, id, n - 1);
    }
  }

  // All entries in the order of writing: first the new ones, then the tried ones.
  ghost function Listing(s: State): seq<int>
    requires s.nIdCount >= 0
  {
    NewBelow(s.info, s.nIdCount) + TriedBelow(s.info, s.nIdCount)
  }

  lemma ListingIsComplete(s: State)
    requires Inv(s)
    ensures s.nNew >= 0 && s.nTried >= 0
    ensures |NewBelow(s.info, s.nIdCount)| == s.nNew && |TriedBelow(s.info, s.nIdCount)| == s.nTried
    ensures Distinct(Listing(s))
    ensures forall id :: id in Listing(s) <==> id in s.info
    ensures forall i | 0 <= i < |Listing(s)| :: Listing(s)[i] in s.info && (s.info[Listing(s)[i]].fInTried <==> i >= s.nNew)
  {
    BelowIsKnown(s.info, s.nIdCount);
    BelowIsDistinct(s.info, s.nIdCount);
    var n, t := NewBelow(s.info, s.nIdCount), TriedBelow(s.info, s.nIdCount);
    assert forall id | id in s.info :: id !in Orphans(s.info);
    assert forall id | id in s.info :: s.info[id].fInTried <==> s.info[id].nRefCount == 0 by { TriedHaveNoRefs(s); }
    DistinctSize(n, NewIds(s.info));
    DistinctSize(t, TriedIds(s.info));
    forall i | 0 <= i < |Listing(s)| ensures Listing(s)[i] in s.info && (s.info[Listing(s)[i]].fInTried <==> i >= s.nNew) {
      if i < |n| { assert n[i] in n; } else { assert t[i - |n|] in t; }
    }
    forall i, j | 0 <= i < j < |Listing(s)| ensures Listing(s)[i] != Listing(s)[j] {
      if i < |n| { assert n[i] in n; } else { assert t[i - |n|] in t; }
      if j < |n| { assert n[j] in n; } else { assert t[j - |n|] in t; }
    }
    forall id ensures id in Listing(s) <==> id in s.info {
      if id in s.info {
        assert id in n || id in t;
      }
    }
  }

  lemma TriedHaveNoRefs(s: State)
    requires Inv(s)
    ensures forall id | id in s.info :: s.info[id].fInTried <==> s.info[id].nRefCount == 0
  {
    forall id | id in s.info ensures s.info[id].fInTried <==> s.info[id].nRefCount == 0 {
      assert |SlotsOf(s.newTable, id)| >= 0;
      assert id !in Orphans(s.info);
    }
  }

  // ---------------------------------------------------------------- what has been read so far

  // Entry b is a copy of entry a as far as the stream carries it.
  ghost predicate CopyOf(b: AddrInfo, a: AddrInfo) {
    ToDisk(b) == ToDisk(a) && b.nLastTry == 0
  }

  // The first k listed entries have been read, under their ranks.
  ghost predicate Copied(s: State, list: seq<int>, t: State, k: nat)
    requires k <= |list| && forall i | 0 <= i < |list| :: list[i] in s.info
  {
    && t.env == s.env && t.key == s.key && t.nNew == s.nNew && t.nTried == s.nTried
    && |t.random| == k && Numbered(t)
    && (forall id | id in t.info :: 0 <= id < k)
    && (forall i | 0 <= i < k :: i in t.info && CopyOf(t.info[i], s.info[list[i]]))
    && (forall i | 0 <= i < k :: s.info[list[i]].service.ip in t.addr && t.addr[s.info[list[i]].service.ip] == i)
    && (forall ip | ip in t.addr :: 0 <= t.addr[ip] < k && s.info[list[t.addr[ip]]].service.ip == ip)
  }

  // One more entry.
  lemma CopiedNext(s: State, list: seq<int>, t: State, k: nat, entry: AddrInfo)
    requires AddrOk(s.info, s.addr) && Distinct(list)
    requires k < |list| && (forall i | 0 <= i < |list| :: list[i] in s.info) && Copied(s, list, t, k)
    requires CopyOf(entry, s.info[list[k]])
    ensures Copied(s, list, Append(t, entry), k + 1)
  {
    hide AddrOk, Distinct, CopyOf, ToDisk;
    var ip := s.info[list[k]].service.ip;
    CopyHasService(entry, s.info[list[k]], k);
    forall i | 0 <= i < k ensures s.info[list[i]].service.ip != ip {
      AddressesDiffer(s.info, s.addr, list, i, k);
    }
  }

  lemma CopyHasService(entry: AddrInfo, info: AddrInfo, pos: int)
    requires CopyOf(entry, info)
    ensures entry.service == info.service && CopyOf(entry.(nRandomPos := pos), info)
  {
    assert ToDisk(entry).service == entry.service;
  }

  lemma AddressesDiffer(info: map<int, AddrInfo>, addr: map<NetAddr, int>, list: seq<int>, i: nat, k: nat)
    requires AddrOk(info, addr) && Distinct(list) && i < k < |list| && list[i] in info && list[k] in info
    ensures info[list[i]].service.ip != info[list[k]].service.ip
  {
    assert list[i] != list[k];
  }

  // ---------------------------------------------------------------- the new entries

  // The state after k new entries: no cells yet, no flags.
  ghost predicate NewRead(s: State, list: seq<int>, t: State, k: nat)
    requires k <= |list| && forall i | 0 <= i < |list| :: list[i] in s.info
  {
    && Copied(s, list, t, k)
    && t.newTable == map[] && t.triedTable == map[]
    && (forall i | 0 <= i < k :: !t.info[i].fInTried && t.info[i].nRefCount == 0)
  }

  lemma NewReadNext(s: State, list: seq<int>, r: Reading, k: nat)
    requires AddrOk(s.info, s.addr) && Distinct(list) && k < |list|
    requires forall i | 0 <= i < |list| :: list[i] in s.info
    requires r.Reading? && NewRead(s, list, r.s, k) && r.rest != [] && r.rest[0] == InfoTok(ToDisk(s.info[list[k]]))
    ensures Ok(r)
    ensures ReadNewRound(r, true).Reading? && ReadNewRound(r, true).rest == r.rest[1..]
    ensures NewRead(s, list, ReadNewRound(r, true).s, k + 1)
  {
    assert k !in r.s.info;
    CopiedNext(s, list, r.s, k, FromDisk(r.rest[0].info));
  }

  lemma NewReadOk(s: State, list: seq<int>, r: Reading, k: nat)
    requires k <= |list| && forall i | 0 <= i < |list| :: list[i] in s.info
    requires r.Reading? && NewRead(s, list, r.s, k)
    ensures Ok(r)
  {
  }

  lemma NextToken(tokens: seq<Token>, tail: seq<Token>, k: nat)
    requires k < |tokens|
    ensures (tokens[k..] + tail)[0] == tokens[k]
    ensures (tokens[k..] + tail)[1..] == tokens[k + 1..] + tail
  {
  }

  lemma {:induction false} ReadNewUpTo(s: State, list: seq<int>, r: Reading, tokens: seq<Token>, tail: seq<Token>, k: nat)
    requires AddrOk(s.info, s.addr) && Distinct(list) && k <= |tokens| <= |list|
    requires forall i | 0 <= i < |list| :: list[i] in s.info
    requires forall i | 0 <= i < |tokens| :: tokens[i] == InfoTok(ToDisk(s.info[list[i]]))
    requires r.Reading? && NewRead(s, list, r.s, 0) && r.rest == tokens + tail
    ensures Ok(r)
    ensures ReadNew(r, k, true).Reading? && ReadNew(r, k, true).rest == tokens[k..] + tail
    ensures NewRead(s, list, ReadNew(r, k, true).s, k)
  {
    hide NewRead, Copied, Numbered, AddrOk, Distinct, ReadNewRound, ToDisk;
    NewReadOk(s, list, r, 0);
    if k > 0 {
      ReadNewUpTo(s, list, r, tokens, tail, k - 1);
      NextToken(tokens, tail, k - 1);
      NewReadNext(s, list, ReadNew(r, k - 1, true), k - 1);
    }
  }

  // ---------------------------------------------------------------- the tried entries

  // The tried cells of the entries n to k of the list hold the numbers of these entries, and nothing else is held.
  ghost predicate TriedCells(s: State, list: seq<int>, n: nat, triedTable: Table, k: nat)
    requires n <= k <= |list| && forall i | 0 <= i < |list| :: list[i] in s.info
  {
    && (forall slot | slot in triedTable ::
          n <= triedTable[slot] < k && slot == TriedSlot(s.env, s.key, s.info[list[triedTable[slot]]].service))
    && (forall i | n <= i < k ::
          TriedSlot(s.env, s.key, s.info[list[i]].service) in triedTable && triedTable[TriedSlot(s.env, s.key, s.info[list[i]].service)] == i)
  }

  lemma TriedCellsNext(s: State, list: seq<int>, n: nat, triedTable: Table, k: nat, slot: Slot)
    requires n <= k < |list| && forall i | 0 <= i < |list| :: list[i] in s.info
    requires TriedCells(s, list, n, triedTable, k) && CellsApart(s, list, n)
    requires slot == TriedSlot(s.env, s.key, s.info[list[k]].service)
    ensures slot !in triedTable && TriedCells(s, list, n, triedTable[slot := k], k + 1)
  {
    hide TriedSlot;
  }

  // The state after all n new entries and the tried ones up to k.
  ghost predicate TriedRead(s: State, list: seq<int>, n: nat, t: State, k: nat)
    requires n <= k <= |list| && forall i | 0 <= i < |list| :: list[i] in s.info
  {
    && Copied(s, list, t, k)
    && t.newTable == map[]
    && (forall i | 0 <= i < k :: t.info[i].nRefCount == 0 && (t.info[i].fInTried <==> i >= n))
    && TriedCells(s, list, n, t.triedTable, k)
  }

  // Tried entries have cells of their own, so none is lost.
  ghost predicate CellsApart(s: State, list: seq<int>, n: nat)
    requires forall i | 0 <= i < |list| :: list[i] in s.info
  {
    forall i, j | n <= i < j < |list| ::
      TriedSlot(s.env, s.key, s.info[list[i]].service) != TriedSlot(s.env, s.key, s.info[list[j]].service)
  }

  lemma TriedReadNext(s: State, list: seq<int>, n: nat, r: Reading, k: nat)
    requires AddrOk(s.info, s.addr) && Distinct(list) && n <= k < |list|
    requires forall i | 0 <= i < |list| :: list[i] in s.info
    requires CellsApart(s, list, n)
    requires r.Reading? && TriedRead(s, list, n, r.s, k) && r.rest != [] && r.rest[0] == InfoTok(ToDisk(s.info[list[k]]))
    ensures Ok(r)
    ensures ReadTriedRound(r).Reading? && ReadTriedRound(r).rest == r.rest[1..]
    ensures TriedRead(s, list, n, ReadTriedRound(r).s, k + 1)
  {
    hide TriedCells, CellsApart, AddrOk, Distinct, Copied, CopyOf, TriedSlot, Numbered, ToDisk, FromDisk;
    var entry := FromDisk(r.rest[0].info);
    ReadIsCopy(s.info[list[k]]);
    CopiedIsKept(s, list, r.s, k);
    TriedCellsNext(s, list, n, r.s.triedTable, k, TriedSlot(s.env, s.key, entry.service));
    CopiedNext(s, list, r.s, k, entry.(fInTried := true));
    CopiedIsKept(s, list, Append(r.s, entry.(fInTried := true)), k + 1);
    AnyTable(s, list, Append(r.s, entry.(fInTried := true)), k + 1, ReadTriedRound(r).s.triedTable);
  }

  // What is read of an entry is a copy of it.
  lemma ReadIsCopy(info: AddrInfo)
    ensures var entry := FromDisk(ToDisk(info));
      entry.service == info.service && entry.nRefCount == 0 && CopyOf(entry.(fInTried := true), info) && CopyOf(entry, info)
  {
  }

  lemma CopiedIsKept(s: State, list: seq<int>, t: State, k: nat)
    requires k <= |list| && (forall i | 0 <= i < |list| :: list[i] in s.info) && Copied(s, list, t, k)
    ensures t.env == s.env && t.key == s.key && |t.random| == k && Numbered(t)
    ensures forall i | 0 <= i < k :: i in t.info
  {
    hide CopyOf;
  }

  lemma AnyTable(s: State, list: seq<int>, t: State, k: nat, triedTable: Table)
    requires k <= |list| && (forall i | 0 <= i < |list| :: list[i] in s.info) && Copied(s, list, t, k)
    ensures Copied(s, list, t.(triedTable := triedTable), k)
  {
    hide CopyOf;
  }

  lemma TriedReadOk(s: State, list: seq<int>, n: nat, r: Reading, k: nat)
    requires n <= k <= |list| && forall i | 0 <= i < |list| :: list[i] in s.info
    requires r.Reading? && TriedRead(s, list, n, r.s, k)
    ensures Ok(r)
  {
  }

  lemma {:induction false} ReadTriedUpTo(s: State, list: seq<int>, n: nat, r: Reading, tokens: seq<Token>, tail: seq<Token>, k: nat)
    requires AddrOk(s.info, s.addr) && Distinct(list) && k <= |tokens| && n + |tokens| == |list|
    requires forall i | 0 <= i < |list| :: list[i] in s.info
    requires CellsApart(s, list, n)
    requires forall i | 0 <= i < |tokens| :: tokens[i] == InfoTok(ToDisk(s.info[list[n + i]]))
    requires r.Reading? && TriedRead(s, list, n, r.s, n) && r.rest == tokens + tail
    ensures Ok(r)
    ensures ReadTried(r, k).Reading? && ReadTried(r, k).rest == tokens[k..] + tail
    ensures TriedRead(s, list, n, ReadTried(r, k).s, n + k)
  {
    hide TriedRead, Copied, Numbered, AddrOk, Distinct, CellsApart, ReadTriedRound, ToDisk;
    TriedReadOk(s, list, n, r, n);
    if k > 0 {
      ReadTriedUpTo(s, list, n, r, tokens, tail, k - 1);
      NextToken(tokens, tail, k - 1);
      TriedReadNext(s, list, n, ReadTried(r, k - 1), n + k - 1);
    }
  }

  // ---------------------------------------------------------------- the cells of the new table

  // All entries are in, new before tried, each with its flag; the tried table is complete.
  ghost predicate EntriesRead(s: State, list: seq<int>, n: nat, t: State)
    requires n <= |list| && forall i | 0 <= i < |list| :: list[i] in s.info
  {
    && Copied(s, list, t, |list|)
    && (forall i | 0 <= i < |list| :: t.info[i].fInTried <==> i >= n)
    && TriedCells(s, list, n, t.triedTable, |list|)
  }

  // Cells are written bucket by bucket, position by position.
  predicate Before(slot: Slot, bucket: nat, pos: nat) {
    slot.bucket < bucket || (slot.bucket == bucket && slot.pos < pos)
  }

  // The cells before the given one are back, held by the copies of their holders.
  ghost predicate CellsRead(newTable: Table, list: seq<int>, n: nat, copy: Table, bucket: nat, pos: nat)
    requires n <= |list|
  {
    && (forall slot | slot in copy ::
          slot in newTable && Before(slot, bucket, pos) && 0 <= copy[slot] < n && list[copy[slot]] == newTable[slot])
    && (forall slot | slot in newTable && Before(slot, bucket, pos) :: slot in copy)
  }

  ghost predicate RefsRead(t: State, k: nat)
    requires forall i | 0 <= i < k :: i in t.info
  {
    forall i | 0 <= i < k :: t.info[i].nRefCount == |SlotsOf(t.newTable, i)|
  }

  ghost predicate Restored(s: State, list: seq<int>, n: nat, t: State, bucket: nat, pos: nat)
    requires n <= |list| && forall i | 0 <= i < |list| :: list[i] in s.info
  {
    EntriesRead(s, list, n, t) && CellsRead(s.newTable, list, n, t.newTable, bucket, pos) && RefsRead(t, |list|)
  }

  // What the writer knows: ranks number the new entries.
  ghost predicate Ranked(s: State, list: seq<int>, n: nat) {
    && n <= |list| && s.nNew == n
    && (forall i | 0 <= i < |list| :: list[i] in s.info)
    && (forall id | id in s.info && !s.info[id].fInTried :: Rank(s.info, id) < n && list[Rank(s.info, id)] == id)
  }

  lemma ProperSubsetIsSmaller(a: set<Slot>, b: set<Slot>, slot: Slot)
    requires a <= b && slot in b && slot !in a
    ensures |a| < |b|
  {
    assert a <= b - {slot};
    SubsetIsNotLarger(a, b - {slot});
  }

  lemma {:induction false} SubsetIsNotLarger<T>(a: set<T>, b: set<T>)
    requires a <= b
    ensures |a| <= |b|
  {
    if a != {} {
      var x :| x in a;
      SubsetIsNotLarger(a - {x}, b - {x});
    }
  }

  // A copy that still misses a cell has fewer cells than the original.
  lemma CopyHasRoom(s: State, list: seq<int>, n: nat, copy: Table, bucket: nat, pos: nat)
    requires n <= |list| && CellsRead(s.newTable, list, n, copy, bucket, pos) && RefsOk(s.info, s.newTable)
    requires Slot(bucket, pos) in s.newTable && s.newTable[Slot(bucket, pos)] in s.info
    ensures Slot(bucket, pos) !in copy
    ensures forall i | 0 <= i < n && list[i] == s.newTable[Slot(bucket, pos)] :: |SlotsOf(copy, i)| < NEW_BUCKETS_PER_ADDRESS
  {
    var id := s.newTable[Slot(bucket, pos)];
    forall i | 0 <= i < n && list[i] == id ensures |SlotsOf(copy, i)| < NEW_BUCKETS_PER_ADDRESS {
      assert SlotsOf(copy, i) <= SlotsOf(s.newTable, id);
      ProperSubsetIsSmaller(SlotsOf(copy, i), SlotsOf(s.newTable, id), Slot(bucket, pos));
      assert |SlotsOf(s.newTable, id)| <= NEW_BUCKETS_PER_ADDRESS;
    }
  }

  lemma RefsReadNext(t: State, k: nat, slot: Slot, i: nat)
    requires i < k && (forall j | 0 <= j < k :: j in t.info) && RefsRead(t, k) && slot !in t.newTable
    ensures RefsRead(PutNew(t, slot, i, t.info[i].nRefCount + 1), k)
  {
    forall j | 0 <= j < k ensures SlotsOf(t.newTable[slot := i], j) == if j == i then SlotsOf(t.newTable, j) + {slot} else SlotsOf(t.newTable, j) {
      SlotsAfterPut(t.newTable, slot, i, j);
    }
  }

  lemma EntriesIgnoreRefs(s: State, list: seq<int>, n: nat, t: State, slot: Slot, i: nat, refs: int)
    requires n <= |list| && (forall j | 0 <= j < |list| :: list[j] in s.info) && EntriesRead(s, list, n, t) && i < |list|
    ensures EntriesRead(s, list, n, PutNew(t, slot, i, refs))
  {
    hide TriedCells;
  }

  lemma CellsReadNext(newTable: Table, list: seq<int>, n: nat, copy: Table, bucket: nat, pos: nat, i: nat)
    requires n <= |list| && CellsRead(newTable, list, n, copy, bucket, pos)
    requires Slot(bucket, pos) in newTable && i < n && list[i] == newTable[Slot(bucket, pos)]
    ensures CellsRead(newTable, list, n, copy[Slot(bucket, pos) := i], bucket, pos + 1)
  {
  }

  lemma CellsReadSkip(newTable: Table, list: seq<int>, n: nat, copy: Table, bucket: nat, pos: nat)
    requires n <= |list| && CellsRead(newTable, list, n, copy, bucket, pos) && Slot(bucket, pos) !in newTable
    ensures CellsRead(newTable, list, n, copy, bucket, pos + 1)
  {
    forall slot | slot in newTable && Before(slot, bucket, pos + 1) ensures Before(slot, bucket, pos) {
      assert slot != Slot(bucket, pos);
    }
  }

  // What an index in the stream leads to.
  lemma CellTarget(s: State, list: seq<int>, n: nat, t: State, slot: Slot)
    requires Core(s) && Ranked(s, list, n) && EntriesRead(s, list, n, t) && slot in s.newTable
    ensures s.newTable[slot] in s.info
    ensures Rank(s.info, s.newTable[slot]) < n && list[Rank(s.info, s.newTable[slot])] == s.newTable[slot]
    ensures var i := Rank(s.info, s.newTable[slot]);
      i in t.info && NewPosition(t.env, t.key, t.info[i].service, slot.bucket) == slot.pos
    ensures t.nNew == n
  {
    var i := Rank(s.info, s.newTable[slot]);
    assert CopyOf(t.info[i], s.info[list[i]]);
    assert ToDisk(t.info[i]).service == t.info[i].service;
  }

  lemma RestoredOk(s: State, list: seq<int>, n: nat, r: Reading, bucket: nat, pos: nat)
    requires n <= |list| && forall i | 0 <= i < |list| :: list[i] in s.info
    requires r.Reading? && Restored(s, list, n, r.s, bucket, pos)
    ensures Ok(r)
    ensures r.s.nNew == s.nNew
    ensures forall i | 0 <= i < |list| :: i in r.s.info
  {
  }

  lemma CellRefs(s: State, list: seq<int>, n: nat, t: State, slot: Slot, i: nat)
    requires n <= |list| && (forall j | 0 <= j < |list| :: list[j] in s.info)
    requires RefsOk(s.info, s.newTable) && slot in s.newTable && s.newTable[slot] in s.info
    requires Restored(s, list, n, t, slot.bucket, slot.pos) && i < n && list[i] == s.newTable[slot] && i in t.info
    ensures slot !in t.newTable && t.info[i].nRefCount < NEW_BUCKETS_PER_ADDRESS
  {
    hide EntriesRead, RefsOk;
    RestoredOk(s, list, n, Reading(t, []), slot.bucket, slot.pos);
    CopyHasRoom(s, list, n, t.newTable, slot.bucket, slot.pos);
    hide CellsRead;
    assert t.info[i].nRefCount == |SlotsOf(t.newTable, i)|;
  }

  lemma ReadCellIs(r: Reading, slot: Slot, i: nat)
    requires Ok(r) && r.Reading? && r.rest != [] && r.rest[0] == IntTok(i)
    requires i < r.s.nNew && i in r.s.info && slot !in r.s.newTable && r.s.info[i].nRefCount < NEW_BUCKETS_PER_ADDRESS
    requires NewPosition(r.s.env, r.s.key, r.s.info[i].service, slot.bucket) == slot.pos
    ensures ReadCell(r, slot.bucket, true) == Reading(PutNew(r.s, slot, i, r.s.info[i].nRefCount + 1), r.rest[1..])
  {
    hide Ok, NewPosition;
  }

  // The index in the stream puts the copy of the holder back into the cell.
  lemma ReadCellPuts(s: State, list: seq<int>, n: nat, r: Reading, slot: Slot)
    requires Core(s) && Ranked(s, list, n) && slot in s.newTable && s.newTable[slot] in s.info
    requires r.Reading? && Restored(s, list, n, r.s, slot.bucket, slot.pos)
    requires r.rest != [] && r.rest[0] == IntTok(Rank(s.info, s.newTable[slot]))
    ensures Ok(r)
    ensures Rank(s.info, s.newTable[slot]) in r.s.info && slot !in r.s.newTable
    ensures ReadCell(r, slot.bucket, true) ==
      Reading(PutNew(r.s, slot, Rank(s.info, s.newTable[slot]), r.s.info[Rank(s.info, s.newTable[slot])].nRefCount + 1), r.rest[1..])
  {
    hide RefsOk, NewPosition, Rank, EntriesRead, CellsRead, RefsRead, Numbered, ReadCell, Before, TriedOk, NewOk, AddrOk, RandomOk, IdsOk;
    RestoredOk(s, list, n, r, slot.bucket, slot.pos);
    CellTarget(s, list, n, r.s, slot);
    CellRefs(s, list, n, r.s, slot, Rank(s.info, s.newTable[slot]));
    ReadCellIs(r, slot, Rank(s.info, s.newTable[slot]));
  }

  lemma PutRestores(s: State, list: seq<int>, n: nat, t: State, bucket: nat, pos: nat, i: nat)
    requires n <= |list| && forall j | 0 <= j < |list| :: list[j] in s.info
    requires Restored(s, list, n, t, bucket, pos) && Slot(bucket, pos) !in t.newTable
    requires Slot(bucket, pos) in s.newTable && i < n && list[i] == s.newTable[Slot(bucket, pos)] && i in t.info
    ensures Restored(s, list, n, PutNew(t, Slot(bucket, pos), i, t.info[i].nRefCount + 1), bucket, pos + 1)
  {
    hide EntriesRead, CellsRead, RefsRead, Before;
    RestoredOk(s, list, n, Reading(t, []), bucket, pos);
    RefsReadNext(t, |list|, Slot(bucket, pos), i);
    EntriesIgnoreRefs(s, list, n, t, Slot(bucket, pos), i, t.info[i].nRefCount + 1);
    CellsReadNext(s.newTable, list, n, t.newTable, bucket, pos, i);
  }

  lemma RankedAt(s: State, list: seq<int>, n: nat, id: int)
    requires Ranked(s, list, n) && id in s.info && !s.info[id].fInTried
    ensures n <= |list| && (forall j | 0 <= j < |list| :: list[j] in s.info)
    ensures Rank(s.info, id) < n && list[Rank(s.info, id)] == id
  {
    hide Rank;
  }

  lemma ReadCellRestores(s: State, list: seq<int>, n: nat, r: Reading, slot: Slot)
    requires Core(s) && Ranked(s, list, n) && slot in s.newTable
    requires r.Reading? && Restored(s, list, n, r.s, slot.bucket, slot.pos)
    requires r.rest != [] && r.rest[0] == IntTok(Rank(s.info, s.newTable[slot]))
    ensures Ok(r)
    ensures ReadCell(r, slot.bucket, true).Reading? && ReadCell(r, slot.bucket, true).rest == r.rest[1..]
    ensures Restored(s, list, n, ReadCell(r, slot.bucket, true).s, slot.bucket, slot.pos + 1)
  {
    hide Core, Ranked, Restored, Rank, ReadCell, Numbered, PutNew;
    NewHolder(s, slot);
    RankedAt(s, list, n, s.newTable[slot]);
    ReadCellPuts(s, list, n, r, slot);
    PutRestores(s, list, n, r.s, slot.bucket, slot.pos, Rank(s.info, s.newTable[slot]));
  }

  lemma {:induction false} CellTokensGrow(s: State, bucket: nat, p: nat, m: nat)
    requires p <= m
    ensures CellTokens(s, bucket, p) <= CellTokens(s, bucket, m)
  {
    if p < m {
      CellTokensGrow(s, bucket, p, m - 1);
    }
  }

  // After the tokens of the first p positions, the cells at those positions are back.
  lemma {:induction false} ReadCellsUpTo(s: State, list: seq<int>, n: nat, r: Reading, bucket: nat, p: nat, tail: seq<Token>)
    requires Core(s) && Ranked(s, list, n) && p <= BUCKET_SIZE
    requires r.Reading? && Restored(s, list, n, r.s, bucket, 0) && r.rest == CellTokens(s, bucket, BUCKET_SIZE) + tail
    ensures Ok(r)
    ensures ReadCells(r, bucket, |CellTokens(s, bucket, p)|, true).Reading?
    ensures |CellTokens(s, bucket, p)| <= |CellTokens(s, bucket, BUCKET_SIZE)|
    ensures ReadCells(r, bucket, |CellTokens(s, bucket, p)|, true).rest == CellTokens(s, bucket, BUCKET_SIZE)[|CellTokens(s, bucket, p)|..] + tail
    ensures Restored(s, list, n, ReadCells(r, bucket, |CellTokens(s, bucket, p)|, true).s, bucket, p)
  {
    hide Core, Restored, ReadCell, Rank;
    RestoredOk(s, list, n, r, bucket, 0);
    CellTokensGrow(s, bucket, p, BUCKET_SIZE);
    if p > 0 {
      ReadCellsUpTo(s, list, n, r, bucket, p - 1, tail);
      CellTokensGrow(s, bucket, p - 1, p);
      var slot := Slot(bucket, p - 1);
      var k := |CellTokens(s, bucket, p - 1)|;
      var q := ReadCells(r, bucket, k, true);
      if slot in s.newTable {
        var all := CellTokens(s, bucket, BUCKET_SIZE);
        assert all[k] == CellTokens(s, bucket, p)[k];
        NextToken(all, tail, k);
        ReadCellRestores(s, list, n, q, slot);
      } else {
        RestoredSkips(s, list, n, q.s, bucket, p - 1);
      }
    }
  }

  lemma RestoredSkips(s: State, list: seq<int>, n: nat, t: State, bucket: nat, pos: nat)
    requires n <= |list| && forall j | 0 <= j < |list| :: list[j] in s.info
    requires Restored(s, list, n, t, bucket, pos) && Slot(bucket, pos) !in s.newTable
    ensures Restored(s, list, n, t, bucket, pos + 1)
  {
    hide EntriesRead, CellsRead, RefsRead;
    CellsReadSkip(s.newTable, list, n, t.newTable, bucket, pos);
  }

  // After the last position of a bucket comes the first one of the next.
  lemma RestoredNextBucket(s: State, list: seq<int>, n: nat, t: State, bucket: nat)
    requires n <= |list| && forall j | 0 <= j < |list| :: list[j] in s.info
    requires NewOk(s.env, s.key, s.info, s.newTable)
    requires Restored(s, list, n, t, bucket, BUCKET_SIZE)
    ensures Restored(s, list, n, t, bucket + 1, 0)
  {
    hide EntriesRead, RefsRead;
    assert forall slot | slot in s.newTable :: slot.pos < BUCKET_SIZE;
    assert forall slot | slot in s.newTable :: Before(slot, bucket, BUCKET_SIZE) <==> Before(slot, bucket + 1, 0);
  }

  lemma ReadBucketRestores(s: State, list: seq<int>, n: nat, r: Reading, bucket: nat, tail: seq<Token>)
    requires Core(s) && Ranked(s, list, n)
    requires r.Reading? && Restored(s, list, n, r.s, bucket, 0) && r.rest == BucketTokens(s, bucket) + tail
    ensures Ok(r)
    ensures ReadBucket(r, bucket, true).Reading? && ReadBucket(r, bucket, true).rest == tail
    ensures Restored(s, list, n, ReadBucket(r, bucket, true).s, bucket + 1, 0)
  {
    assert NewOk(s.env, s.key, s.info, s.newTable);
    hide Core, NewOk, Restored, ReadCells, CellTokens;
    RestoredOk(s, list, n, r, bucket, 0);
    var all := CellTokens(s, bucket, BUCKET_SIZE);
    assert r.rest[0] == IntTok(|all|) && r.rest[1..] == all + tail;
    ReadCellsUpTo(s, list, n, r.(rest := all + tail), bucket, BUCKET_SIZE, tail);
    assert all[|all|..] + tail == tail;
    RestoredNextBucket(s, list, n, ReadCells(r.(rest := all + tail), bucket, |all|, true).s, bucket);
  }

  lemma {:induction false} ReadBucketsUpTo(s: State, list: seq<int>, n: nat, r: Reading, bucket: nat)
    requires Core(s) && Ranked(s, list, n) && bucket <= NEW_BUCKET_COUNT
    requires r.Reading? && Restored(s, list, n, r.s, 0, 0) && r.rest == TokensFrom(s, 0)
    ensures Ok(r)
    ensures ReadBuckets(r, bucket, true).Reading? && ReadBuckets(r, bucket, true).rest == TokensFrom(s, bucket)
    ensures Restored(s, list, n, ReadBuckets(r, bucket, true).s, bucket, 0)
  {
    hide Core, Restored, ReadBucket, BucketTokens;
    RestoredOk(s, list, n, r, 0, 0);
    if bucket > 0 {
      ReadBucketsUpTo(s, list, n, r, bucket - 1);
      ReadBucketRestores(s, list, n, ReadBuckets(r, bucket - 1, true), bucket - 1, TokensFrom(s, bucket));
    }
  }

  // ---------------------------------------------------------------- the result

  // With all cells back, the copy of an entry has exactly its cells.
  lemma CellsMatch(newTable: Table, list: seq<int>, n: nat, copy: Table, i: nat)
    requires n <= |list| && i < |list| && Distinct(list) && CellsRead(newTable, list, n, copy, NEW_BUCKET_COUNT, 0)
    requires forall slot | slot in newTable :: slot.bucket < NEW_BUCKET_COUNT
    ensures SlotsOf(copy, i) == SlotsOf(newTable, list[i])
  {
    forall slot ensures slot in SlotsOf(copy, i) <==> slot in SlotsOf(newTable, list[i]) {
      if slot in newTable && newTable[slot] == list[i] {
        assert Before(slot, NEW_BUCKET_COUNT, 0);
        assert list[copy[slot]] == list[i];
      }
    }
  }

  lemma CellsAreBack(s: State, list: seq<int>, n: nat, t: State, i: nat)
    requires Core(s) && Ranked(s, list, n) && Distinct(list) && i < |list|
    requires Restored(s, list, n, t, NEW_BUCKET_COUNT, 0)
    requires forall j | 0 <= j < |list| :: s.info[list[j]].fInTried <==> j >= n
    ensures SlotsOf(t.newTable, i) == SlotsOf(s.newTable, list[i])
  {
    CellsInRange(s);
    hide Core, Ranked, Distinct, EntriesRead, CellsRead, RefsRead;
    CellsMatch(s.newTable, list, n, t.newTable, i);
  }

  lemma CellsInRange(s: State)
    requires Core(s)
    ensures forall slot | slot in s.newTable :: slot.bucket < NEW_BUCKET_COUNT
  {
  }

  // The whole listing of s has been read back into t.
  ghost predicate ReadBack(s: State, list: seq<int>, n: nat, t: State) {
    && Core(s) && Ranked(s, list, n) && Distinct(list)
    && (forall id | id in s.info :: id in list)
    && (forall j | 0 <= j < |list| :: s.info[list[j]].fInTried <==> j >= n)
    && Restored(s, list, n, t, NEW_BUCKET_COUNT, 0)
    && t.nIdCount == |list|
  }

  lemma CopiedService(s: State, list: seq<int>, t: State, i: nat)
    requires i < |list| && (forall j | 0 <= j < |list| :: list[j] in s.info) && Copied(s, list, t, |list|)
    ensures i in t.info && t.info[i].service == s.info[list[i]].service && t.info[i].nRandomPos == i
    ensures Profile(t.info[i]) == Profile(s.info[list[i]]).(nLastTry := 0)
  {
    assert t.random[i] == i;
    assert CopyOf(t.info[i], s.info[list[i]]);
    assert ToDisk(t.info[i]).service == t.info[i].service;
    assert ToDisk(t.info[i]).services == t.info[i].services;
    assert ToDisk(t.info[i]).nTime == t.info[i].nTime;
    assert ToDisk(t.info[i]).source == t.info[i].source;
    assert ToDisk(t.info[i]).nLastSuccess == t.info[i].nLastSuccess;
    assert ToDisk(t.info[i]).nAttempts == t.info[i].nAttempts;
  }

  // Ids are ranks, so an id is read back under its place in the list.
  lemma ReadBackFacts(s: State, list: seq<int>, n: nat, t: State)
    requires ReadBack(s, list, n, t)
    ensures Copied(s, list, t, |list|) && EntriesRead(s, list, n, t)
    ensures forall i :: i in t.info <==> 0 <= i < |list|
    ensures forall i | 0 <= i < |list| :: list[i] in s.info
    ensures forall i | 0 <= i < |list| :: i in t.info && t.info[i].service == s.info[list[i]].service
    ensures forall i | 0 <= i < |list| :: t.info[i].fInTried == s.info[list[i]].fInTried
    ensures forall i | 0 <= i < |list| :: t.info[i].nRefCount == s.info[list[i]].nRefCount
    ensures forall i | 0 <= i < |list| :: SlotsOf(t.newTable, i) == SlotsOf(s.newTable, list[i])
  {
    hide CellsRead, Core;
    forall i | 0 <= i < |list|
      ensures i in t.info && t.info[i].service == s.info[list[i]].service && t.info[i].fInTried == s.info[list[i]].fInTried
      ensures t.info[i].nRefCount == s.info[list[i]].nRefCount && SlotsOf(t.newTable, i) == SlotsOf(s.newTable, list[i])
    {
      CopiedService(s, list, t, i);
      CellsAreBack(s, list, n, t, i);
      RefCount(s, list[i]);
    }
  }

  lemma RefCount(s: State, id: int)
    requires Core(s) && id in s.info
    ensures s.info[id].nRefCount == |SlotsOf(s.newTable, id)| <= NEW_BUCKETS_PER_ADDRESS
    ensures s.info[id].fInTried ==> s.info[id].nRefCount == 0
  {
  }

  lemma NumberedIsListed(s: State)
    requires Numbered(s) && forall id | id in s.info :: 0 <= id < |s.random|
    ensures RandomOk(s.info, s.random)
  {
    forall id | id in s.info ensures id in s.random {
      assert s.random[id] == id;
    }
  }

  lemma ReadBackIndexes(s: State, list: seq<int>, n: nat, t: State)
    requires ReadBack(s, list, n, t)
    ensures IdsOk(t.info, t.nIdCount) && AddrOk(t.info, t.addr) && RandomOk(t.info, t.random)
  {
    ReadBackFacts(s, list, n, t);
    hide Core, Ranked, EntriesRead, CellsRead, Distinct;
    NumberedIsListed(t);
  }

  lemma ReadBackRefs(s: State, list: seq<int>, n: nat, t: State)
    requires ReadBack(s, list, n, t)
    ensures RefsOk(t.info, t.newTable)
  {
    ReadBackFacts(s, list, n, t);
    hide Core, Ranked, Restored, EntriesRead, Copied, Distinct;
    forall i | 0 <= i < |list|
      ensures t.info[i].nRefCount == |SlotsOf(t.newTable, i)| <= NEW_BUCKETS_PER_ADDRESS
      ensures t.info[i].fInTried ==> t.info[i].nRefCount == 0
    {
      RefCount(s, list[i]);
    }
  }

  lemma ReadBackNewTable(s: State, list: seq<int>, n: nat, t: State)
    requires ReadBack(s, list, n, t)
    ensures NewOk(t.env, t.key, t.info, t.newTable)
  {
    ReadBackFacts(s, list, n, t);
    assert CellsRead(s.newTable, list, n, t.newTable, NEW_BUCKET_COUNT, 0);
    assert NewOk(s.env, s.key, s.info, s.newTable);
    hide Core, Restored, Distinct, Ranked, ReadBack, Numbered, SlotsOf;
  }

  lemma ReadBackTried(s: State, list: seq<int>, n: nat, t: State)
    requires ReadBack(s, list, n, t)
    ensures TriedOk(t.env, t.key, t.info, t.triedTable)
  {
    ReadBackFacts(s, list, n, t);
    hide Core, Restored, Distinct, Ranked, ReadBack, Numbered, SlotsOf;
  }

  lemma {:induction false} RangeSize(lo: nat, hi: nat, all: set<int>)
    requires lo <= hi && forall i :: i in all <==> lo <= i < hi
    ensures |all| == hi - lo
  {
    if lo < hi {
      RangeSize(lo, hi - 1, all - {hi - 1});
    } else {
      assert forall i :: i !in all;
      assert all == {};
    }
  }

  lemma ReadBackPopulations(s: State, list: seq<int>, n: nat, t: State)
    requires ReadBack(s, list, n, t)
    ensures n <= |list| && t.nNew == n && t.nTried == s.nTried
    ensures forall i :: i in NewIds(t.info) <==> 0 <= i < n
    ensures forall i :: i in TriedIds(t.info) <==> n <= i < |list|
  {
    ReadBackFacts(s, list, n, t);
    hide Core, CellsRead, Distinct, Numbered, SlotsOf, RefsRead;
  }

  lemma NoOrphansRead(s: State, list: seq<int>, n: nat, t: State)
    requires ReadBack(s, list, n, t) && Orphans(s.info) == {}
    ensures Orphans(t.info) == {}
  {
    ReadBackFacts(s, list, n, t);
    hide Core, Restored, EntriesRead, Copied, CellsRead, Distinct, Numbered, SlotsOf, Ranked;
    forall i | 0 <= i < |list| ensures i !in Orphans(t.info) {
      assert list[i] !in Orphans(s.info);
    }
  }

  lemma ReadBackCounts(s: State, list: seq<int>, n: nat, t: State)
    requires ReadBack(s, list, n, t) && s.nTried == |list| - n && Orphans(s.info) == {}
    ensures t.nTried == |TriedIds(t.info)| && t.nNew == |NewIds(t.info)|
    ensures Orphans(t.info) == {}
  {
    hide ReadBack, Orphans, NewIds, TriedIds;
    ReadBackPopulations(s, list, n, t);
    NoOrphansRead(s, list, n, t);
    RangeSize(0, n, NewIds(t.info));
    RangeSize(n, |list|, TriedIds(t.info));
  }

  // The memory-only time of the last attempt is not in the stream.
  ghost function Forget(b: Book): Book {
    map ip | ip in b :: b[ip].(profile := b[ip].profile.(nLastTry := 0))
  }

  lemma ReadBackEntry(s: State, list: seq<int>, n: nat, t: State, ip: NetAddr)
    requires ReadBack(s, list, n, t) && ip in t.addr
    ensures ip in s.addr && s.addr[ip] in s.info && t.addr[ip] in t.info
    ensures EntryOf(t.info[t.addr[ip]], SlotsOf(t.newTable, t.addr[ip])) ==
      var e := EntryOf(s.info[s.addr[ip]], SlotsOf(s.newTable, s.addr[ip])); e.(profile := e.profile.(nLastTry := 0))
  {
    ReadBackFacts(s, list, n, t);
    CopiedService(s, list, t, t.addr[ip]);
    assert AddrOk(s.info, s.addr);
    hide Core, Ranked, Restored, Numbered, Distinct, ReadBack, SlotsOf, EntriesRead, Profile;
    assert s.addr[ip] == list[t.addr[ip]];
  }

  lemma IndexOf(list: seq<int>, id: int) returns (i: nat)
    requires id in list
    ensures i < |list| && list[i] == id
  {
    i :| 0 <= i < |list| && list[i] == id;
  }

  lemma ReadBackAddresses(s: State, list: seq<int>, n: nat, t: State)
    requires ReadBack(s, list, n, t)
    ensures forall ip | ip in s.addr :: ip in t.addr
  {
    ReadBackFacts(s, list, n, t);
    assert AddrOk(s.info, s.addr);
    assert forall id | id in s.info :: id in list;
    hide ReadBack, Core, Ranked, EntriesRead, Numbered;
    forall ip | ip in s.addr ensures ip in t.addr {
      var i := IndexOf(list, s.addr[ip]);
      assert s.info[list[i]].service.ip in t.addr;
    }
  }

  lemma ReadBackBook(s: State, list: seq<int>, n: nat, t: State)
    requires ReadBack(s, list, n, t)
    ensures Abs(t) == Forget(Abs(s))
  {
    hide ReadBack, SlotsOf, EntryOf;
    ReadBackAddresses(s, list, n, t);
    forall ip | ip in t.addr
      ensures ip in s.addr && s.addr[ip] in s.info && t.addr[ip] in t.info
      ensures EntryOf(t.info[t.addr[ip]], SlotsOf(t.newTable, t.addr[ip])) ==
        var e := EntryOf(s.info[s.addr[ip]], SlotsOf(s.newTable, s.addr[ip])); e.(profile := e.profile.(nLastTry := 0))
    {
      ReadBackEntry(s, list, n, t, ip);
    }
  }

  // Nothing is left without a cell, so nothing is pruned.
  lemma {:induction false} PruneNothing(s: State, n: nat)
    requires Prunable(s) && AllHeld(s.info)
    ensures Prune(s, n) == s
  {
    hide Remove, Listed;
    if n > 0 {
      PruneNothing(s, n - 1);
    }
  }

  lemma ReadBackInv(s: State, list: seq<int>, n: nat, t: State)
    requires ReadBack(s, list, n, t) && s.nTried == |list| - n && Orphans(s.info) == {}
    ensures Inv(t)
  {
    ReadBackIndexes(s, list, n, t);
    ReadBackNewTable(s, list, n, t);
    ReadBackTried(s, list, n, t);
    ReadBackRefs(s, list, n, t);
    ReadBackCounts(s, list, n, t);
    hide ReadBack, IdsOk, AddrOk, RandomOk, NewOk, TriedOk, RefsOk;
  }

  lemma ListingIsRanked(s: State)
    requires Inv(s)
    ensures s.nNew >= 0
    ensures Ranked(s, Listing(s), s.nNew)
    ensures CellsApart(s, Listing(s), s.nNew)
  {
    ListingIsComplete(s);
    TriedHaveNoRefs(s);
    forall id | id in s.info && !s.info[id].fInTried
      ensures Rank(s.info, id) < s.nNew && Listing(s)[Rank(s.info, id)] == id
    {
      RankIsPosition(s.info, id, s.nIdCount);
    }
    var list := Listing(s);
    assert TriedOk(s.env, s.key, s.info, s.triedTable);
    forall i, j | s.nNew <= i < j < |list|
      ensures TriedSlot(s.env, s.key, s.info[list[i]].service) != TriedSlot(s.env, s.key, s.info[list[j]].service)
    {
      assert list[i] != list[j];
    }
  }

  // The entry part of the stream.
  ghost function NewTokens(s: State): seq<Token>
    requires s.nIdCount >= 0
  {
    BelowIsKnown(s.info, s.nIdCount);
    InfoTokens(s.info, NewBelow(s.info, s.nIdCount))
  }

  ghost function TriedTokens(s: State): seq<Token>
    requires s.nIdCount >= 0
  {
    BelowIsKnown(s.info, s.nIdCount);
    InfoTokens(s.info, TriedBelow(s.info, s.nIdCount))
  }

  lemma WriterSizes(s: State)
    requires s.nIdCount >= 0
    ensures |NewTokens(s)| == |NewBelow(s.info, s.nIdCount)| && |TriedTokens(s)| == |TriedBelow(s.info, s.nIdCount)|
    ensures |Listing(s)| == |NewBelow(s.info, s.nIdCount)| + |TriedBelow(s.info, s.nIdCount)|
  {
    hide ToDisk, NewBelow, TriedBelow;
  }

  lemma WriterTokens(s: State)
    requires s.nIdCount >= 0
    ensures |Listing(s)| == |NewTokens(s)| + |TriedTokens(s)|
    ensures forall i | 0 <= i < |Listing(s)| :: Listing(s)[i] in s.info
    ensures forall i | 0 <= i < |NewTokens(s)| :: NewTokens(s)[i] == InfoTok(ToDisk(s.info[Listing(s)[i]]))
    ensures forall i | 0 <= i < |TriedTokens(s)| :: TriedTokens(s)[i] == InfoTok(ToDisk(s.info[Listing(s)[|NewTokens(s)| + i]]))
  {
    BelowIsKnown(s.info, s.nIdCount);
    hide ToDisk, NewBelow, TriedBelow;
  }

  lemma BodyOf(s: State)
    requires s.nIdCount >= 0
    ensures Serialize(s)[6..] == NewTokens(s) + (TriedTokens(s) + TokensFrom(s, 0))
  {
    hide TokensFrom, InfoTokens, NewBelow, TriedBelow;
  }

  lemma IndexIsKept(s: State)
    requires Inv(s)
    ensures s.nIdCount >= 0 && AddrOk(s.info, s.addr)
  {
  }

  lemma WriterFacts(s: State)
    requires Inv(s)
    ensures s.nIdCount >= 0 && s.nNew >= 0 && s.nTried >= 0 && AddrOk(s.info, s.addr)
    ensures |Listing(s)| == s.nNew + s.nTried && |NewTokens(s)| == s.nNew && |TriedTokens(s)| == s.nTried
    ensures forall i | 0 <= i < |Listing(s)| :: Listing(s)[i] in s.info
    ensures Ranked(s, Listing(s), s.nNew) && CellsApart(s, Listing(s), s.nNew) && Distinct(Listing(s))
    ensures forall i | 0 <= i < s.nNew :: NewTokens(s)[i] == InfoTok(ToDisk(s.info[Listing(s)[i]]))
    ensures forall i | 0 <= i < s.nTried :: TriedTokens(s)[i] == InfoTok(ToDisk(s.info[Listing(s)[s.nNew + i]]))
    ensures Serialize(s)[6..] == NewTokens(s) + (TriedTokens(s) + TokensFrom(s, 0))
  {
    hide Inv, AddrOk, Ranked, CellsApart, Distinct, ToDisk, NewBelow, TriedBelow, TokensFrom, NewTokens, TriedTokens, Serialize, Listing;
    IndexIsKept(s);
    ListingIsComplete(s);
    ListingIsRanked(s);
    WriterSizes(s);
    WriterTokens(s);
    BodyOf(s);
  }

  // Reading the two lists of entries.
  lemma ReadEntries(s: State, r: Reading)
    requires Inv(s)
    requires r == Reading(Init(s.env, s.key).(nNew := s.nNew, nTried := s.nTried), Serialize(s)[6..])
    ensures s.nNew >= 0 && s.nTried >= 0 && s.nNew <= |Listing(s)| && forall i | 0 <= i < |Listing(s)| :: Listing(s)[i] in s.info
    ensures Ok(r)
    ensures ReadTried(ReadNew(r, s.nNew, true), s.nTried).Reading?
    ensures ReadTried(ReadNew(r, s.nNew, true), s.nTried).rest == TokensFrom(s, 0)
    ensures Restored(s, Listing(s), s.nNew, ReadTried(ReadNew(r, s.nNew, true), s.nTried).s, 0, 0)
  {
    hide Inv, AddrOk, Ranked, CellsApart, Distinct, ToDisk, TokensFrom, NewTokens, TriedTokens, Serialize, Listing, Restored,
      ReadNew, ReadTried, NewRead, Numbered;
    WriterFacts(s);
    var tail := TokensFrom(s, 0);
    var list, news, trieds := Listing(s), NewTokens(s), TriedTokens(s);
    var n, m := s.nNew, s.nTried;
    StartsEmpty(s, list, r.s);
    ReadEntryLists(s, list, n, m, r, news, trieds, tail);
  }

  lemma StartsEmpty(s: State, list: seq<int>, t: State)
    requires forall i | 0 <= i < |list| :: list[i] in s.info
    requires t == Init(s.env, s.key).(nNew := s.nNew, nTried := s.nTried)
    ensures NewRead(s, list, t, 0)
  {
  }

  lemma ReadEntryLists(s: State, list: seq<int>, n: nat, m: nat, r: Reading, news: seq<Token>, trieds: seq<Token>, tail: seq<Token>)
    requires AddrOk(s.info, s.addr) && Distinct(list) && n + m == |list|
    requires forall i | 0 <= i < |list| :: list[i] in s.info
    requires CellsApart(s, list, n)
    requires |news| == n && |trieds| == m
    requires forall i | 0 <= i < n :: news[i] == InfoTok(ToDisk(s.info[list[i]]))
    requires forall i | 0 <= i < m :: trieds[i] == InfoTok(ToDisk(s.info[list[n + i]]))
    requires r.Reading? && NewRead(s, list, r.s, 0) && r.rest == news + (trieds + tail)
    ensures Ok(r)
    ensures ReadTried(ReadNew(r, n, true), m).Reading? && ReadTried(ReadNew(r, n, true), m).rest == tail
    ensures Restored(s, list, n, ReadTried(ReadNew(r, n, true), m).s, 0, 0)
  {
    hide AddrOk, CellsApart, Distinct, ReadNew, ReadTried, NewRead, TriedRead, Restored, ToDisk, Numbered;
    NewReadOk(s, list, r, 0);
    ReadNewUpTo(s, list, r, news, trieds + tail, n);
    var q := ReadNew(r, n, true);
    assert q.rest == trieds + tail;
    NewIsTriedStart(s, list, n, q.s);
    ReadTriedUpTo(s, list, n, q, trieds, tail, m);
    assert trieds[m..] + tail == tail;
    EntriesRestore(s, list, n, ReadTried(q, m).s);
  }

  lemma NewIsTriedStart(s: State, list: seq<int>, n: nat, t: State)
    requires n <= |list| && (forall i | 0 <= i < |list| :: list[i] in s.info) && NewRead(s, list, t, n)
    ensures TriedRead(s, list, n, t, n)
  {
  }

  lemma EntriesRestore(s: State, list: seq<int>, n: nat, t: State)
    requires n <= |list| && (forall i | 0 <= i < |list| :: list[i] in s.info) && TriedRead(s, list, n, t, |list|)
    ensures Restored(s, list, n, t, 0, 0)
  {
    forall i | 0 <= i < |list| ensures |SlotsOf(t.newTable, i)| == 0 {
      assert SlotsOf(t.newTable, i) == {};
    }
  }

  // The counts fit the limits the reader checks.
  lemma CountsFit(s: State)
    requires Inv(s)
    ensures s.nNew <= NEW_BUCKET_COUNT * BUCKET_SIZE && s.nTried <= TRIED_BUCKET_COUNT * BUCKET_SIZE
  {
    assert TriedOk(s.env, s.key, s.info, s.triedTable) && NewOk(s.env, s.key, s.info, s.newTable);
    var triedCell := map id | id in TriedIds(s.info) :: TriedSlot(s.env, s.key, s.info[id].service);
    hide Core;
    forall id | id in NewIds(s.info) ensures exists slot :: slot in s.newTable && s.newTable[slot] == id {
      HasACell(s, id);
    }
    var newCell := map id | id in NewIds(s.info) :: (var slot :| slot in s.newTable && s.newTable[slot] == id; slot);
    CellsBound(triedCell, TRIED_BUCKET_COUNT);
    CellsBound(newCell, NEW_BUCKET_COUNT);
    assert triedCell.Keys == TriedIds(s.info) && newCell.Keys == NewIds(s.info);
  }

  lemma HasACell(s: State, id: int)
    requires Inv(s) && id in s.info && !s.info[id].fInTried
    ensures exists slot :: slot in s.newTable && s.newTable[slot] == id
  {
    assert id !in Orphans(s.info);
    RefCount(s, id);
    assert SlotsOf(s.newTable, id) != {};
    var slot :| slot in SlotsOf(s.newTable, id);
  }

  // Entries with cells of their own are at most as many as there are cells.
  lemma CellsBound(cell: map<int, Slot>, buckets: nat)
    requires forall id | id in cell :: cell[id].bucket < buckets && cell[id].pos < BUCKET_SIZE
    requires forall a, b | a in cell && b in cell && a != b :: cell[a] != cell[b]
    ensures |cell.Keys| <= buckets * BUCKET_SIZE
  {
    var numbers := CellNumbers(cell, cell.Keys);
    ImageSize(cell, cell.Keys, numbers);
    SubsetIsNotLarger(numbers, Range(buckets * BUCKET_SIZE));
  }

  lemma {:induction false} ImageSize(cell: map<int, Slot>, ids: set<int>, numbers: set<int>)
    requires ids <= cell.Keys && numbers == CellNumbers(cell, ids)
    requires forall id | id in cell :: cell[id].pos < BUCKET_SIZE
    requires forall a, b | a in cell && b in cell && a != b :: cell[a] != cell[b]
    ensures |ids| == |numbers|
  {
    if ids == {} {
      assert numbers == {};
    } else {
      var x :| x in ids;
      TakeNumber(cell, ids, x);
      hide CellNumbers, NumberOf;
      ImageSize(cell, ids - {x}, numbers - {NumberOf(cell[x])});
    }
  }

  // The cells of a table, numbered through.
  function NumberOf(slot: Slot): nat {
    slot.bucket * BUCKET_SIZE + slot.pos
  }

  ghost function CellNumbers(cell: map<int, Slot>, ids: set<int>): set<int>
    requires ids <= cell.Keys
  {
    set id | id in ids :: NumberOf(cell[id])
  }

  lemma NumbersDiffer(a: Slot, b: Slot)
    requires a != b && a.pos < BUCKET_SIZE && b.pos < BUCKET_SIZE
    ensures NumberOf(a) != NumberOf(b)
  {
  }

  lemma TakeNumber(cell: map<int, Slot>, ids: set<int>, x: int)
    requires ids <= cell.Keys && x in ids
    requires forall id | id in cell :: cell[id].pos < BUCKET_SIZE
    requires forall a, b | a in cell && b in cell && a != b :: cell[a] != cell[b]
    ensures NumberOf(cell[x]) in CellNumbers(cell, ids)
    ensures CellNumbers(cell, ids) - {NumberOf(cell[x])} == CellNumbers(cell, ids - {x})
  {
    hide NumberOf;
    forall id | id in ids - {x} ensures NumberOf(cell[id]) != NumberOf(cell[x]) {
      NumbersDiffer(cell[id], cell[x]);
    }
  }

  ghost function Range(n: nat): (r: set<int>)
    ensures forall i :: i in r <==> 0 <= i < n
    ensures |r| == n
  {
    if n == 0 then {} else Range(n - 1) + {n - 1}
  }

  lemma HeadOfHeader(stream: seq<Token>, key: Key, nNew: nat, nTried: nat)
    requires nNew <= NEW_BUCKET_COUNT * BUCKET_SIZE && nTried <= TRIED_BUCKET_COUNT * BUCKET_SIZE
    requires |stream| >= 6 && forall i | 0 <= i < 6 :: stream[i] == Header(key, nNew, nTried)[i]
    ensures ReadHead(stream) == Head(key, nNew, nTried, NEW_BUCKET_COUNT, true)
  {
  }

  // The header passes the reader's checks.
  lemma HeaderIsRead(s: State)
    requires Inv(s)
    ensures s.nIdCount >= 0 && s.nNew >= 0 && s.nTried >= 0
    ensures |Serialize(s)| >= 6 && ReadHead(Serialize(s)) == Head(s.key, s.nNew, s.nTried, NEW_BUCKET_COUNT, true)
  {
    hide Inv, Serialize, ReadHead, Header, Listing;
    IndexIsKept(s);
    ListingIsComplete(s);
    CountsFit(s);
    HeaderFirst(s);
    HeadOfHeader(Serialize(s), s.key, s.nNew, s.nTried);
  }

  lemma HeaderFirst(s: State)
    requires s.nIdCount >= 0
    ensures |Serialize(s)| >= 6 && forall i | 0 <= i < 6 :: Serialize(s)[i] == Header(s.key, s.nNew, s.nTried)[i]
  {
    hide InfoTokens, TokensFrom, NewBelow, TriedBelow;
  }

  // What reading gives just before pruning.
  lemma BodyIsRead(s: State)
    requires Inv(s)
    ensures s.nIdCount >= 0 && s.nNew >= 0 && s.nTried >= 0 && |Serialize(s)| >= 6
    ensures |Listing(s)| == s.nNew + s.nTried
    ensures var q := ReadBody(Init(s.env, 0), Head(s.key, s.nNew, s.nTried, NEW_BUCKET_COUNT, true), Serialize(s)[6..]);
      q.Reading? && q.rest == [] && Ok(q) && ReadBack(s, Listing(s), s.nNew, q.s.(nIdCount := |q.s.random|))
  {
    ListingIsComplete(s);
    WriterFacts(s);
    var r := Reading(Init(s.env, s.key).(nNew := s.nNew, nTried := s.nTried), Serialize(s)[6..]);
    ReadEntries(s, r);
    assert Core(s);
    hide Inv, Core, Ranked, Restored, ReadNew, ReadTried, ReadBuckets, Serialize, Listing, CellsApart, Distinct, AddrOk;
    var q := ReadTried(ReadNew(r, s.nNew, true), s.nTried);
    ReadBucketsUpTo(s, Listing(s), s.nNew, q, NEW_BUCKET_COUNT);
    RestoredIsReadBack(s, Listing(s), s.nNew, ReadBuckets(q, NEW_BUCKET_COUNT, true).s);
  }

  lemma RestoredIsReadBack(s: State, list: seq<int>, n: nat, t: State)
    requires Core(s) && Ranked(s, list, n) && Distinct(list)
    requires forall id | id in s.info :: id in list
    requires forall j | 0 <= j < |list| :: s.info[list[j]].fInTried <==> j >= n
    requires Restored(s, list, n, t, NEW_BUCKET_COUNT, 0)
    ensures ReadBack(s, list, n, t.(nIdCount := |t.random|))
  {
    hide Core, Ranked, Distinct, CellsRead;
  }

  lemma UnserializeGives(s: State) returns (t: State)
    requires Inv(s)
    ensures s.nIdCount >= 0 && s.nNew >= 0 && s.nTried == |Listing(s)| - s.nNew
    ensures ReadBack(s, Listing(s), s.nNew, t) && Inv(t)
    ensures Unserialize(s.env, Serialize(s)) == Reading(t, [])
  {
    assert Orphans(s.info) == {};
    hide Inv, ReadBack, Serialize, ReadBody, ReadHead, Listing, Orphans, Numbered, RandomOk, Prunable, Prune;
    HeaderIsRead(s);
    BodyIsRead(s);
    var q := ReadBody(Init(s.env, 0), Head(s.key, s.nNew, s.nTried, NEW_BUCKET_COUNT, true), Serialize(s)[6..]);
    t := q.s.(nIdCount := |q.s.random|);
    ReadBackInv(s, Listing(s), s.nNew, t);
    ConsistentIsNotPruned(t, |t.random|);
  }

  // Reading what was written gives a consistent table with the same book, and uses up the stream.
  lemma RoundTrip(s: State)
    requires Inv(s)
    ensures s.nIdCount >= 0
    ensures Unserialize(s.env, Serialize(s)).Reading? && Unserialize(s.env, Serialize(s)).rest == []
    ensures Inv(Unserialize(s.env, Serialize(s)).s)
    ensures Unserialize(s.env, Serialize(s)).s.key == s.key
    ensures Abs(Unserialize(s.env, Serialize(s)).s) == Forget(Abs(s))
  {
    hide Inv, ReadBack, Serialize, Unserialize, Listing, Abs, Forget;
    var t := UnserializeGives(s);
    ReadBackBook(s, Listing(s), s.nNew, t);
    ReadBackKey(s, Listing(s), s.nNew, t);
  }

  lemma ReadBackKey(s: State, list: seq<int>, n: nat, t: State)
    requires ReadBack(s, list, n, t)
    ensures t.key == s.key
  {
  }

  lemma ConsistentIsNotPruned(t: State, n: nat)
    requires Inv(t)
    ensures Prunable(t) && Prune(t, n) == t
  {
    InvIsHeld(t);
    PruneNothing(t, n);
  }

  // ---------------------------------------------------------------- reading into a manager in use

  // An entry from before that reading has not got to.
  ghost predicate Left(r: Reading, id: int, k: nat) {
    r.Reading? ==> id in r.s.info && Held(r.s.info[id]) && |r.s.random| <= k
  }

  lemma {:induction false} ReadNewLeaves(r: Reading, n: nat, usable: bool, id: int, k: nat)
    requires Ok(r) && Left(r, id, k) && k + n <= id
    ensures Left(ReadNew(r, n, usable), id, k + n)
  {
    hide NewSlot, Numbered;
    if n > 0 {
      ReadNewLeaves(r, n - 1, usable, id, k);
    }
  }

  lemma {:induction false} ReadTriedLeaves(r: Reading, n: nat, id: int, k: nat)
    requires Ok(r) && Left(r, id, k) && k + n <= id
    ensures Left(ReadTried(r, n), id, k + n)
  {
    hide TriedSlot, Numbered;
    if n > 0 {
      ReadTriedLeaves(r, n - 1, id, k);
    }
  }

  lemma {:induction false} ReadCellsLeave(r: Reading, bucket: nat, n: nat, usable: bool, id: int, k: nat)
    requires Ok(r) && Left(r, id, k)
    ensures Left(ReadCells(r, bucket, n, usable), id, k)
  {
    hide NewPosition, Numbered;
    if n > 0 {
      ReadCellsLeave(r, bucket, n - 1, usable, id, k);
    }
  }

  lemma {:induction false} ReadBucketsLeave(r: Reading, n: nat, usable: bool, id: int, k: nat)
    requires Ok(r) && Left(r, id, k)
    ensures Left(ReadBuckets(r, n, usable), id, k)
  {
    hide ReadCells, Numbered;
    if n > 0 {
      ReadBucketsLeave(r, n - 1, usable, id, k);
      var q := ReadBuckets(r, n - 1, usable);
      if q.Reading? && q.rest != [] && q.rest[0].IntTok? {
        ReadCellsLeave(q.(rest := q.rest[1..]), n - 1, Max(0, q.rest[0].i), usable, id, k);
      }
    }
  }

  lemma RemoveLeaves(s: State, id: int, k: int)
    requires k in s.info && Placed(s.info, s.random, k) && k != id && id in s.info && id !in s.random
    ensures id in Remove(s, k).info && Held(Remove(s, k).info[id]) == Held(s.info[id]) && id !in Remove(s, k).random
  {
  }

  lemma {:induction false} PruneLeaves(s: State, n: nat, id: int)
    requires Prunable(s) && id in s.info && Held(s.info[id]) && id !in s.random
    ensures id in Prune(s, n).info && Held(Prune(s, n).info[id]) && id !in Prune(s, n).random
  {
    hide Prunable, Remove;
    if n > 0 {
      PruneLeaves(s, n - 1, id);
      var t := Prune(s, n - 1);
      if n - 1 in t.info && !t.info[n - 1].fInTried && t.info[n - 1].nRefCount == 0 {
        RemoveKeeps(t, n - 1);
        RemoveLeaves(t, id, n - 1);
      }
    }
  }

  // Reading into a manager that holds an id the stream does not number never gives a consistent one.
  lemma ReadOverSpoils(s: State, stream: seq<Token>, id: int)
    requires Inv(s) && id in s.info
    requires ReadHead(stream).Head? && ReadHead(stream).nNew + Rounds(ReadHead(stream).nTried) <= id
    ensures AllHeld(s.info)
    ensures UnserializeInto(s, stream).Reading? ==> !Inv(UnserializeInto(s, stream).s)
  {
    InvIsHeld(s);
    hide Inv, Core, ReadHead, ReadNew, ReadTried, ReadBuckets, Prune, Prunable;
    var head := ReadHead(stream);
    var r := Reading(Cleared(s, head.key).(nNew := head.nNew, nTried := head.nTried), stream[6..]);
    ReadNewLeaves(r, head.nNew, head.usable, id, 0);
    ReadTriedLeaves(ReadNew(r, head.nNew, head.usable), Rounds(head.nTried), id, head.nNew);
    var q := ReadBody(s, head, stream[6..]);
    var n := Rounds(head.nTried);
    ReadBucketsLeave(ReadTried(ReadNew(r, head.nNew, head.usable), n), Rounds(head.nUBuckets), head.usable, id, head.nNew + n);
    if q.Reading? {
      NumberedIsPrunable(q.s);
      StillPrunable(q.s, |q.s.random|);
      PruneLeaves(q.s.(nIdCount := |q.s.random|), |q.s.random|, id);
      NotListed(UnserializeInto(s, stream).s, id);
    }
  }

  lemma NotListed(s: State, id: int)
    requires id in s.info && id !in s.random
    ensures !Inv(s)
  {
  }
}
