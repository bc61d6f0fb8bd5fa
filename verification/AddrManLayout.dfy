/** Where everything stands in the stream the address manager writes, counted from its start,
    and what the reader accepts of a header. */
module AddrLayout {
  import opened AddrTypes
  import opened Numbers
  import opened AddrState
  import opened AddrSteps
  import opened AddrStream
  import opened AddrRoundTrip

  // Entries of the new table, and of the tried table, with an id below the given one.
  ghost function NewBefore(info: map<int, AddrInfo>, id: int): set<int> {
    set k | k in info && !info[k].fInTried && k < id
  }

  ghost function TriedBefore(info: map<int, AddrInfo>, id: int): set<int> {
    set k | k in info && info[k].fInTried && k < id
  }

  // The occupied cells in earlier buckets, or in this bucket at earlier positions.
  ghost function Earlier(t: Table, bucket: nat, pos: nat): set<Slot> {
    set c | c in t && (c.bucket < bucket || (c.bucket == bucket && c.pos < pos))
  }

  ghost function InBucket(t: Table, bucket: nat): set<Slot> {
    set c | c in t && c.bucket == bucket
  }

  // ---------------------------------------------------------------- entries

  lemma {:induction false} BelowSizes(s: State, n: nat)
    requires Inv(s)
    ensures |NewBelow(s.info, n)| == |NewBefore(s.info, n)| && |TriedBelow(s.info, n)| == |TriedBefore(s.info, n)|
  {
    BelowIsKnown(s.info, n);
    BelowIsDistinct(s.info, n);
    TriedHaveNoRefs(s);
    hide Inv;
    DistinctSize(NewBelow(s.info, n), NewBefore(s.info, n));
    DistinctSize(TriedBelow(s.info, n), TriedBefore(s.info, n));
  }

  lemma {:induction false} TriedRank(info: map<int, AddrInfo>, id: int, n: nat)
    requires 0 <= id < n && id in info && info[id].fInTried
    ensures |TriedBelow(info, id)| < |TriedBelow(info, n)| && TriedBelow(info, n)[|TriedBelow(info, id)|] == id
  {
    if id < n - 1 {
      TriedRank(info, id, n - 1);
    }
  }

  // ---------------------------------------------------------------- cells

  lemma EarlierNext(t: Table, bucket: nat, pos: nat)
    ensures Earlier(t, bucket, pos + 1) ==
      if Slot(bucket, pos) in t then Earlier(t, bucket, pos) + {Slot(bucket, pos)} else Earlier(t, bucket, pos)
    ensures Slot(bucket, pos) !in Earlier(t, bucket, pos)
  {
    forall c | c in Earlier(t, bucket, pos + 1) && c !in Earlier(t, bucket, pos) ensures c == Slot(bucket, pos) {}
  }

  lemma {:induction false} CellTokensAre(s: State, bucket: nat, n: nat)
    ensures |Earlier(s.newTable, bucket, 0)| + |CellTokens(s, bucket, n)| == |Earlier(s.newTable, bucket, n)|
    ensures forall p: nat | p < n && Slot(bucket, p) in s.newTable ::
      var i := |Earlier(s.newTable, bucket, p)| - |Earlier(s.newTable, bucket, 0)|;
      0 <= i < |CellTokens(s, bucket, n)| && CellTokens(s, bucket, n)[i] == IntTok(Rank(s.info, s.newTable[Slot(bucket, p)]))
  {
    hide Rank, Earlier;
    if n > 0 {
      CellTokensAre(s, bucket, n - 1);
      EarlierNext(s.newTable, bucket, n - 1);
    }
  }

  // Positions stay within a bucket.
  ghost predicate InBounds(t: Table) {
    forall c | c in t :: c.bucket < 1024 && c.pos < 64
  }

  lemma NewInBounds(s: State)
    requires Inv(s)
    ensures InBounds(s.newTable)
  {
  }

  lemma EarlierBuckets(t: Table, bucket: nat)
    requires InBounds(t)
    ensures Earlier(t, bucket, 64) == Earlier(t, bucket + 1, 0)
    ensures Earlier(t, 0, 0) == {} && Earlier(t, 1024, 0) == t.Keys
    ensures |Earlier(t, bucket, 64)| == |Earlier(t, bucket, 0)| + |InBucket(t, bucket)|
  {
    assert Earlier(t, bucket, 64) == Earlier(t, bucket, 0) + InBucket(t, bucket);
    assert Earlier(t, bucket, 0) !! InBucket(t, bucket);
  }

  // Where a bucket begins: one count for each earlier bucket, one index for each earlier cell.
  ghost function Start(t: Table, bucket: nat): nat {
    bucket + |Earlier(t, bucket, 0)|
  }

  lemma {:induction false} BucketsFrom(s: State, bucket: nat)
    requires InBounds(s.newTable) && bucket <= 1024
    ensures Start(s.newTable, bucket) <= |TokensFrom(s, 0)|
    ensures TokensFrom(s, 0)[Start(s.newTable, bucket)..] == TokensFrom(s, bucket)
  {
    hide TokensFrom, CellTokens, Earlier, InBounds, InBucket;
    EarlierBuckets(s.newTable, if bucket == 0 then 0 else bucket - 1);
    if bucket > 0 {
      var b := bucket - 1;
      BucketsFrom(s, b);
      TokensNext(s, b);
      CellTokensAre(s, b, 64);
      Skips(TokensFrom(s, 0), Start(s.newTable, b), BucketTokens(s, b), TokensFrom(s, bucket));
    }
  }

  lemma TokensNext(s: State, bucket: nat)
    requires bucket < 1024
    ensures TokensFrom(s, bucket) == BucketTokens(s, bucket) + TokensFrom(s, bucket + 1)
  {
  }

  lemma Skips(all: seq<Token>, at: nat, a: seq<Token>, b: seq<Token>)
    requires at <= |all| && all[at..] == a + b
    ensures at + |a| <= |all| && all[at + |a|..] == b
  {
    assert all[at + |a|..] == all[at..][|a|..];
  }

  // The cells part: every bucket writes how many cells are taken, then what they hold.
  lemma BucketLayout(s: State, bucket: nat)
    requires Inv(s) && bucket < 1024
    ensures Start(s.newTable, bucket) < |TokensFrom(s, 0)|
    ensures TokensFrom(s, 0)[Start(s.newTable, bucket)] == IntTok(|InBucket(s.newTable, bucket)|)
  {
    hide TokensFrom, CellTokens, Earlier, InBounds, InBucket, Inv;
    NewInBounds(s);
    BucketsFrom(s, bucket);
    TokensNext(s, bucket);
    CellTokensAre(s, bucket, 64);
    EarlierBuckets(s.newTable, bucket);
    assert TokensFrom(s, 0)[Start(s.newTable, bucket)..][0] == IntTok(|InBucket(s.newTable, bucket)|);
  }

  lemma CellLayout(s: State, cell: Slot)
    requires Inv(s) && cell in s.newTable
    ensures cell.bucket + 1 + |Earlier(s.newTable, cell.bucket, cell.pos)| < |TokensFrom(s, 0)|
    ensures s.newTable[cell] >= 0
    ensures TokensFrom(s, 0)[cell.bucket + 1 + |Earlier(s.newTable, cell.bucket, cell.pos)|]
      == IntTok(|NewBefore(s.info, s.newTable[cell])|)
  {
    NewInBounds(s);
    assert cell.bucket < 1024 && cell.pos < 64;
    HolderId(s, cell);
    hide TokensFrom, CellTokens, Earlier, InBounds, Inv;
    BucketsFrom(s, cell.bucket);
    TokensNext(s, cell.bucket);
    CellTokensAre(s, cell.bucket, 64);
    BelowSizes(s, s.newTable[cell]);
    var i := |Earlier(s.newTable, cell.bucket, cell.pos)| - |Earlier(s.newTable, cell.bucket, 0)|;
    assert cell == Slot(cell.bucket, cell.pos);
    assert BucketTokens(s, cell.bucket)[1 + i] == CellTokens(s, cell.bucket, 64)[i];
    assert TokensFrom(s, 0)[Start(s.newTable, cell.bucket)..][1 + i] == CellTokens(s, cell.bucket, 64)[i];
  }

  lemma HolderId(s: State, cell: Slot)
    requires Inv(s) && cell in s.newTable
    ensures s.newTable[cell] >= 0
  {
  }

  lemma CellsLength(s: State)
    requires Inv(s)
    ensures |TokensFrom(s, 0)| == 1024 + |s.newTable|
  {
    hide TokensFrom, Earlier, InBounds, Inv;
    NewInBounds(s);
    BucketsFrom(s, 1024);
    EarlierBuckets(s.newTable, 1024);
    NoMoreTokens(s);
    assert |s.newTable| == |s.newTable.Keys|;
  }

  lemma NoMoreTokens(s: State)
    ensures TokensFrom(s, 1024) == []
  {
  }

  // ---------------------------------------------------------------- the whole stream

  // The parts of the stream and where they begin.
  lemma Parts(s: State)
    requires Inv(s)
    ensures s.nIdCount >= 0 && s.nNew >= 0 && s.nTried >= 0
    ensures Serialize(s) == Header(s.key, s.nNew, s.nTried) + NewTokens(s) + TriedTokens(s) + TokensFrom(s, 0)
    ensures |NewTokens(s)| == s.nNew == |NewBelow(s.info, s.nIdCount)| && |TriedTokens(s)| == s.nTried == |TriedBelow(s.info, s.nIdCount)|
  {
    ListingIsComplete(s);
    hide Inv, TokensFrom, ToDisk, NewBelow, TriedBelow;
  }

  // Version, key size, key, the two counts, and the bucket count with its bit 30 flipped; one
  // entry per address, one count per bucket, one index per cell.
  lemma StreamBegins(s: State)
    requires Inv(s)
    ensures s.nIdCount >= 0 && s.nNew >= 0 && s.nTried >= 0
    ensures |Serialize(s)| == 6 + s.nNew + s.nTried + 1024 + |s.newTable|
    ensures Serialize(s)[..6] == [ByteTok(1), ByteTok(32), KeyTok(s.key), IntTok(s.nNew), IntTok(s.nTried), IntTok(0x4000_0400)]
  {
    hide Inv, TokensFrom, NewTokens, TriedTokens, Serialize;
    Parts(s);
    CellsLength(s);
  }

  // The new entries follow in the order of their ids, then the tried ones.
  lemma EntryStands(s: State, id: int)
    requires Inv(s) && id in s.info
    ensures s.nIdCount >= 0 && s.nNew >= 0 && s.nTried >= 0
    ensures var at := 6 + if s.info[id].fInTried then s.nNew + |TriedBefore(s.info, id)| else |NewBefore(s.info, id)|;
      at < |Serialize(s)| && Serialize(s)[at] == InfoTok(DiskInfo(s.info[id].service, s.info[id].services, s.info[id].nTime,
        s.info[id].source, s.info[id].nLastSuccess, s.info[id].nAttempts))
  {
    hide Inv, Serialize, NewBefore, TriedBefore, ToDisk;
    IndexIsKept(s);
    ListingIsComplete(s);
    DiskIs(s.info[id]);
    if s.info[id].fInTried {
      TriedStands(s, id);
    } else {
      NewStands(s, id);
    }
  }

  lemma NewStands(s: State, id: int)
    requires Inv(s) && id in s.info && !s.info[id].fInTried
    ensures s.nIdCount >= 0
    ensures var at := 6 + |NewBefore(s.info, id)|; at < |Serialize(s)| && Serialize(s)[at] == InfoTok(ToDisk(s.info[id]))
  {
    IdIsBelow(s, id);
    hide Inv, TokensFrom, Serialize, Header, NewBelow, TriedBelow, NewBefore, TriedBefore, NewTokens, TriedTokens, ToDisk;
    Parts(s);
    HeaderSize(s.key, s.nNew, s.nTried);
    BelowSizes(s, id);
    PartsAt(Header(s.key, s.nNew, s.nTried), NewTokens(s), TriedTokens(s), TokensFrom(s, 0));
    HasRefs(s, id);
    RankIsPosition(s.info, id, s.nIdCount);
    NewTokenAt(s, |NewBelow(s.info, id)|);
  }

  lemma TriedStands(s: State, id: int)
    requires Inv(s) && id in s.info && s.info[id].fInTried
    ensures s.nIdCount >= 0 && s.nNew >= 0
    ensures var at := 6 + s.nNew + |TriedBefore(s.info, id)|; at < |Serialize(s)| && Serialize(s)[at] == InfoTok(ToDisk(s.info[id]))
  {
    IdIsBelow(s, id);
    hide Inv, TokensFrom, Serialize, Header, NewBelow, TriedBelow, NewBefore, TriedBefore, NewTokens, TriedTokens, ToDisk;
    Parts(s);
    HeaderSize(s.key, s.nNew, s.nTried);
    BelowSizes(s, id);
    PartsAt(Header(s.key, s.nNew, s.nTried), NewTokens(s), TriedTokens(s), TokensFrom(s, 0));
    TriedRank(s.info, id, s.nIdCount);
    TriedTokenAt(s, |TriedBelow(s.info, id)|);
  }

  lemma HasRefs(s: State, id: int)
    requires Inv(s) && id in s.info && !s.info[id].fInTried
    ensures s.info[id].nRefCount != 0
  {
    TriedHaveNoRefs(s);
  }

  lemma HeaderSize(key: Key, nNew: int, nTried: int)
    ensures |Header(key, nNew, nTried)| == 6
  {
  }

  lemma DiskIs(info: AddrInfo)
    ensures ToDisk(info) == DiskInfo(info.service, info.services, info.nTime, info.source, info.nLastSuccess, info.nAttempts)
  {
  }

  // What stands where in four parts put together.
  lemma PartsAt(h: seq<Token>, a: seq<Token>, b: seq<Token>, c: seq<Token>)
    ensures |h + a + b + c| == |h| + |a| + |b| + |c|
    ensures forall i | 0 <= i < |a| :: (h + a + b + c)[|h| + i] == a[i]
    ensures forall i | 0 <= i < |b| :: (h + a + b + c)[|h| + |a| + i] == b[i]
  {
  }

  lemma IdIsBelow(s: State, id: int)
    requires Inv(s) && id in s.info
    ensures 0 <= id < s.nIdCount
  {
  }

  lemma NewTokenAt(s: State, i: nat)
    requires s.nIdCount >= 0 && i < |NewBelow(s.info, s.nIdCount)|
    ensures NewBelow(s.info, s.nIdCount)[i] in s.info && i < |NewTokens(s)|
    ensures NewTokens(s)[i] == InfoTok(ToDisk(s.info[NewBelow(s.info, s.nIdCount)[i]]))
  {
    BelowIsKnown(s.info, s.nIdCount);
    hide NewBelow, TriedBelow, ToDisk;
  }

  lemma TriedTokenAt(s: State, i: nat)
    requires s.nIdCount >= 0 && i < |TriedBelow(s.info, s.nIdCount)|
    ensures TriedBelow(s.info, s.nIdCount)[i] in s.info && i < |TriedTokens(s)|
    ensures TriedTokens(s)[i] == InfoTok(ToDisk(s.info[TriedBelow(s.info, s.nIdCount)[i]]))
  {
    BelowIsKnown(s.info, s.nIdCount);
    hide NewBelow, TriedBelow, ToDisk;
  }

  // Then come the buckets: how many cells are taken, and for each, in the order of positions,
  // the rank of its entry among the new ones.
  lemma BucketStands(s: State, bucket: nat)
    requires Inv(s) && bucket < 1024
    ensures s.nIdCount >= 0 && s.nNew >= 0 && s.nTried >= 0
    ensures var at := 6 + s.nNew + s.nTried + bucket + |Earlier(s.newTable, bucket, 0)|;
      at < |Serialize(s)| && Serialize(s)[at] == IntTok(|InBucket(s.newTable, bucket)|)
    ensures forall pos: nat | Slot(bucket, pos) in s.newTable ::
      var at := 6 + s.nNew + s.nTried + bucket + 1 + |Earlier(s.newTable, bucket, pos)|;
      at < |Serialize(s)| && Serialize(s)[at] == IntTok(|NewBefore(s.info, s.newTable[Slot(bucket, pos)])|)
  {
    hide Inv, TokensFrom, Serialize, NewTokens, TriedTokens, Earlier, InBucket, NewBefore;
    Parts(s);
    BucketLayout(s, bucket);
    forall pos: nat | Slot(bucket, pos) in s.newTable
      ensures var at := 6 + s.nNew + s.nTried + bucket + 1 + |Earlier(s.newTable, bucket, pos)|;
        at < |Serialize(s)| && Serialize(s)[at] == IntTok(|NewBefore(s.info, s.newTable[Slot(bucket, pos)])|)
    {
      CellLayout(s, Slot(bucket, pos));
    }
  }

  // ---------------------------------------------------------------- the header

  // A header is accepted exactly with a 32-byte key and counts within the sizes of the tables; a
  // negative count of new entries is not part of this model.
  lemma HeadExactly(stream: seq<Token>)
    ensures ReadHead(stream).Head? <==>
      && |stream| >= 6 && stream[0].ByteTok? && stream[1] == ByteTok(32) && stream[2].KeyTok?
      && stream[3].IntTok? && 0 <= stream[3].i <= 65_536
      && stream[4].IntTok? && stream[4].i <= 16_384
      && stream[5].IntTok?
  {
  }

  // The fields are taken as they come; the cells are used only in version 1 with 1024 buckets.
  lemma HeadIs(stream: seq<Token>)
    requires ReadHead(stream).Head?
    ensures var head := ReadHead(stream);
      && head.key == stream[2].key && head.nNew == stream[3].i && head.nTried == stream[4].i
      && (head.usable <==> stream[0].byte == 1 && stream[5].i == 0x4000_0400)
      && (stream[0].byte == 0 ==> head.nUBuckets == stream[5].i)
      && (stream[0].byte != 0 ==>
            && head.nUBuckets % 0x4000_0000 == stream[5].i % 0x4000_0000
            && head.nUBuckets / 0x8000_0000 == stream[5].i / 0x8000_0000
            && (head.nUBuckets / 0x4000_0000 % 2 == 1 <==> stream[5].i / 0x4000_0000 % 2 == 0))
  {
    hide FlipBit30;
    if stream[5].IntTok? {
      FlipIs(stream[5].i);
    }
  }

  // Flipping bit 30 changes no bit below it or above it.
  lemma FlipIs(n: int)
    ensures FlipBit30(n) % 0x4000_0000 == n % 0x4000_0000
    ensures FlipBit30(n) / 0x8000_0000 == n / 0x8000_0000
    ensures FlipBit30(n) / 0x4000_0000 % 2 == 1 <==> n / 0x4000_0000 % 2 == 0
    ensures FlipBit30(n) == 1024 <==> n == 0x4000_0400
  {
    var q, r := n / 0x4000_0000, n % 0x4000_0000;
    assert n == q * 0x4000_0000 + r;
    var p := if q % 2 == 1 then q - 1 else q + 1;
    assert p / 2 == q / 2 && p % 2 == 1 - q % 2;
    Halves(q, r);
    Halves(p, r);
    assert FlipBit30(n) == p * 0x4000_0000 + r;
  }

  lemma Halves(q: int, r: int)
    requires 0 <= r < 0x4000_0000
    ensures var n := q * 0x4000_0000 + r;
      n / 0x4000_0000 == q && n % 0x4000_0000 == r && n / 0x8000_0000 == q / 2
  {
    var n := q * 0x4000_0000 + r;
    IsQuotient(n, 0x4000_0000, q, r);
    IsQuotient(n, 0x8000_0000, q / 2, (q % 2) * 0x4000_0000 + r);
  }
}
