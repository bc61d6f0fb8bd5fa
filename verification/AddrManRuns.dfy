/** What callers of the address manager can rely on, over whole runs. */
module AddrRuns {
  import opened AddrTypes
  import opened AddrState
  import opened AddrSteps
  import opened AddrOps
  import opened AddrBook
  import opened AddrCheck

  // ---------------------------------------------------------------- Check_ over runs

  ghost predicate EntryOk(e: Entry) {
    e.profile.nLastTry >= 0 && e.profile.nLastSuccess >= 0 && (e.place.InTried? ==> e.profile.nLastSuccess != 0)
  }

  ghost predicate BookTimesOk(b: Book) {
    forall ip | ip in b :: EntryOk(b[ip])
  }

  // A success is at a positive time, an attempt at a time that is not negative.
  ghost predicate SaneTime(op: Op) {
    (op.GoodOp? ==> op.nTime > 0) && (op.AttemptOp? ==> op.nTime >= 0)
  }

  lemma TimesInBook(s: State)
    requires Core(s)
    ensures EntryTimesOk(s.info) <==> BookTimesOk(Abs(s))
  {
    forall id | id in s.info
      ensures s.info[id].service.ip in Abs(s) && (GoodTimes(s.info[id]) <==> EntryOk(Abs(s)[s.info[id].service.ip]))
    {
      InBook(s, id);
    }
    forall ip | ip in Abs(s) ensures s.addr[ip] in s.info && s.info[s.addr[ip]].service.ip == ip {
      LookUp(s, ip);
    }
  }

  lemma DisplaceTimes(b: Book, cell: Slot)
    requires BookTimesOk(b)
    ensures BookTimesOk(Displace(b, cell))
  {
  }

  lemma InsertTimes(env: Env, key: Key, b: Book, ip: NetAddr, source: NetAddr, now: int)
    requires ip in b && b[ip].place.InNew? && BookTimesOk(b)
    ensures BookTimesOk(BookInsert(env, key, b, ip, source, now))
  {
    DisplaceTimes(b, NewSlot(env, key, b[ip].profile.service, source));
    assert EntryOk(b[ip]);
    hide Displace, CellAvailable;
  }

  lemma AddTimes(env: Env, key: Key, b: Book, addr: Address, source: NetAddr, penalty: int, now: int, later: int, rnd: nat)
    requires BookTimesOk(b)
    ensures BookTimesOk(BookAdd(env, key, b, addr, source, penalty, now, later, rnd))
  {
    hide BookInsert, IsTerrible;
    var ip := addr.service.ip;
    if env.routable(ip) {
      if ip in b {
        var c := b[ip := b[ip].(profile := Refresh(b[ip].profile, addr, penalty, now))];
        assert EntryOk(b[ip]);
        if !BookKeepsAsIs(c[ip], addr, rnd) {
          InsertTimes(env, key, c, ip, source, later);
        }
      } else {
        var profile := Profile(InfoOf(addr, source)).(nTime := ToTime(Max(0, addr.nTime - penalty)));
        InsertTimes(env, key, b[ip := Entry(profile, InNew({}))], ip, source, later);
      }
    }
  }

  lemma PromoteTimes(env: Env, key: Key, b: Book, ip: NetAddr)
    requires ip in b && BookTimesOk(b) && b[ip].profile.nLastSuccess != 0
    ensures BookTimesOk(BookPromote(env, key, b, ip))
  {
    var out := Move(b, ip, InNew({}));
    var cell := TriedSlot(env, key, b[ip].profile.service);
    assert EntryOk(b[ip]);
    assert BookTimesOk(out);
    assert BookTimesOk(MakeRoom(env, key, out, cell)) by {
      if exists v :: LivesIn(env, key, out, v, cell) {
        var v :| LivesIn(env, key, out, v, cell) && MakeRoom(env, key, out, cell) == Return(env, key, out, v);
        assert EntryOk(out[v]);
        DisplaceTimes(Move(out, v, InNew({})), Home(env, key, out[v]));
      }
    }
  }

  lemma StepTimes(env: Env, key: Key, b: Book, op: Op)
    requires BookTimesOk(b) && SaneTime(op)
    ensures BookTimesOk(BookStep(env, key, b, op))
  {
    hide BookAdd, BookPromote;
    match op
    case AddOp(addr, source, penalty, now, later, rnd) => AddTimes(env, key, b, addr, source, penalty, now, later, rnd);
    case GoodOp(service, nTime, _) =>
      if service.ip in b && b[service.ip].profile.service == service {
        var entry := b[service.ip];
        var c := b[service.ip := entry.(profile := entry.profile.(nLastSuccess := nTime, nLastTry := nTime, nAttempts := 0))];
        PromoteTimes(env, key, c, service.ip);
      }
    case AttemptOp(service, _) => if service.ip in b { assert EntryOk(b[service.ip]); }
    case ConnectedOp(service, _) => if service.ip in b { assert EntryOk(b[service.ip]); }
    case GetAddrOp(_, _) =>
  }

  // After any run with sane times from a fresh object, Check_ finds nothing to complain about but a null key.
  lemma {:induction false} RunsPassCheck(s: State, ops: seq<Op>)
    requires Inv(s) && BookTimesOk(Abs(s)) && forall op | op in ops :: SaneTime(op)
    ensures Inv(Run(s, ops)) && Sound(Run(s, ops)) && EntryTimesOk(Run(s, ops).info)
    decreases |ops|
  {
    if ops == [] {
      TimesInBook(s);
      SoundIsInv(s);
    } else {
      hide Inv, Sound, Abs, Step, BookStep, BookTimesOk, SaneTime, EntryTimesOk;
      StepKeeps(s, ops[0]);
      StepOnBook(s, ops[0]);
      StepTimes(s.env, s.key, Abs(s), ops[0]);
      RunsPassCheck(Step(s, ops[0]), ops[1..]);
    }
  }

  // ---------------------------------------------------------------- who is displaced

  // Adding an address never takes one out of the tried table.
  lemma AddKeepsTried(env: Env, key: Key, b: Book, addr: Address, source: NetAddr, penalty: int, now: int, later: int, rnd: nat, ip: NetAddr)
    requires ip in b && b[ip].place.InTried?
    ensures ip in BookAdd(env, key, b, addr, source, penalty, now, later, rnd)
    ensures BookAdd(env, key, b, addr, source, penalty, now, later, rnd)[ip].place.InTried?
  {
    hide CellAvailable, IsTerrible;
  }

  // v is tried and in the way of the service.
  ghost predicate Evicts(env: Env, key: Key, b: Book, service: Service, v: NetAddr)
    requires v in b
  {
    b[v].place.InTried? && TriedSlot(env, key, b[v].profile.service) == TriedSlot(env, key, service)
  }

  // An address that is lost by marking another one good had its only cell at the home cell of
  // the address that is evicted.
  lemma LostByGood(env: Env, key: Key, b: Book, service: Service, nTime: int, lost: NetAddr)
    requires lost in b && lost !in BookGood(env, key, b, service, nTime)
    ensures service.ip in b && b[service.ip].place.InNew? && lost != service.ip
    ensures exists v :: v in b && Evicts(env, key, b, service, v) && b[lost].place == InNew({Home(env, key, b[v])})
  {
    var entry := b[service.ip];
    var c := b[service.ip := entry.(profile := entry.profile.(nLastSuccess := nTime, nLastTry := nTime, nAttempts := 0))];
    var out := Move(c, service.ip, InNew({}));
    var cell := TriedSlot(env, key, service);
    assert exists v :: LivesIn(env, key, out, v, cell);
    var v :| LivesIn(env, key, out, v, cell) && MakeRoom(env, key, out, cell) == Return(env, key, out, v);
    assert v != service.ip && out[v] == b[v];
    assert Evicts(env, key, b, service, v);
    assert lost != v;
  }

  lemma NewHolderIsOne(s: State, x: NetAddr, y: NetAddr, slot: Slot)
    requires Core(s) && x in Abs(s) && y in Abs(s)
    requires Abs(s)[x].place == InNew({slot}) && Abs(s)[y].place == InNew({slot})
    ensures x == y
  {
    HoldersInBook(s, slot);
    hide Core, Abs;
  }

  lemma EvictedIsOne(s: State, service: Service, v: NetAddr, w: NetAddr)
    requires Core(s) && v in Abs(s) && w in Abs(s)
    requires Evicts(s.env, s.key, Abs(s), service, v) && Evicts(s.env, s.key, Abs(s), service, w)
    ensures v == w
  {
    hide Core, Abs, TriedSlot;
    var cell := TriedSlot(s.env, s.key, service);
    OnlyOneLivesIn(s, cell, v);
    OnlyOneLivesIn(s, cell, w);
  }

  // So Good_ loses at most one address of a consistent manager.
  lemma GoodLosesAtMostOne(s: State, service: Service, nTime: int, start: nat, x: NetAddr, y: NetAddr)
    requires Inv(s) && x in Abs(s) && y in Abs(s)
    requires x !in Abs(Good(s, service, nTime, start)) && y !in Abs(Good(s, service, nTime, start))
    ensures x == y
  {
    InvIsCore(s);
    hide Inv, Core, Abs, Good, BookGood, Evicts, Home;
    GoodOnBook(s, service, nTime, start);
    var env, key, b := s.env, s.key, Abs(s);
    LostByGood(env, key, b, service, nTime, x);
    LostByGood(env, key, b, service, nTime, y);
    var v :| v in b && Evicts(env, key, b, service, v) && b[x].place == InNew({Home(env, key, b[v])});
    var w :| w in b && Evicts(env, key, b, service, w) && b[y].place == InNew({Home(env, key, b[w])});
    EvictedIsOne(s, service, v, w);
    NewHolderIsOne(s, x, y, Home(env, key, b[v]));
  }

  // ---------------------------------------------------------------- what GetAddr_ returns

  // The entries worth returning among the first k listed ones.
  ghost function Decent(info: map<int, AddrInfo>, random: seq<int>, now: int, k: nat): seq<AddrInfo>
    requires k <= |random| && forall i | 0 <= i < |random| :: random[i] in info
  {
    if k == 0 then [] else
      var ai := info[random[k - 1]];
      Decent(info, random, now, k - 1) + if IsTerrible(ai, now) then [] else [ai]
  }

  lemma {:induction false} DecentDependsOnPrefix(a: map<int, AddrInfo>, ra: seq<int>, b: map<int, AddrInfo>, rb: seq<int>, now: int, k: nat)
    requires k <= |ra| && k <= |rb|
    requires (forall i | 0 <= i < |ra| :: ra[i] in a) && (forall i | 0 <= i < |rb| :: rb[i] in b)
    requires forall i | 0 <= i < k :: ra[i] == rb[i] && a[ra[i]] == b[rb[i]]
    ensures Decent(a, ra, now, k) == Decent(b, rb, now, k)
  {
    if k > 0 {
      DecentDependsOnPrefix(a, ra, b, rb, now, k - 1);
    }
  }

  lemma RoundAdds(s: State, list: seq<AddrInfo>, now: int, n: nat, pick: nat)
    requires RandomOk(s.info, s.random) && n < |s.random|
    requires list == Decent(s.info, s.random, now, n) && |list| < Quota(|s.random|)
    ensures var r := GetAddrRound(s, list, now, n, pick); r.1 == Decent(r.0.info, r.0.random, now, n + 1)
  {
    var pos := PickPosition(pick, n, |s.random|);
    SwapPositions(s, n, pos);
    var t := SwapRandom(s, n, pos);
    forall i | 0 <= i < n ensures t.random[i] == s.random[i] && t.info[t.random[i]] == s.info[s.random[i]] {
      assert s.info[s.random[i]].nRandomPos == i;
    }
    hide RandomOk, SwapRandom, IsTerrible;
    DecentDependsOnPrefix(s.info, s.random, t.info, t.random, now, n);
  }

  // GetAddr_ returns decent entries off the front of the reshuffled vRandom, which lists every
  // entry once; at most the quota, and all decent ones if the quota is not reached.
  lemma {:induction false} GetAddrReturns(s: State, now: int, picks: nat -> nat, n: nat) returns (k: nat)
    requires RandomOk(s.info, s.random) && n <= |s.random|
    ensures k <= n && |GetAddr(s, now, picks, n).1| <= Quota(|s.random|)
    ensures var r := GetAddr(s, now, picks, n); r.1 == Decent(r.0.info, r.0.random, now, k)
    ensures |GetAddr(s, now, picks, n).1| < Quota(|s.random|) ==> k == n
  {
    hide RandomOk, GetAddrRound, IsTerrible, Quota;
    if n == 0 {
      k := 0;
      QuotaIsNat(|s.random|);
    } else {
      k := GetAddrReturns(s, now, picks, n - 1);
      var r := GetAddr(s, now, picks, n - 1);
      if |r.1| < Quota(|s.random|) {
        RoundAdds(r.0, r.1, now, n - 1, picks(n - 1));
        RoundAddsOne(r.0, r.1, now, n - 1, picks(n - 1));
        k := n;
      } else {
        RoundStopped(r.0, r.1, now, n - 1, picks(n - 1));
      }
    }
  }

  lemma QuotaIsNat(size: nat)
    ensures 0 <= Quota(size)
  {
  }

  lemma RoundAddsOne(s: State, list: seq<AddrInfo>, now: int, n: nat, pick: nat)
    requires RandomOk(s.info, s.random) && n < |s.random|
    ensures |GetAddrRound(s, list, now, n, pick).1| <= |list| + 1
  {
  }
}
