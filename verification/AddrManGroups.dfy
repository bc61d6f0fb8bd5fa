/** The design goal of the buckets: no address range can fill the tables.  What one range tells
    us about fits 64 of the 1024 new buckets and displaces nothing from the others; the
    addresses of one range fit 8 of the 256 tried buckets. */
module AddrGroups {
  import opened Numbers
  import opened AddrTypes
  import opened AddrState
  import opened AddrSteps
  import opened AddrOps
  import opened AddrBook
  import opened AddrLaws
  import opened AddrCheck

  // The first n buckets of a source range, and of a range.
  ghost function NewPicks(env: Env, key: Key, g: Group, n: nat): (r: set<nat>)
    ensures |r| <= n && forall i | 0 <= i < n :: env.newHash2(key, g, i) % 1024 in r
  {
    if n == 0 then {} else NewPicks(env, key, g, n - 1) + {env.newHash2(key, g, n - 1) % 1024}
  }

  ghost function TriedPicks(env: Env, key: Key, g: Group, n: nat): (r: set<nat>)
    ensures |r| <= n && forall i | 0 <= i < n :: env.triedHash2(key, g, i) % 256 in r
  {
    if n == 0 then {} else TriedPicks(env, key, g, n - 1) + {env.triedHash2(key, g, n - 1) % 256}
  }

  // The new buckets of a source range, and the tried buckets of a range.
  ghost function NewBuckets(env: Env, key: Key, g: Group): (r: set<nat>)
    ensures |r| <= 64
  {
    NewPicks(env, key, g, 64)
  }

  ghost function TriedBuckets(env: Env, key: Key, g: Group): (r: set<nat>)
    ensures |r| <= 8
  {
    TriedPicks(env, key, g, 8)
  }

  lemma CellOfGroup(env: Env, key: Key, service: Service, source: NetAddr)
    ensures NewSlot(env, key, service, source).bucket in NewBuckets(env, key, env.group(source))
    ensures TriedSlot(env, key, service).bucket in TriedBuckets(env, key, env.group(service.ip))
  {
  }

  // ---------------------------------------------------------------- counting cells

  lemma {:induction false} OneBucket(cells: set<Slot>, b: nat, n: nat)
    requires forall c | c in cells :: c.bucket == b && c.pos < n
    ensures |cells| <= n
  {
    if n == 0 {
      assert forall c :: c !in cells;
      assert cells == {};
    } else {
      OneBucket(cells - {Slot(b, n - 1)}, b, n - 1);
    }
  }

  lemma {:induction false} CellsInBuckets(cells: set<Slot>, buckets: set<nat>)
    requires forall c | c in cells :: c.bucket in buckets && c.pos < 64
    ensures |cells| <= 64 * |buckets|
    decreases |buckets|
  {
    if buckets == {} {
      assert forall c :: c !in cells;
      assert cells == {};
    } else {
      var b :| b in buckets;
      var here := set c | c in cells && c.bucket == b;
      OneBucket(here, b, 64);
      CellsInBuckets(cells - here, buckets - {b});
      assert cells == here + (cells - here);
    }
  }

  // ---------------------------------------------------------------- what one source range can do

  // Everything in the book was told by one range, and sits in its buckets.
  ghost predicate FromGroup(env: Env, key: Key, b: Book, g: Group) {
    forall ip | ip in b :: EntryFrom(env, key, b[ip], g)
  }

  ghost predicate EntryFrom(env: Env, key: Key, e: Entry, g: Group) {
    env.group(e.profile.source) == g && (e.place.InNew? ==> CellsIn(e.place.cells, NewBuckets(env, key, g)))
  }

  ghost predicate CellsIn(cells: set<Slot>, buckets: set<nat>) {
    forall c | c in cells :: c.bucket in buckets
  }

  lemma DisplaceFrom(env: Env, key: Key, b: Book, cell: Slot, g: Group)
    requires FromGroup(env, key, b, g)
    ensures FromGroup(env, key, Displace(b, cell), g)
  {
    hide NewBuckets;
    forall ip | ip in Displace(b, cell) ensures EntryFrom(env, key, Displace(b, cell)[ip], g) {
      assert EntryFrom(env, key, b[ip], g);
    }
  }

  lemma InsertFrom(env: Env, key: Key, b: Book, ip: NetAddr, source: NetAddr, now: int, g: Group)
    requires ip in b && b[ip].place.InNew? && FromGroup(env, key, b, g) && env.group(source) == g
    ensures FromGroup(env, key, BookInsert(env, key, b, ip, source, now), g)
  {
    var cell := NewSlot(env, key, b[ip].profile.service, source);
    CellOfGroup(env, key, b[ip].profile.service, source);
    DisplaceFrom(env, key, b, cell, g);
    assert EntryFrom(env, key, b[ip], g);
    hide Displace, CellAvailable, NewSlot, NewBuckets;
  }

  lemma AddFrom(env: Env, key: Key, b: Book, addr: Address, source: NetAddr, penalty: int, now: int, later: int, rnd: nat, g: Group)
    requires FromGroup(env, key, b, g) && env.group(source) == g
    ensures FromGroup(env, key, BookAdd(env, key, b, addr, source, penalty, now, later, rnd), g)
  {
    hide BookInsert, IsTerrible, NewBuckets;
    var ip := addr.service.ip;
    if env.routable(ip) {
      if ip in b {
        var c := b[ip := b[ip].(profile := Refresh(b[ip].profile, addr, penalty, now))];
        assert EntryFrom(env, key, b[ip], g);
        if !BookKeepsAsIs(c[ip], addr, rnd) {
          InsertFrom(env, key, c, ip, source, later, g);
        }
      } else {
        var profile := Profile(InfoOf(addr, source)).(nTime := ToTime(Max(0, addr.nTime - penalty)));
        InsertFrom(env, key, b[ip := Entry(profile, InNew({}))], ip, source, later, g);
      }
    }
  }

  lemma ReturnFrom(env: Env, key: Key, b: Book, v: NetAddr, g: Group)
    requires v in b && FromGroup(env, key, b, g)
    ensures FromGroup(env, key, Return(env, key, b, v), g)
  {
    assert EntryFrom(env, key, b[v], g);
    CellOfGroup(env, key, b[v].profile.service, b[v].profile.source);
    DisplaceFrom(env, key, Move(b, v, InNew({})), Home(env, key, b[v]), g);
    hide Displace, NewSlot, NewBuckets;
  }

  lemma PromoteFrom(env: Env, key: Key, b: Book, ip: NetAddr, g: Group)
    requires ip in b && FromGroup(env, key, b, g)
    ensures FromGroup(env, key, BookPromote(env, key, b, ip), g)
  {
    hide NewBuckets, Return, TriedSlot;
    var out := Move(b, ip, InNew({}));
    var cell := TriedSlot(env, key, b[ip].profile.service);
    assert EntryFrom(env, key, b[ip], g);
    assert FromGroup(env, key, out, g);
    assert FromGroup(env, key, MakeRoom(env, key, out, cell), g) by {
      if exists v :: LivesIn(env, key, out, v, cell) {
        var v :| LivesIn(env, key, out, v, cell) && MakeRoom(env, key, out, cell) == Return(env, key, out, v);
        ReturnFrom(env, key, out, v, g);
      }
    }
  }

  // Whatever is added comes from the range.
  ghost predicate AddsFrom(env: Env, op: Op, g: Group) {
    op.AddOp? ==> env.group(op.source) == g
  }

  lemma StepFrom(env: Env, key: Key, b: Book, op: Op, g: Group)
    requires FromGroup(env, key, b, g) && AddsFrom(env, op, g)
    ensures FromGroup(env, key, BookStep(env, key, b, op), g)
  {
    hide BookAdd, BookPromote, NewBuckets;
    match op
    case AddOp(addr, source, penalty, now, later, rnd) => AddFrom(env, key, b, addr, source, penalty, now, later, rnd, g);
    case GoodOp(service, nTime, _) =>
      if service.ip in b && b[service.ip].profile.service == service {
        var entry := b[service.ip];
        assert EntryFrom(env, key, entry, g);
        var c := b[service.ip := entry.(profile := entry.profile.(nLastSuccess := nTime, nLastTry := nTime, nAttempts := 0))];
        PromoteFrom(env, key, c, service.ip, g);
      }
    case AttemptOp(service, _) => if service.ip in b { assert EntryFrom(env, key, b[service.ip], g); }
    case ConnectedOp(service, _) => if service.ip in b { assert EntryFrom(env, key, b[service.ip], g); }
    case GetAddrOp(_, _) =>
  }

  lemma {:induction false} RunFrom(env: Env, key: Key, b: Book, ops: seq<Op>, g: Group)
    requires FromGroup(env, key, b, g) && forall op | op in ops :: AddsFrom(env, op, g)
    ensures FromGroup(env, key, BookRun(env, key, b, ops), g)
    decreases |ops|
  {
    hide FromGroup, AddsFrom, BookStep;
    if ops != [] {
      StepFrom(env, key, b, ops[0], g);
      RunFrom(env, key, BookStep(env, key, b, ops[0]), ops[1..], g);
    }
  }

  lemma CellsOfBook(s: State, buckets: set<nat>)
    requires Core(s)
    requires forall ip | ip in Abs(s) && Abs(s)[ip].place.InNew? :: CellsIn(Abs(s)[ip].place.cells, buckets)
    ensures forall c | c in s.newTable :: c.bucket in buckets && c.pos < 64
  {
    forall c | c in s.newTable ensures c.bucket in buckets && c.pos < 64 {
      HeldCells(s, c);
    }
  }

  // However long a new manager is told of addresses by one range, and whatever is marked good in
  // between: they occupy at most 64 of the 1024 buckets, so at most 4096 cells.
  lemma OneSourceFillsFew(env: Env, key: Key, ops: seq<Op>, g: Group)
    requires forall op | op in ops :: AddsFrom(env, op, g)
    ensures Inv(Init(env, key))
    ensures var t := Run(Init(env, key), ops);
      (forall c | c in t.newTable :: c.bucket in NewBuckets(env, key, g)) && |t.newTable| <= 4096
    ensures |NewBuckets(env, key, g)| <= 64
  {
    InitInv(env, key);
    var s := Init(env, key);
    assert Abs(s) == map[];
    hide Inv, Core, Abs, Run, BookRun, NewBuckets, AddsFrom, Init;
    RunFrom(env, key, map[], ops, g);
    RunOnBook(s, ops);
    RunKeepsKeys(s, ops);
    InitKeys(env, key);
    var t := Run(s, ops);
    InvIsCore(t);
    assert forall ip | ip in Abs(t) :: EntryFrom(env, key, Abs(t)[ip], g);
    CellsOfBook(t, NewBuckets(env, key, g));
    CellsInBuckets(t.newTable.Keys, NewBuckets(env, key, g));
    assert |t.newTable| == |t.newTable.Keys|;
  }

  lemma InitKeys(env: Env, key: Key)
    ensures Init(env, key).env == env && Init(env, key).key == key
  {
  }

  lemma {:induction false} RunKeepsKeys(s: State, ops: seq<Op>)
    requires Inv(s)
    ensures Inv(Run(s, ops)) && Run(s, ops).env == s.env && Run(s, ops).key == s.key
    decreases |ops|
  {
    hide Inv, Step;
    if ops != [] {
      InvIsCore(s);
      StepKeeps(s, ops[0]);
      StepKeepsKeys(s, ops[0]);
      RunKeepsKeys(Step(s, ops[0]), ops[1..]);
    }
  }

  // ---------------------------------------------------------------- what is out of reach

  // Adding an address told by a range leaves every cell outside the buckets of that range with
  // whoever holds it, and every tried address tried.
  lemma AddLeaves(s: State, addr: Address, source: NetAddr, penalty: int, now: int, later: int, rnd: nat, ip: NetAddr, cell: Slot)
    requires Inv(s) && cell.bucket !in NewBuckets(s.env, s.key, s.env.group(source))
    ensures Holds(Abs(s), ip, cell) ==> Holds(Added(s, addr, source, penalty, now, later, rnd), ip, cell)
  {
    AddAndOthers(s, addr, source, penalty, now, later, rnd);
    var to := NewSlot(s.env, s.key, if addr.service.ip in Abs(s) then Abs(s)[addr.service.ip].profile.service else addr.service, source);
    CellOfGroup(s.env, s.key, if addr.service.ip in Abs(s) then Abs(s)[addr.service.ip].profile.service else addr.service, source);
    assert to != cell;
    AddedNothing(s, addr, source, penalty, now, later, rnd);
    hide Inv, Abs, Added, NewSlot, NewBuckets, Pow, IsTerrible;
    if Holds(Abs(s), ip, cell) {
      if ip != addr.service.ip {
        OtherHolds(Abs(s), Added(s, addr, source, penalty, now, later, rnd), addr.service.ip, to, ip, cell);
      } else if s.env.routable(ip) {
        KnownCells(s, addr, source, penalty, now, later, rnd);
      }
    }
  }

  lemma OtherHolds(b: Book, c: Book, other: NetAddr, to: Slot, ip: NetAddr, cell: Slot)
    requires OthersYield(b, c, other, to) || OthersStay(b, c, other)
    requires Holds(b, ip, cell) && ip != other && cell != to
    ensures Holds(c, ip, cell)
  {
    if OthersStay(b, c, other) {
      KeptByStaying(b, c, other, ip);
    }
  }

  lemma TriedStays(s: State, addr: Address, source: NetAddr, penalty: int, now: int, later: int, rnd: nat, ip: NetAddr)
    requires Inv(s) && ip in Abs(s) && Abs(s)[ip].place.InTried?
    ensures ip in Added(s, addr, source, penalty, now, later, rnd)
    ensures Added(s, addr, source, penalty, now, later, rnd)[ip].place.InTried?
  {
    AddAndOthers(s, addr, source, penalty, now, later, rnd);
    AddedNothing(s, addr, source, penalty, now, later, rnd);
    hide Inv, Abs, Added, NewSlot, Pow, IsTerrible;
    if ip == addr.service.ip {
      if s.env.routable(ip) {
        KnownCells(s, addr, source, penalty, now, later, rnd);
      }
    } else if OthersStay(Abs(s), Added(s, addr, source, penalty, now, later, rnd), addr.service.ip) {
      KeptByStaying(Abs(s), Added(s, addr, source, penalty, now, later, rnd), addr.service.ip, ip);
    }
  }

  // So do any number of them: a range cannot displace anything outside its own buckets.
  lemma {:induction false} FloodLeaves(s: State, ops: seq<Op>, g: Group, ip: NetAddr, cell: Slot)
    requires Inv(s) && cell.bucket !in NewBuckets(s.env, s.key, g)
    requires forall op | op in ops :: op.AddOp? && AddsFrom(s.env, op, g)
    ensures Holds(Abs(s), ip, cell) ==> Holds(Abs(Run(s, ops)), ip, cell)
    ensures ip in Abs(s) && Abs(s)[ip].place.InTried? ==> ip in Abs(Run(s, ops)) && Abs(Run(s, ops))[ip].place.InTried?
    decreases |ops|
  {
    hide Inv, Abs, NewBuckets, Holds, Add;
    if ops != [] {
      assert ops[0].AddOp? && AddsFrom(s.env, ops[0], g);
      var AddOp(addr, source, penalty, now, later, rnd) := ops[0];
      InvIsCore(s);
      StepKeeps(s, ops[0]);
      StepKeepsKeys(s, ops[0]);
      AddLeaves(s, addr, source, penalty, now, later, rnd, ip, cell);
      if ip in Abs(s) && Abs(s)[ip].place.InTried? {
        TriedStays(s, addr, source, penalty, now, later, rnd, ip);
      }
      FloodLeaves(Step(s, ops[0]), ops[1..], g, ip, cell);
    }
  }

  // ---------------------------------------------------------------- tried addresses of one range

  ghost function TriedOfRange(s: State, g: Group): set<int> {
    set id | id in s.info && s.info[id].fInTried && s.env.group(s.info[id].service.ip) == g
  }

  ghost function HomesOf(s: State, ids: set<int>): set<Slot>
    requires ids <= TriedIds(s.info)
  {
    set id | id in ids :: TriedSlot(s.env, s.key, s.info[id].service)
  }

  lemma {:induction false} CellsOfIds(s: State, ids: set<int>)
    requires Core(s) && ids <= TriedIds(s.info)
    ensures |HomesOf(s, ids)| == |ids|
    decreases |ids|
  {
    hide Core, TriedIds;
    if ids == {} {
      assert HomesOf(s, ids) == {};
    } else {
      NotEmpty(ids);
      var x :| x in ids;
      TakeHome(s, ids, x);
      hide HomesOf;
      CellsOfIds(s, ids - {x});
    }
  }

  lemma TakeHome(s: State, ids: set<int>, x: int)
    requires Core(s) && ids <= TriedIds(s.info) && x in ids
    ensures x in s.info
    ensures var home := TriedSlot(s.env, s.key, s.info[x].service);
      HomesOf(s, ids) == HomesOf(s, ids - {x}) + {home} && home !in HomesOf(s, ids - {x})
  {
    HomesDiffer(s, ids, x);
    hide Core, TriedSlot;
  }

  lemma HomesDiffer(s: State, ids: set<int>, x: int)
    requires Core(s) && ids <= TriedIds(s.info) && x in ids
    ensures forall id | id in ids && id != x :: TriedSlot(s.env, s.key, s.info[id].service) != TriedSlot(s.env, s.key, s.info[x].service)
  {
    hide TriedSlot;
  }

  // At most 8 buckets of 64 hold the tried addresses of one range, however many there are.
  lemma OneRangeFillsFew(s: State, g: Group)
    requires Inv(s)
    ensures |TriedOfRange(s, g)| <= 512
    ensures forall id | id in TriedOfRange(s, g) :: TriedSlot(s.env, s.key, s.info[id].service).bucket in TriedBuckets(s.env, s.key, g)
    ensures |TriedBuckets(s.env, s.key, g)| <= 8
  {
    InvIsCore(s);
    hide Inv, Core;
    var ids := TriedOfRange(s, g);
    var cells := HomesOf(s, ids);
    forall id | id in ids
      ensures TriedSlot(s.env, s.key, s.info[id].service).bucket in TriedBuckets(s.env, s.key, g)
      ensures TriedSlot(s.env, s.key, s.info[id].service).pos < 64
    {
      CellOfGroup(s.env, s.key, s.info[id].service, s.info[id].source);
    }
    CellsOfIds(s, ids);
    hide TriedSlot, TriedBuckets;
    CellsInBuckets(cells, TriedBuckets(s.env, s.key, g));
  }
}
