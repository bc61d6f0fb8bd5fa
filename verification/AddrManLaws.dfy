/** What the operations of the address manager do to one address, in the seconds, cells and
    counts of the peer-to-peer network: the address book before and after each call. */
module AddrLaws {
  import opened Numbers
  import opened AddrTypes
  import opened AddrState
  import opened AddrSteps
  import opened AddrOps
  import opened AddrBook
  import opened AddrRuns

  // ---------------------------------------------------------------- cells

  // The bucket depends on the ranges of the address and of who told of it, and among those of one
  // source range takes one of 64; the position depends on the bucket and the service.
  lemma NewCellIs(env: Env, key: Key, service: Service, source: NetAddr)
    ensures var pick := env.newHash1(key, env.group(service.ip), env.group(source)) % 64;
      var bucket := env.newHash2(key, env.group(source), pick) % 1024;
      NewSlot(env, key, service, source) == Slot(bucket, env.positionHash(key, true, bucket, service) % 64)
  {
  }

  lemma TriedCellIs(env: Env, key: Key, service: Service)
    ensures var pick := env.triedHash1(key, service) % 8;
      var bucket := env.triedHash2(key, env.group(service.ip), pick) % 256;
      TriedSlot(env, key, service) == Slot(bucket, env.positionHash(key, false, bucket, service) % 64)
  {
  }

  // ---------------------------------------------------------------- what is worth keeping

  // Tried in the last minute; or seen within thirty days and not more than ten minutes ahead,
  // with fewer than three attempts or a success, and fewer than ten or a success within a week.
  lemma DecentExactly(info: AddrInfo, now: int)
    ensures !IsTerrible(info, now) <==>
      || (info.nLastTry != 0 && now <= info.nLastTry + 60)
      || (&& info.nTime != 0 && now - 2_592_000 <= info.nTime <= now + 600
          && (info.nAttempts < 3 || info.nLastSuccess != 0)
          && (info.nAttempts < 10 || now <= info.nLastSuccess + 604_800))
  {
  }

  // ---------------------------------------------------------------- Add_ on the book

  // The time an announcement leaves: the announced one less the penalty, in 32 bits.
  function Announced(addr: Address, penalty: int): int {
    (if penalty < addr.nTime then addr.nTime - penalty else 0) % 0x1_0000_0000
  }

  // The announcement is news for an entry last seen at a time: an hour for a peer that is
  // online, a day for others.
  predicate IsNews(addr: Address, seen: int, penalty: int, now: int) {
    addr.nTime != 0 && (seen == 0 || addr.nTime - seen > penalty + if now - addr.nTime < 86_400 then 3_600 else 86_400)
  }

  lemma RefreshedProfile(info: AddrInfo, addr: Address, penalty: int, now: int)
    ensures Refresh(info, addr, penalty, now) ==
      info.(services := info.services + addr.services,
            nTime := if IsNews(addr, info.nTime, penalty, now) then Announced(addr, penalty) else info.nTime)
  {
  }

  ghost predicate HasCells(b: Book) {
    forall ip | ip in b && b[ip].place.InNew? :: b[ip].place.cells != {}
  }

  lemma EveryEntryHasACell(s: State)
    requires Inv(s)
    ensures HasCells(Abs(s))
  {
    forall ip | ip in Abs(s) && Abs(s)[ip].place.InNew? ensures Abs(s)[ip].place.cells != {} {
      LookUp(s, ip);
      var id := s.addr[ip];
      assert id !in Orphans(s.info);
      assert s.info[id].nRefCount == |SlotsOf(s.newTable, id)|;
    }
  }

  // The cell is free for a newcomer that has others already: whoever holds it is terrible.
  ghost predicate HeldByTerrible(b: Book, cell: Slot, now: int) {
    forall ip | Holds(b, ip, cell) :: IsTerrible(b[ip].profile, now)
  }

  // The cell is free for a newcomer without any: whoever holds it is terrible or has others.
  ghost predicate HeldLoosely(b: Book, cell: Slot, now: int) {
    forall ip | Holds(b, ip, cell) :: IsTerrible(b[ip].profile, now) || |b[ip].place.cells| > 1
  }

  // Everyone but one address stands as before, except that they give the cell up.
  ghost predicate OthersYield(b: Book, c: Book, ip: NetAddr, cell: Slot) {
    && (forall k | k in c && k != ip :: k in b)
    && (forall k | k in b && k != ip ::
      && (k in c <==> b[k].place != InNew({cell}))
      && (k in c ==> c[k].profile == b[k].profile && SamePlaceBut(b[k].place, c[k].place, cell)))
  }

  ghost predicate SamePlaceBut(before: Place, after: Place, cell: Slot) {
    match before
    case InTried => after == InTried
    case InNew(cells) => after == InNew(cells - {cell})
  }

  ghost predicate OthersStay(b: Book, c: Book, ip: NetAddr) {
    b - {ip} == c - {ip}
  }

  // The three outcomes of placing an entry.
  lemma Inserted(env: Env, key: Key, b: Book, ip: NetAddr, source: NetAddr, now: int)
    requires ip in b && b[ip].place.InNew?
    ensures var c := BookInsert(env, key, b, ip, source, now);
      var cell := NewSlot(env, key, b[ip].profile.service, source);
      var cells := b[ip].place.cells;
      if cell !in cells && CellAvailable(b, cell, cells, now) then
        ip in c && c[ip] == Entry(b[ip].profile, InNew(cells + {cell})) && OthersYield(b, c, ip, cell)
      else if cells == {} then
        ip !in c && OthersStay(b, c, ip)
      else
        ip in c && c[ip] == b[ip] && OthersStay(b, c, ip)
  {
    hide CellAvailable, IsTerrible, NewSlot;
  }

  // ---------------------------------------------------------------- Add_ of a known address

  ghost predicate KnownToBook(s: State, addr: Address) {
    s.env.routable(addr.service.ip) && addr.service.ip in Abs(s)
  }

  // The book after Add_.
  ghost function Added(s: State, addr: Address, source: NetAddr, penalty: int, now: int, later: int, rnd: nat): Book
    requires Inv(s)
  {
    Abs(Add(s, addr, source, penalty, now, later, rnd).0)
  }

  // The lines of a known address and of the others after an addition to the book.
  lemma KnownLine(env: Env, key: Key, b: Book, addr: Address, source: NetAddr, penalty: int, now: int, later: int, rnd: nat)
    requires env.routable(addr.service.ip) && addr.service.ip in b && HasCells(b)
    ensures var ip := addr.service.ip;
      var d := b[ip := b[ip].(profile := Refresh(b[ip].profile, addr, penalty, now))];
      var c := BookAdd(env, key, b, addr, source, penalty, now, later, rnd);
      var cell := NewSlot(env, key, b[ip].profile.service, source);
      if d[ip].place.InNew? && cell !in d[ip].place.cells && !BookKeepsAsIs(d[ip], addr, rnd) && HeldByTerrible(d, cell, later) then
        ip in c && c[ip] == Entry(d[ip].profile, InNew(d[ip].place.cells + {cell})) && OthersYield(d, c, ip, cell)
      else
        c == d
  {
    hide NewSlot, IsTerrible, Refresh;
    var ip := addr.service.ip;
    var d := b[ip := b[ip].(profile := Refresh(b[ip].profile, addr, penalty, now))];
    if !BookKeepsAsIs(d[ip], addr, rnd) {
      assert d[ip].place.InNew? && d[ip].place.cells != {};
      Inserted(env, key, d, ip, source, later);
      SameService(b[ip].profile, addr, penalty, now);
    }
  }

  lemma SameService(info: AddrInfo, addr: Address, penalty: int, now: int)
    ensures Refresh(info, addr, penalty, now).service == info.service
  {
  }

  // Everything about the entry but its time, services and cells stays; the services are joined.
  lemma KnownKeepsProfile(s: State, addr: Address, source: NetAddr, penalty: int, now: int, later: int, rnd: nat)
    requires Inv(s) && KnownToBook(s, addr)
    ensures !Add(s, addr, source, penalty, now, later, rnd).1
    ensures var ip, c := addr.service.ip, Added(s, addr, source, penalty, now, later, rnd);
      ip in c && c[ip].profile == Abs(s)[ip].profile.(services := Abs(s)[ip].profile.services + addr.services, nTime := c[ip].profile.nTime)
  {
    hide Inv, Abs, Add, BookAdd, NewSlot, IsNews, Announced, Refresh, BookKeepsAsIs, HeldByTerrible, OthersYield;
    EveryEntryHasACell(s);
    AddOnBook(s, addr, source, penalty, now, later, rnd);
    KnownLine(s.env, s.key, Abs(s), addr, source, penalty, now, later, rnd);
    RefreshedProfile(Abs(s)[addr.service.ip].profile, addr, penalty, now);
  }

  // The time of the entry moves to the announced one exactly if that is news.
  lemma KnownTime(s: State, addr: Address, source: NetAddr, penalty: int, now: int, later: int, rnd: nat)
    requires Inv(s) && KnownToBook(s, addr)
    ensures var ip, c := addr.service.ip, Added(s, addr, source, penalty, now, later, rnd);
      ip in c && c[ip].profile.nTime ==
        if IsNews(addr, Abs(s)[ip].profile.nTime, penalty, now) then Announced(addr, penalty) else Abs(s)[ip].profile.nTime
  {
    hide Inv, Abs, Add, BookAdd, NewSlot, IsNews, Announced, Refresh, BookKeepsAsIs, HeldByTerrible, OthersYield;
    EveryEntryHasACell(s);
    AddOnBook(s, addr, source, penalty, now, later, rnd);
    KnownLine(s.env, s.key, Abs(s), addr, source, penalty, now, later, rnd);
    RefreshedProfile(Abs(s)[addr.service.ip].profile, addr, penalty, now);
  }

  // When the stored time changes, what it changes to, and what it is at least.
  lemma KnownTimeMoves(s: State, addr: Address, source: NetAddr, penalty: int, now: int, later: int, rnd: nat)
    requires Inv(s) && KnownToBook(s, addr)
    ensures addr.service.ip in Added(s, addr, source, penalty, now, later, rnd)
    ensures var t := Abs(s)[addr.service.ip].profile.nTime;
      var u := Added(s, addr, source, penalty, now, later, rnd)[addr.service.ip].profile.nTime;
      && (addr.nTime == 0 ==> u == t)
      && (u != t ==> u == (if addr.nTime <= penalty then 0 else addr.nTime - penalty) % 0x1_0000_0000)
      && (u != t && now - addr.nTime >= 86_400 ==> t == 0 || t + 86_400 + penalty < addr.nTime)
      && (u != t ==> t == 0 || t + 3_600 + penalty < addr.nTime)
      && (addr.nTime != 0 && addr.nTime - penalty < 0x1_0000_0000 ==>
            && u >= t
            && (t == 0 ==> u >= addr.nTime - penalty)
            && u >= addr.nTime - penalty - 86_400
            && (now - addr.nTime < 86_400 ==> u >= addr.nTime - penalty - 3_600))
  {
    hide Inv, Abs, Add;
    KnownTime(s, addr, source, penalty, now, later, rnd);
    AnnouncedIs(addr, penalty);
  }

  lemma AnnouncedIs(addr: Address, penalty: int)
    ensures addr.nTime - penalty < 0x1_0000_0000 ==> Announced(addr, penalty) == if penalty < addr.nTime then addr.nTime - penalty else 0
  {
  }

  // The stored time falls exactly where a negative penalty carries the announced one beyond 32
  // bits; never with a penalty that is not negative.
  lemma KnownTimeFallsIff(s: State, addr: Address, source: NetAddr, penalty: int, now: int, later: int, rnd: nat)
    requires Inv(s) && KnownToBook(s, addr)
    ensures addr.service.ip in Added(s, addr, source, penalty, now, later, rnd)
    ensures var t := Abs(s)[addr.service.ip].profile.nTime;
      var u := Added(s, addr, source, penalty, now, later, rnd)[addr.service.ip].profile.nTime;
      && (u < t <==>
            && addr.nTime != 0 && addr.nTime - penalty >= 0x1_0000_0000
            && (addr.nTime - penalty) % 0x1_0000_0000 < t
            && t + penalty + (if now - addr.nTime < 86_400 then 3_600 else 86_400) < addr.nTime)
      && (penalty >= 0 ==> t <= u)
  {
    hide Inv, Abs, Add;
    KnownTime(s, addr, source, penalty, now, later, rnd);
    AnnouncedIs(addr, penalty);
  }

  // A known address gains the cell of this source exactly if it is not tried, the announcement is
  // newer than the stored time, it has fewer than eight cells, the draw is a multiple of two to
  // their number, and whoever holds the cell is terrible.
  lemma KnownCells(s: State, addr: Address, source: NetAddr, penalty: int, now: int, later: int, rnd: nat)
    requires Inv(s) && KnownToBook(s, addr)
    ensures addr.service.ip in Added(s, addr, source, penalty, now, later, rnd)
    ensures var ip := addr.service.ip;
      var e, f := Abs(s)[ip], Added(s, addr, source, penalty, now, later, rnd)[ip];
      var cell := NewSlot(s.env, s.key, e.profile.service, source);
      match e.place
      case InTried => f.place == InTried
      case InNew(cells) =>
        && f.place.InNew? && cells <= f.place.cells <= cells + {cell}
        && (cell in f.place.cells <==>
              || cell in cells
              || (&& addr.nTime != 0 && (f.profile.nTime == 0 || f.profile.nTime < addr.nTime)
                  && |cells| < 8 && rnd % Pow(2, |cells|) == 0
                  && HeldByTerrible(Abs(s), cell, later)))
  {
    hide Inv, Abs, Add, BookAdd, NewSlot, IsTerrible, Refresh, OthersYield, Pow;
    EveryEntryHasACell(s);
    AddOnBook(s, addr, source, penalty, now, later, rnd);
    KnownLine(s.env, s.key, Abs(s), addr, source, penalty, now, later, rnd);
    var place := Abs(s)[addr.service.ip].place;
    var cell := NewSlot(s.env, s.key, Abs(s)[addr.service.ip].profile.service, source);
    if place.InNew? {
      CellsBounded(s, addr.service.ip);
      if cell !in place.cells {
        HeldRefreshed(Abs(s), addr, penalty, now, cell, later);
      }
    }
    hide HeldByTerrible;
  }

  lemma CellsBounded(s: State, ip: NetAddr)
    requires Inv(s) && ip in Abs(s) && Abs(s)[ip].place.InNew?
    ensures |Abs(s)[ip].place.cells| <= 8
  {
    LookUp(s, ip);
    RefsBounded(s, s.addr[ip]);
  }

  // The refreshed entry does not stand in the way of itself.
  lemma HeldRefreshed(b: Book, addr: Address, penalty: int, now: int, cell: Slot, later: int)
    requires addr.service.ip in b && b[addr.service.ip].place.InNew? && cell !in b[addr.service.ip].place.cells
    ensures HeldByTerrible(b[addr.service.ip := b[addr.service.ip].(profile := Refresh(b[addr.service.ip].profile, addr, penalty, now))], cell, later)
      <==> HeldByTerrible(b, cell, later)
  {
    hide Refresh, IsTerrible;
    var ip := addr.service.ip;
    var d := b[ip := b[ip].(profile := Refresh(b[ip].profile, addr, penalty, now))];
    forall k ensures Holds(d, k, cell) <==> Holds(b, k, cell) {}
    if HeldByTerrible(d, cell, later) {
      forall k | Holds(b, k, cell) ensures IsTerrible(b[k].profile, later) {
        assert Holds(d, k, cell) && d[k] == b[k];
      }
    }
  }

  // ---------------------------------------------------------------- Add_ of an unknown address

  // An unknown address enters the book exactly if every holder of its cell is terrible or has
  // another cell; it enters with what was announced and nothing else, in that cell alone.
  lemma UnknownEnters(s: State, addr: Address, source: NetAddr, penalty: int, now: int, later: int, rnd: nat)
    requires Inv(s) && s.env.routable(addr.service.ip) && addr.service.ip !in Abs(s)
    ensures Add(s, addr, source, penalty, now, later, rnd).1
    ensures var ip := addr.service.ip;
      var c := Added(s, addr, source, penalty, now, later, rnd);
      var cell := NewSlot(s.env, s.key, addr.service, source);
      var time := (if addr.nTime <= penalty then 0 else addr.nTime - penalty) % 0x1_0000_0000;
      && (ip in c <==> HeldLoosely(Abs(s), cell, later))
      && (ip in c ==> c[ip] == Entry(AddrInfo(addr.service, addr.services, time, source, 0, 0, 0, 0, false, -1), InNew({cell})))
  {
    hide Inv, Abs, Add, NewSlot, IsTerrible, OthersYield, OthersStay;
    AddOnBook(s, addr, source, penalty, now, later, rnd);
    UnknownLine(s.env, s.key, Abs(s), addr, source, penalty, now, later, rnd);
    hide BookAdd;
  }

  // The line of an unknown address, and of the others.
  lemma UnknownLine(env: Env, key: Key, b: Book, addr: Address, source: NetAddr, penalty: int, now: int, later: int, rnd: nat)
    requires env.routable(addr.service.ip) && addr.service.ip !in b
    ensures var ip := addr.service.ip;
      var c := BookAdd(env, key, b, addr, source, penalty, now, later, rnd);
      var cell := NewSlot(env, key, addr.service, source);
      if HeldLoosely(b, cell, later) then
        ip in c && OthersYield(b, c, ip, cell)
        && c[ip] == Entry(AddrInfo(addr.service, addr.services, Announced(addr, penalty), source, 0, 0, 0, 0, false, -1), InNew({cell}))
      else
        c == b
  {
    hide NewSlot, IsTerrible, BookInsert;
    var ip := addr.service.ip;
    var profile := Profile(InfoOf(addr, source)).(nTime := ToTime(Max(0, addr.nTime - penalty)));
    var d := b[ip := Entry(profile, InNew({}))];
    assert profile == AddrInfo(addr.service, addr.services, Announced(addr, penalty), source, 0, 0, 0, 0, false, -1);
    Inserted(env, key, d, ip, source, later);
    var cell := NewSlot(env, key, addr.service, source);
    HeldWithNewcomer(b, ip, profile, cell, later);
    assert d - {ip} == b;
    hide CellAvailable, HeldLoosely;
    assert {} + {cell} == {cell};
  }

  lemma HeldWithNewcomer(b: Book, ip: NetAddr, profile: AddrInfo, cell: Slot, now: int)
    requires ip !in b
    ensures CellAvailable(b[ip := Entry(profile, InNew({}))], cell, {}, now) <==> HeldLoosely(b, cell, now)
  {
    hide IsTerrible;
    var d := b[ip := Entry(profile, InNew({}))];
    forall k ensures Holds(d, k, cell) <==> Holds(b, k, cell) {}
    if CellAvailable(d, cell, {}, now) {
      forall k | Holds(b, k, cell) ensures IsTerrible(b[k].profile, now) || |b[k].place.cells| > 1 {
        assert Holds(d, k, cell) && d[k] == b[k];
      }
    }
  }

  // ---------------------------------------------------------------- Add_ and the others

  // Whatever is added, every other address keeps its profile and its place, except that it gives
  // up the cell if the added one has gained it; and it is forgotten if that was its only one.
  lemma AddAndOthers(s: State, addr: Address, source: NetAddr, penalty: int, now: int, later: int, rnd: nat)
    requires Inv(s)
    ensures var ip := addr.service.ip;
      var c := Added(s, addr, source, penalty, now, later, rnd);
      var cell := NewSlot(s.env, s.key, if ip in Abs(s) then Abs(s)[ip].profile.service else addr.service, source);
      if Holds(c, ip, cell) && !Holds(Abs(s), ip, cell) then OthersYield(Abs(s), c, ip, cell) else OthersStay(Abs(s), c, ip)
    ensures !s.env.routable(addr.service.ip) ==>
      !Add(s, addr, source, penalty, now, later, rnd).1 && Added(s, addr, source, penalty, now, later, rnd) == Abs(s)
  {
    hide Inv, Abs, Add, NewSlot, IsTerrible, BookAdd, Refresh, HeldByTerrible, HeldLoosely, BookKeepsAsIs;
    EveryEntryHasACell(s);
    AddOnBook(s, addr, source, penalty, now, later, rnd);
    if !s.env.routable(addr.service.ip) {
      NotRoutable(s.env, s.key, Abs(s), addr, source, penalty, now, later, rnd);
    } else if addr.service.ip in Abs(s) {
      KnownLine(s.env, s.key, Abs(s), addr, source, penalty, now, later, rnd);
      KnownOthers(s.env, s.key, Abs(s), addr, source, penalty, now, later, rnd);
    } else {
      UnknownLine(s.env, s.key, Abs(s), addr, source, penalty, now, later, rnd);
    }
  }

  lemma KnownOthers(env: Env, key: Key, b: Book, addr: Address, source: NetAddr, penalty: int, now: int, later: int, rnd: nat)
    requires env.routable(addr.service.ip) && addr.service.ip in b && HasCells(b)
    ensures var ip, c := addr.service.ip, BookAdd(env, key, b, addr, source, penalty, now, later, rnd);
      var cell := NewSlot(env, key, b[ip].profile.service, source);
      if Holds(c, ip, cell) && !Holds(b, ip, cell) then OthersYield(b, c, ip, cell) else OthersStay(b, c, ip)
  {
    hide NewSlot, IsTerrible, BookAdd, Refresh, HeldByTerrible, BookKeepsAsIs;
    KnownLine(env, key, b, addr, source, penalty, now, later, rnd);
    var ip := addr.service.ip;
    var d := b[ip := b[ip].(profile := Refresh(b[ip].profile, addr, penalty, now))];
    var c := BookAdd(env, key, b, addr, source, penalty, now, later, rnd);
    assert d - {ip} == b - {ip};
    assert Holds(d, ip, NewSlot(env, key, b[ip].profile.service, source)) <==> Holds(b, ip, NewSlot(env, key, b[ip].profile.service, source));
    forall k | k in b && k != ip ensures d[k] == b[k] {}
  }

  // Whoever has gained a cell took it from holders that are terrible, or have another one.
  lemma GainedFrom(s: State, addr: Address, source: NetAddr, penalty: int, now: int, later: int, rnd: nat, cell: Slot)
    requires Inv(s)
    requires cell == NewSlot(s.env, s.key, if addr.service.ip in Abs(s) then Abs(s)[addr.service.ip].profile.service else addr.service, source)
    requires Holds(Added(s, addr, source, penalty, now, later, rnd), addr.service.ip, cell) && !Holds(Abs(s), addr.service.ip, cell)
    ensures HeldLoosely(Abs(s), cell, later)
  {
    hide Inv, Abs, Add, NewSlot, IsTerrible, OthersYield, OthersStay, Added, HeldByTerrible, HeldLoosely, Announced, Pow;
    AddAndOthers(s, addr, source, penalty, now, later, rnd);
    AddedNothing(s, addr, source, penalty, now, later, rnd);
    if addr.service.ip in Abs(s) {
      KnownCells(s, addr, source, penalty, now, later, rnd);
      TerribleIsLoose(Abs(s), cell, later);
    } else {
      UnknownEnters(s, addr, source, penalty, now, later, rnd);
    }
  }

  lemma AddedNothing(s: State, addr: Address, source: NetAddr, penalty: int, now: int, later: int, rnd: nat)
    requires Inv(s)
    ensures !s.env.routable(addr.service.ip) ==> Added(s, addr, source, penalty, now, later, rnd) == Abs(s)
  {
    hide Abs, IsTerrible;
  }

  lemma TerribleIsLoose(b: Book, cell: Slot, now: int)
    ensures HeldByTerrible(b, cell, now) ==> HeldLoosely(b, cell, now)
  {
    hide IsTerrible;
  }

  // An entry with one cell keeps it through every Add_ if it was tried in the last minute, or
  // else was seen in the last thirty days and has not failed too often.
  lemma DecentIsKept(s: State, addr: Address, source: NetAddr, penalty: int, now: int, later: int, rnd: nat, ip: NetAddr)
    requires Inv(s) && ip in Abs(s) && ip != addr.service.ip
    requires Abs(s)[ip].place.InNew? && |Abs(s)[ip].place.cells| == 1
    requires var p := Abs(s)[ip].profile;
      || (p.nLastTry != 0 && later <= p.nLastTry + 60)
      || (&& p.nTime != 0 && later - 2_592_000 <= p.nTime <= later + 600
          && (p.nAttempts < 3 || p.nLastSuccess != 0)
          && (p.nAttempts < 10 || later <= p.nLastSuccess + 604_800))
    ensures ip in Added(s, addr, source, penalty, now, later, rnd)
    ensures Added(s, addr, source, penalty, now, later, rnd)[ip] == Abs(s)[ip]
  {
    hide Inv, Abs, Add, NewSlot, IsTerrible, Added;
    DecentExactly(Abs(s)[ip].profile, later);
    AddAndOthers(s, addr, source, penalty, now, later, rnd);
    var cell := NewSlot(s.env, s.key, if addr.service.ip in Abs(s) then Abs(s)[addr.service.ip].profile.service else addr.service, source);
    if Holds(Added(s, addr, source, penalty, now, later, rnd), addr.service.ip, cell) && !Holds(Abs(s), addr.service.ip, cell) {
      GainedFrom(s, addr, source, penalty, now, later, rnd, cell);
      assert !Holds(Abs(s), ip, cell);
      assert Abs(s)[ip].place.cells - {cell} == Abs(s)[ip].place.cells;
    } else {
      KeptByStaying(Abs(s), Added(s, addr, source, penalty, now, later, rnd), addr.service.ip, ip);
    }
  }

  lemma KeptByStaying(b: Book, c: Book, other: NetAddr, ip: NetAddr)
    requires OthersStay(b, c, other) && ip in b && ip != other
    ensures ip in c && c[ip] == b[ip]
  {
    assert ip in (b - {other}) && (b - {other})[ip] == b[ip];
    assert ip in (c - {other});
  }

  // ---------------------------------------------------------------- Good_, Attempt_, Connected_

  ghost predicate IsListed(s: State, service: Service) {
    service.ip in Abs(s) && Abs(s)[service.ip].profile.service == service
  }

  // A service that is marked good is tried afterwards, with its attempts forgotten.
  lemma GoodIsTried(s: State, service: Service, nTime: int, start: nat)
    requires Inv(s)
    ensures var b, c := Abs(s), Abs(Good(s, service, nTime, start));
      if IsListed(s, service) then
        service.ip in c
        && c[service.ip] == Entry(b[service.ip].profile.(nLastSuccess := nTime, nLastTry := nTime, nAttempts := 0), InTried)
      else
        c == b
  {
    hide Inv, Abs, Good, TriedSlot, MakeRoom;
    GoodOnBook(s, service, nTime, start);
  }

  // Marking a tried service good touches no other address; nor does any with a free tried cell.
  lemma GoodAndOthers(s: State, service: Service, nTime: int, start: nat)
    requires Inv(s) && IsListed(s, service)
    requires Abs(s)[service.ip].place.InTried? || forall v | v in Abs(s) :: !Evicts(s.env, s.key, Abs(s), service, v)
    ensures OthersStay(Abs(s), Abs(Good(s, service, nTime, start)), service.ip)
  {
    hide Inv, Abs, Good, TriedSlot;
    GoodOnBook(s, service, nTime, start);
    var b := Abs(s);
    if !b[service.ip].place.InTried? {
      var c := b[service.ip := b[service.ip].(profile := b[service.ip].profile.(nLastSuccess := nTime, nLastTry := nTime, nAttempts := 0))];
      NobodyLives(s.env, s.key, b, c, service);
    }
  }

  // Whoever lives in the cell after the service has moved out was in its way before.
  lemma NobodyLives(env: Env, key: Key, b: Book, c: Book, service: Service)
    requires service.ip in c && c - {service.ip} == b - {service.ip}
    requires forall v | v in b :: !Evicts(env, key, b, service, v)
    ensures forall v :: !LivesIn(env, key, Move(c, service.ip, InNew({})), v, TriedSlot(env, key, service))
  {
    hide TriedSlot;
    forall v | v in c && v != service.ip ensures v in b && c[v] == b[v] {
      assert v in (c - {service.ip}) && v in (b - {service.ip});
    }
  }

  // A tried address in the way of the service goes back to the cell of its own source, and
  // everyone else stands as before but for giving up that cell.
  lemma GoodEvicts(s: State, service: Service, nTime: int, start: nat, v: NetAddr)
    requires Inv(s) && IsListed(s, service) && Abs(s)[service.ip].place.InNew?
    requires v in Abs(s) && Evicts(s.env, s.key, Abs(s), service, v)
    ensures var b, c := Abs(s), Abs(Good(s, service, nTime, start));
      var home := NewSlot(s.env, s.key, b[v].profile.service, b[v].profile.source);
      v in c && c[v] == b[v].(place := InNew({home})) && OthersYield(b - {v}, c - {v}, service.ip, home)
  {
    InvIsCore(s);
    hide Inv, Core, Abs, Good, TriedSlot, NewSlot;
    GoodOnBook(s, service, nTime, start);
    var b := Abs(s);
    forall w | w in b && Evicts(s.env, s.key, b, service, w) ensures w == v {
      EvictedIsOne(s, service, v, w);
    }
    PromoteEvicts(s.env, s.key, b, b[service.ip].profile.(nLastSuccess := nTime, nLastTry := nTime, nAttempts := 0), service.ip, v);
  }

  lemma PromoteEvicts(env: Env, key: Key, b: Book, profile: AddrInfo, ip: NetAddr, v: NetAddr)
    requires ip in b && b[ip].place.InNew? && profile.service == b[ip].profile.service
    requires v in b && Evicts(env, key, b, profile.service, v)
    requires forall w | w in b && Evicts(env, key, b, profile.service, w) :: w == v
    ensures var c := BookPromote(env, key, b[ip := b[ip].(profile := profile)], ip);
      var home := NewSlot(env, key, b[v].profile.service, b[v].profile.source);
      v in c && c[v] == b[v].(place := InNew({home})) && OthersYield(b - {v}, c - {v}, ip, home)
  {
    hide TriedSlot, NewSlot;
    var cell := TriedSlot(env, key, profile.service);
    var out := Move(b[ip := b[ip].(profile := profile)], ip, InNew({}));
    assert LivesIn(env, key, out, v, cell);
    forall w | LivesIn(env, key, out, w, cell) ensures w == v {
      assert out[w] == b[w];
    }
    assert MakeRoom(env, key, out, cell) == Return(env, key, out, v);
    hide MakeRoom, LivesIn;
    var home := NewSlot(env, key, b[v].profile.service, b[v].profile.source);
    var c := BookPromote(env, key, b[ip := b[ip].(profile := profile)], ip);
    forall k | k in b && k != ip && k != v ensures k in out && out[k] == b[k] && (k in c <==> b[k].place != InNew({home})) {}
  }

  // Attempt_ notes the try of a listed service, and nothing else.
  lemma AttemptIs(s: State, service: Service, nTime: int)
    requires Inv(s)
    ensures var b, c := Abs(s), Abs(Attempt(s, service, nTime));
      if IsListed(s, service) then
        && service.ip in c && OthersStay(b, c, service.ip)
        && c[service.ip] == b[service.ip].(profile := b[service.ip].profile.(nLastTry := nTime, nAttempts := b[service.ip].profile.nAttempts + 1))
      else
        c == b
  {
    hide Abs, Attempt;
    AttemptOnBook(s, service, nTime);
  }

  // Connected_ moves the time of a listed service that was seen more than twenty minutes ago.
  lemma ConnectedIs(s: State, service: Service, nTime: int)
    requires Inv(s)
    ensures var b, c := Abs(s), Abs(Connected(s, service, nTime));
      if IsListed(s, service) && b[service.ip].profile.nTime + 1_200 < nTime then
        && service.ip in c && OthersStay(b, c, service.ip)
        && c[service.ip] == b[service.ip].(profile := b[service.ip].profile.(nTime := nTime % 0x1_0000_0000))
      else
        c == b
  {
    hide Abs, Connected;
    ConnectedOnBook(s, service, nTime);
  }

  // ---------------------------------------------------------------- GetAddr_

  // At most 2500 addresses and at most 23 in 100, and not fewer than that on account of the quota.
  lemma QuotaIs(size: nat)
    ensures 0 <= Quota(size) <= 2_500 && 100 * Quota(size) <= 23 * size
    ensures Quota(size) == 2_500 || 100 * (Quota(size) + 1) > 23 * size
  {
  }

  // Every position that is left can be drawn.
  lemma AnyPositionIsDrawn(pos: nat, n: nat, size: nat)
    requires n <= pos < size
    ensures PickPosition(pos - n, n, size) == pos
  {
  }

  // What the list has in it: decent entries of the table, in the order of their positions.
  lemma {:induction false} DecentList(info: map<int, AddrInfo>, random: seq<int>, now: int, k: nat)
    requires RandomOk(info, random) && k <= |random|
    ensures forall i | 0 <= i < |Decent(info, random, now, k)| ::
      var ai := Decent(info, random, now, k)[i];
      0 <= ai.nRandomPos < k && info[random[ai.nRandomPos]] == ai && !IsTerrible(ai, now)
    ensures forall i, j | 0 <= i < j < |Decent(info, random, now, k)| ::
      Decent(info, random, now, k)[i].nRandomPos < Decent(info, random, now, k)[j].nRandomPos
    ensures forall i | 0 <= i < k :: !IsTerrible(info[random[i]], now) ==> info[random[i]] in Decent(info, random, now, k)
  {
    hide IsTerrible;
    if k > 0 {
      DecentList(info, random, now, k - 1);
    }
  }

  // Every address returned is a decent one of the book, and none is returned twice; at most 2500
  // are and at most 23 in 100.
  lemma GetAddrListIs(s: State, now: int, picks: nat -> nat, n: nat)
    requires Inv(s) && n <= |s.random|
    ensures var list := GetAddr(s, now, picks, n).1;
      && |list| <= 2_500 && 100 * |list| <= 23 * |s.random|
      && (forall i | 0 <= i < |list| ::
            list[i].service.ip in Abs(s) && Abs(s)[list[i].service.ip].profile == Profile(list[i]) && !IsTerrible(list[i], now))
      && (forall i, j | 0 <= i < j < |list| :: list[i].service.ip != list[j].service.ip)
  {
    hide IsTerrible, GetAddr, Quota;
    var k := GetAddrReturns(s, now, picks, n);
    GetAddrKeeps(s, now, picks, n);
    GetAddrOnBook(s, now, picks, n);
    QuotaIs(|s.random|);
    ListInBook(GetAddr(s, now, picks, n).0, now, k);
  }

  lemma ListInBook(t: State, now: int, k: nat)
    requires Core(t) && k <= |t.random|
    ensures var list := Decent(t.info, t.random, now, k);
      && (forall i | 0 <= i < |list| ::
            list[i].service.ip in Abs(t) && Abs(t)[list[i].service.ip].profile == Profile(list[i]) && !IsTerrible(list[i], now))
      && (forall i, j | 0 <= i < j < |list| :: list[i].service.ip != list[j].service.ip)
  {
    hide IsTerrible, Abs, Decent;
    DecentList(t.info, t.random, now, k);
    var list := Decent(t.info, t.random, now, k);
    forall i | 0 <= i < |list| ensures list[i].service.ip in Abs(t) && Abs(t)[list[i].service.ip].profile == Profile(list[i]) {
      InBook(t, t.random[list[i].nRandomPos]);
    }
    forall i, j | 0 <= i < j < |list| ensures list[i].service.ip != list[j].service.ip {
      assert t.random[list[i].nRandomPos] != t.random[list[j].nRandomPos];
    }
  }

  // If fewer are returned than the quota lets through, every decent address of the book is.
  lemma GetAddrMissesNone(s: State, now: int, picks: nat -> nat, ip: NetAddr) returns (i: nat)
    requires Inv(s) && ip in Abs(s) && !IsTerrible(Abs(s)[ip].profile, now)
    requires |GetAddr(s, now, picks, |s.random|).1| < 2_500 && 100 * (|GetAddr(s, now, picks, |s.random|).1| + 1) <= 23 * |s.random|
    ensures i < |GetAddr(s, now, picks, |s.random|).1| && GetAddr(s, now, picks, |s.random|).1[i].service.ip == ip
  {
    hide IsTerrible, GetAddr, Quota;
    var k := GetAddrReturns(s, now, picks, |s.random|);
    GetAddrKeeps(s, now, picks, |s.random|);
    GetAddrOnBook(s, now, picks, |s.random|);
    QuotaIs(|s.random|);
    i := ListHas(GetAddr(s, now, picks, |s.random|).0, now, ip);
  }

  lemma ListHas(t: State, now: int, ip: NetAddr) returns (i: nat)
    requires Core(t) && ip in Abs(t) && !IsTerrible(Abs(t)[ip].profile, now)
    ensures var list := Decent(t.info, t.random, now, |t.random|);
      i < |list| && list[i].service.ip == ip
  {
    LookUp(t, ip);
    DecentList(t.info, t.random, now, |t.random|);
    var ai := t.info[t.addr[ip]];
    ListedAtPosition(t.info, t.random, t.addr[ip]);
    assert IsTerrible(ai, now) == IsTerrible(Profile(ai), now);
    var list := Decent(t.info, t.random, now, |t.random|);
    assert ai in list;
    i :| 0 <= i < |list| && list[i] == ai;
  }
}
