/** The address book: what the address manager means, without ids, vRandom, reference counts
    or counters.  An address is either tried, or sits in a set of new-table cells.  Every
    operation of the address manager is shown to be the corresponding operation on the book. */
module AddrBook {
  import opened AddrTypes
  import opened Numbers
  import opened AddrState
  import opened AddrSteps
  import opened AddrOps

  datatype Place = InTried | InNew(cells: set<Slot>)
  datatype Entry = Entry(profile: AddrInfo, place: Place)
  type Book = map<NetAddr, Entry>

  // The statistics of an entry, without the fields that only index it.
  ghost function Profile(info: AddrInfo): AddrInfo {
    info.(nRefCount := 0, fInTried := false, nRandomPos := -1)
  }

  ghost function EntryOf(info: AddrInfo, cells: set<Slot>): Entry {
    Entry(Profile(info), if info.fInTried then InTried else InNew(cells))
  }

  ghost function BookOf(info: map<int, AddrInfo>, addr: map<NetAddr, int>, newTable: Table): Book {
    map ip | ip in addr && addr[ip] in info :: EntryOf(info[addr[ip]], SlotsOf(newTable, addr[ip]))
  }

  ghost function Abs(s: State): Book {
    BookOf(s.info, s.addr, s.newTable)
  }

  // ---------------------------------------------------------------- operations on the book

  // A cell is cleared: its holder loses it, and with its last cell its place in the book.
  ghost function Displace(b: Book, cell: Slot): Book {
    map ip | ip in b && b[ip].place != InNew({cell}) ::
      match b[ip].place
      case InTried => b[ip]
      case InNew(cells) => b[ip].(place := InNew(cells - {cell}))
  }

  ghost function Move(b: Book, ip: NetAddr, place: Place): Book
    requires ip in b
  {
    b[ip := b[ip].(place := place)]
  }

  // The tried addresses that live in this tried cell; there is at most one.
  ghost predicate LivesIn(env: Env, key: Key, b: Book, ip: NetAddr, cell: Slot) {
    ip in b && b[ip].place.InTried? && TriedSlot(env, key, b[ip].profile.service) == cell
  }

  ghost function Home(env: Env, key: Key, entry: Entry): Slot {
    NewSlot(env, key, entry.profile.service, entry.profile.source)
  }

  // Back from the tried table to the home cell, which is cleared for it.
  ghost function Return(env: Env, key: Key, b: Book, ip: NetAddr): Book
    requires ip in b
  {
    var home := Home(env, key, b[ip]);
    Displace(Move(b, ip, InNew({})), home)[ip := b[ip].(place := InNew({home}))]
  }

  // From the new table to the tried table; whoever is in the tried cell returns home.
  ghost function BookPromote(env: Env, key: Key, b: Book, ip: NetAddr): Book
    requires ip in b
  {
    var cell := TriedSlot(env, key, b[ip].profile.service);
    MakeRoom(env, key, Move(b, ip, InNew({})), cell)[ip := b[ip].(place := InTried)]
  }

  // A tried cell is made free.
  ghost function MakeRoom(env: Env, key: Key, b: Book, cell: Slot): Book {
    if exists ip :: LivesIn(env, key, b, ip, cell)
    then var ip :| LivesIn(env, key, b, ip, cell); Return(env, key, b, ip)
    else b
  }

  // ---------------------------------------------------------------- primitive steps on the book

  lemma BareProfile(a: AddrInfo, b: AddrInfo, cells: set<Slot>)
    requires Bare(a) == Bare(b)
    ensures EntryOf(a, cells) == EntryOf(b, cells)
  {
    assert Profile(Bare(a)) == Profile(a) && Profile(Bare(b)) == Profile(b);
  }

  // Positions in vRandom are not in the book.
  lemma BookIgnoresPositions(a: map<int, AddrInfo>, b: map<int, AddrInfo>, addr: map<NetAddr, int>, newTable: Table)
    requires SameEntries(a, b, b.Keys)
    ensures BookOf(a, addr, newTable) == BookOf(b, addr, newTable)
  {
    forall ip | ip in addr && addr[ip] in b
      ensures EntryOf(a[addr[ip]], SlotsOf(newTable, addr[ip])) == EntryOf(b[addr[ip]], SlotsOf(newTable, addr[ip]))
    {
      BareProfile(a[addr[ip]], b[addr[ip]], SlotsOf(newTable, addr[ip]));
    }
  }

  // An entry that goes takes its address out of the book.
  lemma BookShrinks(a: map<int, AddrInfo>, b: map<int, AddrInfo>, addr: map<NetAddr, int>, newTable: Table, id: int)
    requires id in b && AddrOk(b, addr) && SameEntries(a, b, b.Keys - {id})
    ensures BookOf(a, addr - {b[id].service.ip}, newTable) == BookOf(b, addr, newTable) - {b[id].service.ip}
  {
    var ip0 := b[id].service.ip;
    forall ip | ip in addr && ip != ip0
      ensures addr[ip] in a && EntryOf(a[addr[ip]], SlotsOf(newTable, addr[ip])) == EntryOf(b[addr[ip]], SlotsOf(newTable, addr[ip]))
    {
      assert addr[ip] != id;
      BareProfile(a[addr[ip]], b[addr[ip]], SlotsOf(newTable, addr[ip]));
    }
  }

  // A change to one entry is a change to one line of the book.
  lemma BookEntryChanges(info: map<int, AddrInfo>, addr: map<NetAddr, int>, t: Table, u: Table, id: int, x: AddrInfo)
    requires id in info && AddrOk(info, addr) && x.service == info[id].service
    requires forall k | k in info && k != id :: SlotsOf(u, k) == SlotsOf(t, k)
    ensures BookOf(info[id := x], addr, u) == BookOf(info, addr, t)[info[id].service.ip := EntryOf(x, SlotsOf(u, id))]
  {
    forall ip | ip in addr && ip != info[id].service.ip
      ensures addr[ip] != id && addr[ip] in info && SlotsOf(u, addr[ip]) == SlotsOf(t, addr[ip])
    {
    }
  }

  // How the book shows an entry.
  lemma InBook(s: State, id: int)
    requires Core(s) && id in s.info
    ensures s.info[id].service.ip in Abs(s)
    ensures Abs(s)[s.info[id].service.ip] == EntryOf(s.info[id], SlotsOf(s.newTable, id))
  {
    assert s.addr[s.info[id].service.ip] == id;
  }

  lemma SingleCell(cells: set<Slot>, slot: Slot)
    requires slot in cells && |cells| == 1
    ensures cells == {slot}
  {
    assert |cells - {slot}| == 0;
  }

  lemma UnrefCells(newTable: Table, slot: Slot, k: int)
    requires slot in newTable
    ensures SlotsOf(newTable - {slot}, k) == SlotsOf(newTable, k) - {slot}
    ensures k != newTable[slot] ==> slot !in SlotsOf(newTable, k)
    ensures slot in SlotsOf(newTable, newTable[slot])
  {
    SlotsAfterErase(newTable, slot, k);
  }

  // Only the holder of the cell sees it cleared.
  lemma DisplaceOthers(b: Book, ip: NetAddr, slot: Slot)
    requires ip in b && b[ip].place.InNew? && slot in b[ip].place.cells
    requires forall k | k in b && k != ip && b[k].place.InNew? :: slot !in b[k].place.cells
    ensures Displace(b, slot) ==
      if b[ip].place.cells == {slot} then b - {ip} else Move(b, ip, InNew(b[ip].place.cells - {slot}))
  {
    forall k | k in b && k != ip ensures k in Displace(b, slot) && Displace(b, slot)[k] == b[k] {
      if b[k].place.InNew? {
        assert b[k].place.cells - {slot} == b[k].place.cells;
      }
    }
  }

  lemma DisplaceNobody(b: Book, slot: Slot)
    requires forall k | k in b && b[k].place.InNew? :: slot !in b[k].place.cells
    ensures Displace(b, slot) == b
  {
    forall k | k in b ensures k in Displace(b, slot) && Displace(b, slot)[k] == b[k] {
      if b[k].place.InNew? {
        assert b[k].place.cells - {slot} == b[k].place.cells;
      }
    }
  }

  lemma HoldersInBook(s: State, slot: Slot)
    requires Core(s)
    ensures forall ip | ip in Abs(s) && Abs(s)[ip].place.InNew? && slot in Abs(s)[ip].place.cells ::
      slot in s.newTable && s.addr[ip] == s.newTable[slot] && ip == s.info[s.newTable[slot]].service.ip
  {
  }

  // Losing a cell is one changed line of the book.
  lemma UnrefBook(s: State, slot: Slot)
    requires Core(s) && slot in s.newTable
    ensures s.newTable[slot] in s.info && s.info[s.newTable[slot]].service.ip in Abs(s)
    ensures var ip := s.info[s.newTable[slot]].service.ip;
      Abs(Unref(s, slot)) == Move(Abs(s), ip, InNew(SlotsOf(s.newTable, s.newTable[slot]) - {slot}))
  {
    var id := s.newTable[slot];
    var t := Unref(s, slot);
    forall k ensures SlotsOf(t.newTable, k) == SlotsOf(s.newTable, k) - {slot} && (k != id ==> slot !in SlotsOf(s.newTable, k)) {
      UnrefCells(s.newTable, slot, k);
    }
    InBook(s, id);
    BookEntryChanges(s.info, s.addr, s.newTable, t.newTable, id, t.info[id]);
  }

  lemma DeleteBook(s: State, id: int)
    requires Core(s) && id in s.info && !s.info[id].fInTried && s.info[id].nRefCount == 0
    ensures Abs(Delete(s, id)) == Abs(s) - {s.info[id].service.ip}
  {
    DeleteStep(s, id);
    BookShrinks(Delete(s, id).info, s.info, s.addr, s.newTable, id);
  }

  lemma HeldCells(s: State, slot: Slot)
    requires Core(s) && slot in s.newTable
    ensures var id := s.newTable[slot];
      && id in s.info && slot in SlotsOf(s.newTable, id)
      && s.info[id].service.ip in Abs(s)
      && Abs(s)[s.info[id].service.ip].place == InNew(SlotsOf(s.newTable, id))
      && (s.info[id].nRefCount == 1 <==> SlotsOf(s.newTable, id) == {slot})
  {
    var id := s.newTable[slot];
    InBook(s, id);
    assert |SlotsOf(s.newTable, id)| == s.info[id].nRefCount;
    if s.info[id].nRefCount == 1 {
      SingleCell(SlotsOf(s.newTable, id), slot);
    }
  }

  lemma ClearNewBook(s: State, slot: Slot)
    requires Core(s)
    ensures Abs(ClearNew(s, slot)) == Displace(Abs(s), slot)
  {
    hide Core;
    HoldersInBook(s, slot);
    if slot in s.newTable {
      HeldCells(s, slot);
      UnrefBook(s, slot);
      UnrefStep(s, slot);
      DisplaceOthers(Abs(s), s.info[s.newTable[slot]].service.ip, slot);
      if s.info[s.newTable[slot]].nRefCount == 1 {
        DeleteBook(Unref(s, slot), s.newTable[slot]);
      }
    } else {
      DisplaceNobody(Abs(s), slot);
    }
  }

  lemma PutNewBook(s: State, slot: Slot, id: int)
    requires Core(s) && slot !in s.newTable && id in s.info && !s.info[id].fInTried
    ensures s.info[id].service.ip in Abs(s)
    ensures Abs(PutNew(s, slot, id, s.info[id].nRefCount + 1)) == Move(Abs(s), s.info[id].service.ip, InNew(SlotsOf(s.newTable, id) + {slot}))
  {
    var t := PutNew(s, slot, id, s.info[id].nRefCount + 1);
    InBook(s, id);
    forall k ensures SlotsOf(t.newTable, k) == if id == k then SlotsOf(s.newTable, k) + {slot} else SlotsOf(s.newTable, k) {
      SlotsAfterPut(s.newTable, slot, id, k);
    }
    BookEntryChanges(s.info, s.addr, s.newTable, t.newTable, id, t.info[id]);
  }

  lemma CoreAddresses(s: State)
    requires Core(s)
    ensures AddrOk(s.info, s.addr)
  {
  }

  lemma VacateBook(s: State, id: int)
    requires Core(s) && id in s.info && !s.info[id].fInTried
    ensures s.info[id].service.ip in Abs(s)
    ensures Abs(Vacate(s, id)) == Move(Abs(s), s.info[id].service.ip, InNew({}))
  {
    hide Core, DropFromBuckets, AddrOk;
    CoreAddresses(s);
    VacateStep(s, id);
    DropAll(s, id);
    var t := Vacate(s, id);
    InBook(s, id);
    forall k | k != id ensures SlotsOf(t.newTable, k) == SlotsOf(s.newTable, k) {}
    BookEntryChanges(s.info, s.addr, s.newTable, t.newTable, id, t.info[id]);
  }

  lemma NoCells(s: State, id: int)
    requires Core(s) && id in s.info && s.info[id].nRefCount == 0
    ensures SlotsOf(s.newTable, id) == {}
  {
    assert |SlotsOf(s.newTable, id)| == 0;
  }

  lemma DemoteBook(s: State, slot: Slot)
    requires Core(s) && slot in s.triedTable
    ensures s.triedTable[slot] in s.info && s.info[s.triedTable[slot]].service.ip in Abs(s)
    ensures Abs(Demote(s, slot)) == Move(Abs(s), s.info[s.triedTable[slot]].service.ip, InNew({}))
  {
    var id := s.triedTable[slot];
    TriedHolder(s, slot);
    NoCells(s, id);
    InBook(s, id);
    BookEntryChanges(s.info, s.addr, s.newTable, s.newTable, id, Demote(s, slot).info[id]);
  }

  lemma PromoteBook(s: State, id: int)
    requires Core(s) && id in s.info && s.info[id].nRefCount == 0
    ensures s.info[id].service.ip in Abs(s)
    ensures Abs(Promote(s, id)) == Move(Abs(s), s.info[id].service.ip, InTried)
  {
    InBook(s, id);
    BookEntryChanges(s.info, s.addr, s.newTable, s.newTable, id, Promote(s, id).info[id]);
  }

  // ---------------------------------------------------------------- Good_ on the book

  // An eviction is a return home.
  // With the home cell cleared, the evicted entry stands without a cell, and the rest is displaced.
  lemma RoomBook(s: State, slot: Slot)
    requires Core(s) && slot in s.triedTable
    ensures s.triedTable[slot] in s.info && s.info[s.triedTable[slot]].service.ip in Abs(s)
    ensures Abs(MakeRoomAtHome(s, slot)) ==
      Displace(Move(Abs(s), s.info[s.triedTable[slot]].service.ip, InNew({})), HomeSlot(s, s.triedTable[slot]))
  {
    hide Core, Abs, Displace, Move, Orphans, TriedIds, NewIds, SameEntries, Demote, ClearNew;
    TriedHolder(s, slot);
    InBook(s, s.triedTable[slot]);
    DemoteStep(s, slot);
    DemoteBook(s, slot);
    ClearNewBook(Demote(s, slot), HomeSlot(s, s.triedTable[slot]));
  }

  lemma EvictBook(s: State, slot: Slot)
    requires Core(s) && slot in s.triedTable
    ensures s.triedTable[slot] in s.info
    ensures LivesIn(s.env, s.key, Abs(s), s.info[s.triedTable[slot]].service.ip, slot)
    ensures Abs(EvictTried(s, slot)) == Return(s.env, s.key, Abs(s), s.info[s.triedTable[slot]].service.ip)
  {
    hide Core, Orphans, TriedIds, NewIds, SameEntries, Abs, Displace, MakeRoomAtHome, NewSlot, TriedSlot;
    TriedHolder(s, slot);
    var id := s.triedTable[slot];
    InBook(s, id);
    RoomBook(s, slot);
    MakeRoomStep(s, slot);
    MakeRoomKeeps(s, slot, id);
    var u := MakeRoomAtHome(s, slot);
    NoCells(u, id);
    PutNewBook(u, HomeSlot(s, id), id);
    InBook(u, id);
    BareProfile(u.info[id], s.info[id].(fInTried := false), {});
    var ip := s.info[id].service.ip;
    assert {} + {HomeSlot(s, id)} == {HomeSlot(s, id)};
    assert HomeSlot(s, id) == Home(s.env, s.key, Abs(s)[ip]);
    assert Abs(u)[ip].profile == Abs(s)[ip].profile;
    AbsIgnoresNNew(PutNew(u, HomeSlot(s, id), id, 1), u.nNew + 1);
  }

  lemma OnlyOneLivesIn(s: State, slot: Slot, ip: NetAddr)
    requires Core(s)
    ensures LivesIn(s.env, s.key, Abs(s), ip, slot) ==> slot in s.triedTable && s.triedTable[slot] in s.info && ip == s.info[s.triedTable[slot]].service.ip
  {
  }

  lemma MakeRoomInTriedBook(s: State, slot: Slot)
    requires Core(s)
    ensures Abs(MakeRoomInTried(s, slot)) == MakeRoom(s.env, s.key, Abs(s), slot)
  {
    hide Core, Abs, EvictTried, Return;
    forall ip ensures LivesIn(s.env, s.key, Abs(s), ip, slot) ==> slot in s.triedTable && s.triedTable[slot] in s.info && ip == s.info[s.triedTable[slot]].service.ip {
      OnlyOneLivesIn(s, slot, ip);
    }
    if slot in s.triedTable {
      EvictBook(s, slot);
    }
  }

  // MakeTried is the promotion of the book.
  lemma MakeTriedBook(s: State, id: int)
    requires Core(s) && id in s.info && !s.info[id].fInTried
    ensures s.info[id].service.ip in Abs(s)
    ensures Abs(MakeTried(s, id)) == BookPromote(s.env, s.key, Abs(s), s.info[id].service.ip)
  {
    var ip := s.info[id].service.ip;
    var slot := TriedSlot(s.env, s.key, s.info[id].service);
    InBook(s, id);
    hide Core;
    VacateStep(s, id);
    VacateBook(s, id);
    var v := Vacate(s, id);
    hide Vacate;
    MakeRoomInTriedStep(v, slot, id);
    MakeRoomInTriedBook(v, slot);
    var w := MakeRoomInTried(v, slot);
    hide MakeRoomInTried, MakeRoom;
    PromoteBook(w, id);
    InBook(w, id);
    NoCells(w, id);
    BareProfile(w.info[id], v.info[id], {});
  }

  lemma TouchBook(s: State, id: int, entry: AddrInfo)
    requires Core(s) && id in s.info && SameStructure(entry, s.info[id])
    ensures s.info[id].service.ip in Abs(s)
    ensures Abs(s.(info := s.info[id := entry])) ==
      Abs(s)[s.info[id].service.ip := Abs(s)[s.info[id].service.ip].(profile := Profile(entry))]
  {
    InBook(s, id);
    BookEntryChanges(s.info, s.addr, s.newTable, s.newTable, id, entry);
  }

  // Every operation looks an address up in the book it abstracts to.
  lemma LookUp(s: State, ip: NetAddr)
    requires Core(s)
    ensures Known(s, ip) <==> ip in Abs(s)
    ensures Known(s, ip) ==> s.info[s.addr[ip]].service.ip == ip && Abs(s)[ip] == EntryOf(s.info[s.addr[ip]], SlotsOf(s.newTable, s.addr[ip]))
    ensures Known(s, ip) && !s.info[s.addr[ip]].fInTried ==> s.info[s.addr[ip]].nRefCount == |SlotsOf(s.newTable, s.addr[ip])|
  {
  }

  ghost function BookGood(env: Env, key: Key, b: Book, service: Service, nTime: int): Book {
    if service.ip !in b || b[service.ip].profile.service != service then b else
      var entry := b[service.ip];
      var c := b[service.ip := entry.(profile := entry.profile.(nLastSuccess := nTime, nLastTry := nTime, nAttempts := 0))];
      if entry.place.InTried? then c else BookPromote(env, key, c, service.ip)
  }

  // Good_ on a consistent table: the search never fails, and the move is the book's.
  lemma GoodOnBook(s: State, service: Service, nTime: int, start: nat)
    requires Inv(s)
    ensures Abs(Good(s, service, nTime, start)) == BookGood(s.env, s.key, Abs(s), service, nTime)
  {
    LookUp(s, service.ip);
    hide Core;
    if KnownExactly(s, service) {
      var id := s.addr[service.ip];
      var t := s.(info := s.info[id := s.info[id].(nLastSuccess := nTime, nLastTry := nTime, nAttempts := 0)]);
      TouchStep(s, id, t.info[id]);
      TouchBook(s, id, t.info[id]);
      if !t.info[id].fInTried {
        UntriedIsInSomeBucket(t, id, start);
        MakeTriedBook(t, id);
      }
    }
  }

  // ---------------------------------------------------------------- Add_ on the book

  ghost predicate Holds(b: Book, ip: NetAddr, cell: Slot) {
    ip in b && b[ip].place.InNew? && cell in b[ip].place.cells
  }

  // The cell is free, or its holder is terrible, or the holder has others and the newcomer none.
  ghost predicate CellAvailable(b: Book, cell: Slot, newcomer: set<Slot>, now: int) {
    forall ip | Holds(b, ip, cell) :: IsTerrible(b[ip].profile, now) || (|b[ip].place.cells| > 1 && newcomer == {})
  }

  ghost function BookInsert(env: Env, key: Key, b: Book, ip: NetAddr, source: NetAddr, now: int): Book
    requires ip in b && b[ip].place.InNew?
  {
    var cell := NewSlot(env, key, b[ip].profile.service, source);
    var cells := b[ip].place.cells;
    if cell in cells then b
    else if CellAvailable(b, cell, cells, now) then
      var c := Displace(b, cell);
      c[ip := b[ip].(place := InNew(cells + {cell}))]
    else if cells == {} then b - {ip}
    else b
  }

  ghost predicate BookKeepsAsIs(entry: Entry, addr: Address, rnd: nat) {
    || addr.nTime == 0
    || (entry.profile.nTime != 0 && addr.nTime <= entry.profile.nTime)
    || entry.place.InTried?
    || |entry.place.cells| == NEW_BUCKETS_PER_ADDRESS
    || rnd % Pow(2, |entry.place.cells|) != 0
  }

  ghost function BookAdd(env: Env, key: Key, b: Book, addr: Address, source: NetAddr, penalty: int, now: int, later: int, rnd: nat): Book {
    var ip := addr.service.ip;
    if !env.routable(ip) then b
    else if ip in b then
      var c := b[ip := b[ip].(profile := Refresh(b[ip].profile, addr, penalty, now))];
      if BookKeepsAsIs(c[ip], addr, rnd) then c else BookInsert(env, key, c, ip, source, later)
    else
      var profile := Profile(InfoOf(addr, source)).(nTime := ToTime(Max(0, addr.nTime - penalty)));
      BookInsert(env, key, b[ip := Entry(profile, InNew({}))], ip, source, later)
  }

  // The newcomer takes the cell ...
  lemma TakeCellBook(s: State, slot: Slot, id: int)
    requires Core(s) && id in s.info && !s.info[id].fInTried && !(slot in s.newTable && s.newTable[slot] == id)
    ensures id in ClearNew(s, slot).info && s.info[id].service.ip in Abs(s)
    ensures Abs(PutNew(ClearNew(s, slot), slot, id, ClearNew(s, slot).info[id].nRefCount + 1)) ==
      Displace(Abs(s), slot)[s.info[id].service.ip := Abs(s)[s.info[id].service.ip].(place := InNew(SlotsOf(s.newTable, id) + {slot}))]
  {
    hide Core, ClearNew, Displace, Abs, SlotsOf, SameEntries, Orphans, TriedIds, NewIds;
    NewInBook(s, id, slot);
    ClearNewStep(s, slot);
    ClearNewBook(s, slot);
    ClearNewKeepsOthers(s, slot, id);
    var t := ClearNew(s, slot);
    SlotsAfterErase(s.newTable, slot, id);
    assert SlotsOf(t.newTable, id) == SlotsOf(s.newTable, id);
    PutNewBook(t, slot, id);
    InBook(t, id);
    BareProfile(t.info[id], s.info[id], SlotsOf(s.newTable, id));
  }

  lemma NewInBook(s: State, id: int, slot: Slot)
    requires Core(s) && id in s.info && !s.info[id].fInTried
    ensures s.info[id].service.ip in Abs(s)
    ensures Abs(s)[s.info[id].service.ip] == Entry(Profile(s.info[id]), InNew(SlotsOf(s.newTable, id)))
    ensures SlotsOf(s.newTable, id) == {} <==> s.info[id].nRefCount == 0
    ensures slot in SlotsOf(s.newTable, id) <==> slot in s.newTable && s.newTable[slot] == id
  {
    InBook(s, id);
    assert |SlotsOf(s.newTable, id)| == s.info[id].nRefCount;
  }

  // What Insert and BookInsert both decide on.
  ghost predicate Takes(s: State, slot: Slot, id: int, now: int)
    requires Core(s) && id in s.info
  {
    slot !in s.newTable || (s.newTable[slot] in s.info && s.newTable[slot] != id && GivesWay(s, s.newTable[slot], id, now))
  }

  lemma InsertTakes(s: State, id: int, source: NetAddr, now: int)
    requires Core(s) && id in s.info && !s.info[id].fInTried
    requires Takes(s, NewSlot(s.env, s.key, s.info[id].service, source), id, now)
    ensures s.info[id].service.ip in Abs(s) && Abs(s)[s.info[id].service.ip].place.InNew?
    ensures Abs(Insert(s, id, source, now)) == BookInsert(s.env, s.key, Abs(s), s.info[id].service.ip, source, now)
  {
    hide Core, Abs, SlotsOf, Displace, CellAvailable, GivesWay, ClearNew, Delete, PutNew;
    var slot := NewSlot(s.env, s.key, s.info[id].service, source);
    NewInBook(s, id, slot);
    CellTest(s, slot, id, now);
    TakeCellBook(s, slot, id);
  }

  // ... or goes away if it has none, or stays as it is.
  lemma InsertStays(s: State, id: int, source: NetAddr, now: int)
    requires Core(s) && id in s.info && !s.info[id].fInTried
    requires !Takes(s, NewSlot(s.env, s.key, s.info[id].service, source), id, now)
    ensures s.info[id].service.ip in Abs(s) && Abs(s)[s.info[id].service.ip].place.InNew?
    ensures Abs(Insert(s, id, source, now)) == BookInsert(s.env, s.key, Abs(s), s.info[id].service.ip, source, now)
  {
    hide Core, Abs, SlotsOf, Displace, CellAvailable, GivesWay, ClearNew, Delete, PutNew;
    var slot := NewSlot(s.env, s.key, s.info[id].service, source);
    NewInBook(s, id, slot);
    CellTest(s, slot, id, now);
    if s.info[id].nRefCount == 0 {
      DeleteBook(s, id);
    }
  }

  lemma InsertBook(s: State, id: int, source: NetAddr, now: int)
    requires Core(s) && id in s.info && !s.info[id].fInTried
    ensures s.info[id].service.ip in Abs(s) && Abs(s)[s.info[id].service.ip].place.InNew?
    ensures Abs(Insert(s, id, source, now)) == BookInsert(s.env, s.key, Abs(s), s.info[id].service.ip, source, now)
  {
    hide Core, Abs, Insert, BookInsert, Takes;
    if Takes(s, NewSlot(s.env, s.key, s.info[id].service, source), id, now) {
      InsertTakes(s, id, source, now);
    } else {
      InsertStays(s, id, source, now);
    }
  }

  lemma CellTest(s: State, slot: Slot, id: int, now: int)
    requires Core(s) && id in s.info && !s.info[id].fInTried
    ensures slot in s.newTable ==> s.newTable[slot] in s.info
    ensures CellAvailable(Abs(s), slot, SlotsOf(s.newTable, id), now) <==> slot !in s.newTable || GivesWay(s, s.newTable[slot], id, now)
  {
    HoldersInBook(s, slot);
    hide Core, Abs, GivesWay;
    if slot in s.newTable {
      NewHolder(s, slot);
      AvailableInTable(s, slot, id, now);
      hide CellAvailable;
    }
  }

  // GivesWay read off the book.
  lemma AvailableInTable(s: State, slot: Slot, id: int, now: int)
    requires Core(s) && id in s.info && !s.info[id].fInTried && slot in s.newTable && s.newTable[slot] in s.info
    ensures CellAvailable(Abs(s), slot, SlotsOf(s.newTable, id), now) <==> GivesWay(s, s.newTable[slot], id, now)
  {
    var holder := s.newTable[slot];
    var ip := s.info[holder].service.ip;
    HoldersInBook(s, slot);
    HeldCells(s, slot);
    InBook(s, id);
    assert Holds(Abs(s), ip, slot);
    assert s.info[holder].nRefCount == |SlotsOf(s.newTable, holder)|;
    assert s.info[id].nRefCount == |SlotsOf(s.newTable, id)|;
    InBook(s, holder);
    assert IsTerrible(Profile(s.info[holder]), now) == IsTerrible(s.info[holder], now);
  }

  lemma CreateBook(s: State, addr: Address, source: NetAddr)
    requires Core(s) && addr.service.ip !in s.addr
    ensures Abs(Create(s, addr, source)) == Abs(s)[addr.service.ip := Entry(Profile(InfoOf(addr, source)), InNew({}))]
  {
    hide Core, SlotsOf, EntryOf, Profile;
    NextIdIsFree(s);
    NewEntryIs(addr, source, |s.random|);
  }

  lemma NextIdIsFree(s: State)
    requires Core(s)
    ensures s.nIdCount !in s.info && SlotsOf(s.newTable, s.nIdCount) == {}
    ensures forall ip | ip in s.addr :: s.addr[ip] in s.info && s.addr[ip] != s.nIdCount
  {
  }

  lemma NewEntryIs(addr: Address, source: NetAddr, pos: int)
    ensures EntryOf(InfoOf(addr, source).(nRandomPos := pos), {}) == Entry(Profile(InfoOf(addr, source)), InNew({}))
  {
  }

  lemma RegisterBook(s: State, addr: Address, source: NetAddr, penalty: int)
    requires Core(s) && addr.service.ip !in s.addr
    ensures Abs(Register(s, addr, source, penalty)) ==
      Abs(s)[addr.service.ip := Entry(Profile(InfoOf(addr, source)).(nTime := ToTime(Max(0, addr.nTime - penalty))), InNew({}))]
  {
    hide Core, Abs;
    CreateStep(s, addr, source);
    CreateBook(s, addr, source);
    var t := Create(s, addr, source);
    var entry := t.info[s.nIdCount].(nTime := ToTime(Max(0, addr.nTime - penalty)));
    TouchBook(t, s.nIdCount, entry);
    AbsIgnoresNNew(t.(info := t.info[s.nIdCount := entry]), t.nNew + 1);
  }

  lemma AbsIgnoresNNew(s: State, n: int)
    ensures Abs(s.(nNew := n)) == Abs(s)
  {
  }

  // Add_'s refresh of a known address.
  function Refreshed(s: State, addr: Address, penalty: int, now: int): State
    requires Known(s, addr.service.ip)
  {
    s.(info := s.info[s.addr[addr.service.ip] := Refresh(s.info[s.addr[addr.service.ip]], addr, penalty, now)])
  }

  lemma RefreshedBook(s: State, addr: Address, penalty: int, now: int)
    requires Inv(s) && Known(s, addr.service.ip)
    ensures addr.service.ip in Abs(s)
    ensures Core(Refreshed(s, addr, penalty, now)) && Orphans(Refreshed(s, addr, penalty, now).info) == {}
    ensures Abs(Refreshed(s, addr, penalty, now)) ==
      Abs(s)[addr.service.ip := Abs(s)[addr.service.ip].(profile := Refresh(Abs(s)[addr.service.ip].profile, addr, penalty, now))]
    ensures Known(Refreshed(s, addr, penalty, now), addr.service.ip)
    ensures Refreshed(s, addr, penalty, now).info[s.addr[addr.service.ip]].service.ip == addr.service.ip
  {
    LookUp(s, addr.service.ip);
    hide Core, Abs;
    var id := s.addr[addr.service.ip];
    var entry := Refresh(s.info[id], addr, penalty, now);
    TouchStep(s, id, entry);
    TouchBook(s, id, entry);
    assert Profile(entry) == Refresh(Profile(s.info[id]), addr, penalty, now);
  }

  lemma KeepsInBook(s: State, addr: Address, rnd: nat)
    requires Core(s) && Orphans(s.info) == {} && Known(s, addr.service.ip)
    ensures addr.service.ip in Abs(s)
    ensures KeepsAsIs(s.info[s.addr[addr.service.ip]], addr, rnd) <==> BookKeepsAsIs(Abs(s)[addr.service.ip], addr, rnd)
  {
    LookUp(s, addr.service.ip);
    hide Core, Abs;
    assert s.addr[addr.service.ip] !in Orphans(s.info);
  }

  lemma AddKnownBook(s: State, addr: Address, source: NetAddr, penalty: int, now: int, later: int, rnd: nat)
    requires Inv(s) && Known(s, addr.service.ip) && s.env.routable(addr.service.ip)
    ensures Abs(Add(s, addr, source, penalty, now, later, rnd).0) == BookAdd(s.env, s.key, Abs(s), addr, source, penalty, now, later, rnd)
  {
    hide Core, Abs, SlotsOf, Insert, BookInsert, Refresh, KeepsAsIs, BookKeepsAsIs;
    RefreshedBook(s, addr, penalty, now);
    var t := Refreshed(s, addr, penalty, now);
    KeepsInBook(t, addr, rnd);
    UntriedUnlessKept(t.info[s.addr[addr.service.ip]], addr, rnd);
    if !KeepsAsIs(t.info[s.addr[addr.service.ip]], addr, rnd) {
      InsertBook(t, s.addr[addr.service.ip], source, later);
    }
  }

  lemma UntriedUnlessKept(entry: AddrInfo, addr: Address, rnd: nat)
    ensures !KeepsAsIs(entry, addr, rnd) ==> !entry.fInTried
  {
  }

  lemma RegisteredEntry(s: State, addr: Address, source: NetAddr, penalty: int)
    ensures s.nIdCount in Register(s, addr, source, penalty).info
    ensures !Register(s, addr, source, penalty).info[s.nIdCount].fInTried
    ensures Register(s, addr, source, penalty).info[s.nIdCount].service == addr.service
    ensures SameKey(s, Register(s, addr, source, penalty))
  {
  }

  lemma AddUnknownBook(s: State, addr: Address, source: NetAddr, penalty: int, now: int, later: int, rnd: nat)
    requires Core(s) && addr.service.ip !in s.addr && addr.service.ip !in Abs(s) && s.env.routable(addr.service.ip)
    ensures Abs(Add(s, addr, source, penalty, now, later, rnd).0) == BookAdd(s.env, s.key, Abs(s), addr, source, penalty, now, later, rnd)
  {
    hide Core, Abs, SlotsOf, Insert, BookInsert, TriedIds, NewIds, Orphans, Surplus;
    RegisterStep(s, addr, source, penalty);
    RegisteredEntry(s, addr, source, penalty);
    hide Register;
    RegisterBook(s, addr, source, penalty);
    InsertBook(Register(s, addr, source, penalty), s.nIdCount, source, later);
  }

  // Add_ is the addition of the book, and returns whether the address was routable and unknown.
  lemma AddOnBook(s: State, addr: Address, source: NetAddr, penalty: int, now: int, later: int, rnd: nat)
    requires Inv(s)
    ensures Abs(Add(s, addr, source, penalty, now, later, rnd).0) == BookAdd(s.env, s.key, Abs(s), addr, source, penalty, now, later, rnd)
    ensures Add(s, addr, source, penalty, now, later, rnd).1 <==> s.env.routable(addr.service.ip) && addr.service.ip !in Abs(s)
  {
    LookUp(s, addr.service.ip);
    hide Core, Abs, Insert, BookAdd;
    if s.env.routable(addr.service.ip) {
      if Known(s, addr.service.ip) {
        AddKnownBook(s, addr, source, penalty, now, later, rnd);
      } else {
        UnknownIsNew(s, addr.service.ip);
        AddUnknownBook(s, addr, source, penalty, now, later, rnd);
      }
    } else {
      assert BookAdd(s.env, s.key, Abs(s), addr, source, penalty, now, later, rnd) == Abs(s) by { NotRoutable(s.env, s.key, Abs(s), addr, source, penalty, now, later, rnd); }
    }
  }

  lemma NotRoutable(env: Env, key: Key, b: Book, addr: Address, source: NetAddr, penalty: int, now: int, later: int, rnd: nat)
    requires !env.routable(addr.service.ip)
    ensures BookAdd(env, key, b, addr, source, penalty, now, later, rnd) == b
  {
  }

  // ---------------------------------------------------------------- the other operations, and runs

  ghost function BookAttempt(b: Book, service: Service, nTime: int): Book {
    if service.ip !in b || b[service.ip].profile.service != service then b else
      var entry := b[service.ip];
      b[service.ip := entry.(profile := entry.profile.(nLastTry := nTime, nAttempts := entry.profile.nAttempts + 1))]
  }

  ghost function BookConnected(b: Book, service: Service, nTime: int): Book {
    if service.ip !in b || b[service.ip].profile.service != service then b else
      var entry := b[service.ip];
      if nTime - entry.profile.nTime > 20 * 60 then b[service.ip := entry.(profile := entry.profile.(nTime := ToTime(nTime)))] else b
  }

  lemma AttemptOnBook(s: State, service: Service, nTime: int)
    requires Core(s)
    ensures Abs(Attempt(s, service, nTime)) == BookAttempt(Abs(s), service, nTime)
  {
    LookUp(s, service.ip);
    hide Core, Abs;
    if KnownExactly(s, service) {
      var id := s.addr[service.ip];
      TouchBook(s, id, Attempt(s, service, nTime).info[id]);
    }
  }

  lemma ConnectedOnBook(s: State, service: Service, nTime: int)
    requires Core(s)
    ensures Abs(Connected(s, service, nTime)) == BookConnected(Abs(s), service, nTime)
  {
    LookUp(s, service.ip);
    hide Core, Abs;
    if KnownExactly(s, service) {
      var id := s.addr[service.ip];
      TouchBook(s, id, Connected(s, service, nTime).info[id]);
    }
  }

  lemma GetAddrOnBook(s: State, now: int, picks: nat -> nat, n: nat)
    requires Core(s) && n <= |s.random|
    ensures Abs(GetAddr(s, now, picks, n).0) == Abs(s)
  {
    GetAddrMoves(s, now, picks, n);
    BookIgnoresPositions(GetAddr(s, now, picks, n).0.info, s.info, s.addr, s.newTable);
  }

  ghost function BookStep(env: Env, key: Key, b: Book, op: Op): Book {
    match op
    case AddOp(addr, source, penalty, now, later, rnd) => BookAdd(env, key, b, addr, source, penalty, now, later, rnd)
    case GoodOp(service, nTime, _) => BookGood(env, key, b, service, nTime)
    case AttemptOp(service, nTime) => BookAttempt(b, service, nTime)
    case ConnectedOp(service, nTime) => BookConnected(b, service, nTime)
    case GetAddrOp(_, _) => b
  }

  ghost function BookRun(env: Env, key: Key, b: Book, ops: seq<Op>): Book
    decreases |ops|
  {
    if ops == [] then b else BookRun(env, key, BookStep(env, key, b, ops[0]), ops[1..])
  }

  lemma InvIsCore(s: State)
    requires Inv(s)
    ensures Core(s)
  {
  }

  lemma StepKeepsKeys(s: State, op: Op)
    requires Inv(s)
    ensures Step(s, op).env == s.env && Step(s, op).key == s.key
  {
    hide Inv, Core, Step;
    InvIsCore(s);
    StepKeepsKey(s, op);
  }

  lemma StepOnBook(s: State, op: Op)
    requires Inv(s)
    ensures Abs(Step(s, op)) == BookStep(s.env, s.key, Abs(s), op)
    ensures Step(s, op).env == s.env && Step(s, op).key == s.key
  {
    hide Inv, Core, SameKey, Abs, Add, Good, Attempt, Connected, GetAddr, BookAdd, BookGood, BookAttempt, BookConnected;
    StepKeepsKeys(s, op);
    InvIsCore(s);
    match op
    case AddOp(addr, source, penalty, now, later, rnd) => AddOnBook(s, addr, source, penalty, now, later, rnd);
    case GoodOp(service, nTime, start) => GoodOnBook(s, service, nTime, start);
    case AttemptOp(service, nTime) => AttemptOnBook(s, service, nTime);
    case ConnectedOp(service, nTime) => ConnectedOnBook(s, service, nTime);
    case GetAddrOp(now, picks) => GetAddrOnBook(s, now, picks, |s.random|);
  }

  // Every run of the address manager is a run of the book.
  lemma {:induction false} RunOnBook(s: State, ops: seq<Op>)
    requires Inv(s)
    ensures Abs(Run(s, ops)) == BookRun(s.env, s.key, Abs(s), ops)
    decreases |ops|
  {
    if ops != [] {
      hide Inv, Abs, Step, BookStep;
      StepKeeps(s, ops[0]);
      StepOnBook(s, ops[0]);
      RunOnBook(Step(s, ops[0]), ops[1..]);
    }
  }
}
