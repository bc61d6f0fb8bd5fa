/** The UTXO cache stack as a value: a database with any number of write-back caches on top.
    FRESH and DIRTY flags let entries be dropped instead of written; the plain reading of a
    view, its unspent coins, is what the flags must never get wrong. */
module CoinsView {
  import opened CoinsTypes
  import opened Options

  // A block hash; 0 is the null hash.
  type Hash = nat

  datatype Entry = Entry(coins: Coins, isDirty: bool, isFresh: bool)

  type Entries = map<Txid, Entry>

  // A live CCoinsModifier: the entry it refers to and the usage it will subtract.
  datatype Modifier = NoModifier | Modifying(txid: Txid, oldUsage: nat)

  datatype View =
    | Db(coins: map<Txid, Coins>, best: Hash)
    | Cache(base: View, entries: Entries, best: Hash, usage: nat, modifier: Modifier)

  // How much memory coins take; none without outputs.
  type Memory = f: Coins -> nat | forall c: Coins :: c.vout == [] ==> f(c) == 0 ghost witness (c: Coins) => 0

  // ---------------------------------------------------------------- what a view means

  // GetCoins, without filling the caches on the way.
  function Look(v: View, txid: Txid): Option<Coins> {
    match v
    case Db(coins, _) => if txid in coins then Some(coins[txid]) else None
    case Cache(base, entries, _, _, _) => if txid in entries then Some(entries[txid].coins) else Look(base, txid)
  }

  // The unspent coins a view stands for: pruned is as good as absent.
  function Unspent(v: View): map<Txid, Coins> {
    match v
    case Db(coins, _) => map txid | txid in coins && !coins[txid].IsPruned() :: coins[txid]
    case Cache(base, entries, _, _, _) => Overlay(Unspent(base), entries)
  }

  function Overlay(below: map<Txid, Coins>, entries: Entries): map<Txid, Coins> {
    map txid | txid in below.Keys + entries.Keys && (txid in entries ==> !entries[txid].coins.IsPruned()) ::
      if txid in entries then entries[txid].coins else below[txid]
  }

  // GetBestBlock
  function BestBlock(v: View): Hash {
    match v
    case Db(_, best) => best
    case Cache(base, _, best, _, _) => if best == 0 then BestBlock(base) else best
  }

  // The plain reading of all levels, the database first.
  function Levels(v: View): seq<map<Txid, Coins>> {
    match v
    case Db(_, _) => [Unspent(v)]
    case Cache(base, _, _, _, _) => Levels(base) + [Unspent(v)]
  }

  // ---------------------------------------------------------------- the invariant

  // Usages of all entries, summed up.
  ghost function Total(mem: Memory, entries: Entries): nat
    decreases |entries|
  {
    if entries == map[] then 0 else
      var txid :| txid in entries;
      mem(entries[txid].coins) + Total(mem, entries - {txid})
  }

  // FRESH: nothing unspent below.  Not DIRTY: as below.
  ghost predicate FlagsOk(below: map<Txid, Coins>, entries: Entries) {
    forall txid | txid in entries ::
      && (entries[txid].isFresh ==> txid !in below)
      && (!entries[txid].isDirty ==> AsBelow(below, txid, entries[txid].coins))
  }

  ghost predicate AsBelow(below: map<Txid, Coins>, txid: Txid, coins: Coins) {
    if coins.IsPruned() then txid !in below else txid in below && below[txid] == coins
  }

  // cachedCoinsUsage counts every entry, and for one under modification its old usage.
  ghost predicate UsageOk(mem: Memory, entries: Entries, usage: nat, modifier: Modifier) {
    match modifier
    case NoModifier => usage == Total(mem, entries)
    case Modifying(txid, oldUsage) => txid in entries && entries[txid].isDirty && usage == Total(mem, entries - {txid}) + oldUsage
  }

  ghost predicate AllClean(entries: Entries, modifier: Modifier) {
    forall txid | txid in entries && !(modifier.Modifying? && modifier.txid == txid) :: IsClean(entries[txid].coins)
  }

  // A view under another one has no live modifier.
  ghost predicate Inv(mem: Memory, v: View) {
    match v
    case Db(coins, _) => forall txid | txid in coins :: IsClean(coins[txid])
    case Cache(base, entries, _, usage, modifier) =>
      && Inv(mem, base) && (base.Cache? ==> base.modifier.NoModifier?)
      && FlagsOk(Unspent(base), entries)
      && UsageOk(mem, entries, usage, modifier)
      && AllClean(entries, modifier)
  }

  // ---------------------------------------------------------------- the operations

  // FetchCoins: fills every cache on the way down to where the coins are found.
  function Fetch(mem: Memory, v: View, txid: Txid): View {
    match v
    case Db(_, _) => v
    case Cache(base, entries, _, usage, _) =>
      if txid in entries then v else
        var below := Fetch(mem, base, txid);
        match Look(base, txid)
        case None => v.(base := below)
        case Some(coins) =>
          v.(base := below, entries := entries[txid := Entry(coins, false, coins.IsPruned())], usage := usage + mem(coins))
  }

  // ModifyCoins: the entry is made, if need be from below, and marked dirty.
  function Modify(mem: Memory, v: View, txid: Txid): View
    requires v.Cache? && v.modifier.NoModifier?
  {
    if txid in v.entries then
      v.(entries := v.entries[txid := v.entries[txid].(isDirty := true)], modifier := Modifying(txid, mem(v.entries[txid].coins)))
    else
      var below := Fetch(mem, v.base, txid);
      var entry := match Look(v.base, txid)
        case None => Entry(EMPTY, true, true)
        case Some(coins) => Entry(coins, true, coins.IsPruned());
      v.(base := below, entries := v.entries[txid := entry], modifier := Modifying(txid, 0))
  }

  // ModifyNewCoins: marked fresh without asking below.
  function ModifyNew(v: View, txid: Txid): View
    requires v.Cache? && v.modifier.NoModifier?
  {
    v.(entries := v.entries[txid := Entry(EMPTY, true, true)], modifier := Modifying(txid, 0))
  }

  // The holder of the modifier writes through it.
  function Assign(v: View, coins: Coins): View
    requires v.Cache? && v.modifier.Modifying? && v.modifier.txid in v.entries
  {
    v.(entries := v.entries[v.modifier.txid := v.entries[v.modifier.txid].(coins := coins)])
  }

  // ~CCoinsModifier
  function Release(mem: Memory, v: View): View
    requires v.Cache? && v.modifier.Modifying? && v.modifier.txid in v.entries
    requires v.modifier.oldUsage <= v.usage
  {
    var txid := v.modifier.txid;
    var entry := v.entries[txid].(coins := CleanUp(v.entries[txid].coins));
    if entry.isFresh && entry.coins.IsPruned() then
      v.(entries := v.entries - {txid}, usage := v.usage - v.modifier.oldUsage, modifier := NoModifier)
    else
      v.(entries := v.entries[txid := entry], usage := v.usage - v.modifier.oldUsage + mem(entry.coins), modifier := NoModifier)
  }

  // Uncache
  function Uncache(mem: Memory, v: View, txid: Txid): View
    requires v.Cache?
    requires txid in v.entries ==> mem(v.entries[txid].coins) <= v.usage || v.entries[txid].isDirty || v.entries[txid].isFresh
  {
    if txid in v.entries && !v.entries[txid].isDirty && !v.entries[txid].isFresh then
      v.(entries := v.entries - {txid}, usage := v.usage - mem(v.entries[txid].coins))
    else v
  }

  // GetBestBlock, which remembers the answer on the levels that had none.
  function Learn(v: View): View {
    match v
    case Db(_, _) => v
    case Cache(base, _, best, _, _) => if best == 0 then v.(base := Learn(base), best := BestBlock(base)) else v
  }

  // What BatchWrite makes of one entry of the child, given ours.
  function MergeEntry(ours: Option<Entry>, child: Entry): Option<Entry> {
    if !child.isDirty then ours else
      match ours
      case None => if child.isFresh && child.coins.IsPruned() then None else Some(Entry(child.coins, true, child.isFresh))
      case Some(entry) =>
        if entry.isFresh && child.coins.IsPruned() then None else Some(Entry(child.coins, true, entry.isFresh))
  }

  function Merged(ours: Entries, child: Entries, txid: Txid): Option<Entry> {
    var mine := if txid in ours then Some(ours[txid]) else None;
    if txid in child then MergeEntry(mine, child[txid]) else mine
  }

  // All entries of the child written into ours.
  function Merge(ours: Entries, child: Entries): Entries {
    map txid | txid in ours.Keys + child.Keys && Merged(ours, child, txid).Some? :: Merged(ours, child, txid).value
  }

  // CCoinsViewDB::BatchWrite
  function WriteDb(coins: map<Txid, Coins>, child: Entries): map<Txid, Coins> {
    map txid | txid in coins.Keys + child.Keys
               && (if txid in child && child[txid].isDirty then !child[txid].coins.IsPruned() else txid in coins) ::
      if txid in child && child[txid].isDirty then child[txid].coins else coins[txid]
  }

  ghost function BatchWrite(mem: Memory, v: View, child: Entries, best: Hash): View {
    match v
    case Db(coins, ours) => Db(WriteDb(coins, child), if best != 0 then best else ours)
    case Cache(base, entries, _, _, modifier) =>
      Cache(base, Merge(entries, child), best, Total(mem, Merge(entries, child)), modifier)
  }

  // Flush
  ghost function Flush(mem: Memory, v: View): View
    requires v.Cache?
  {
    v.(base := BatchWrite(mem, v.base, v.entries, v.best), entries := map[], usage := 0)
  }

  // A new cache on top.
  function Push(v: View): View {
    Cache(v, map[], 0, 0, NoModifier)
  }
}
