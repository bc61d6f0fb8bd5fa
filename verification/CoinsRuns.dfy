/** Runs of calls on a stack of caches, and the same runs on plain maps: one map of unspent coins
    and one best block per level, without flags, entries, trimming on the way or usage. */
module CoinsRuns {
  import opened CoinsTypes
  import opened Options
  import opened CoinsView
  import opened CoinsCache

  // One call on the cache on top of a stack, or on the stack itself.
  datatype Op =
    | FetchOp(txid: Txid)
    | ModifyOp(txid: Txid)
    | ModifyNewOp(txid: Txid)
    | AssignOp(coins: Coins)
    | ReleaseOp
    | UncacheOp(txid: Txid)
    | FlushOp
    | LearnOp
    | SetBestOp(hash: Hash)
    | PushOp
    | DropOp

  // The calls a level may get while another one stands on it.
  predicate Quiet(op: Op) {
    op.FetchOp? || op.UncacheOp? || op.FlushOp? || op.LearnOp? || op.SetBestOp?
  }

  // A call on the stack without its topmost levels.
  datatype Call = Call(depth: nat, op: Op)

  // ---------------------------------------------------------------- on the stack

  // The assertions of the source, and the documented assumption of ModifyNewCoins.
  predicate Allowed(v: View, op: Op) {
    match op
    case FetchOp(_) => true
    case ModifyOp(_) => v.Cache? && v.modifier.NoModifier?
    case ModifyNewOp(txid) =>
      && v.Cache? && v.modifier.NoModifier?
      && txid !in Unspent(v.base) && (txid in v.entries ==> v.entries[txid].coins.vout == [])
    case AssignOp(_) => v.Cache? && v.modifier.Modifying?
    case ReleaseOp => v.Cache? && v.modifier.Modifying?
    case UncacheOp(_) => v.Cache?
    case FlushOp => v.Cache? && v.modifier.NoModifier?
    case LearnOp => true
    case SetBestOp(_) => v.Cache?
    case PushOp => v.Cache? ==> v.modifier.NoModifier?
    case DropOp => v.Cache? && v.modifier.NoModifier?
  }

  predicate AllowedAt(v: View, depth: nat, op: Op) {
    if depth == 0 then Allowed(v, op) else v.Cache? && Quiet(op) && AllowedAt(v.base, depth - 1, op)
  }

  ghost function Apply(mem: Memory, v: View, op: Op): View
    requires Inv(mem, v) && Allowed(v, op)
  {
    match op
    case FetchOp(txid) => Fetch(mem, v, txid)
    case ModifyOp(txid) => Modify(mem, v, txid)
    case ModifyNewOp(txid) => ModifyNew(v, txid)
    case AssignOp(coins) => Assign(v, coins)
    case ReleaseOp => ReleaseKeeps(mem, v); Release(mem, v)
    case UncacheOp(txid) => UncacheKeeps(mem, v, txid); Uncache(mem, v, txid)
    case FlushOp => Flush(mem, v)
    case LearnOp => Learn(v)
    case SetBestOp(hash) => v.(best := hash)
    case PushOp => Push(v)
    case DropOp => v.base
  }

  ghost function ApplyAt(mem: Memory, v: View, depth: nat, op: Op): View
    requires Inv(mem, v) && AllowedAt(v, depth, op)
  {
    if depth == 0 then Apply(mem, v, op) else v.(base := ApplyAt(mem, v.base, depth - 1, op))
  }

  // ---------------------------------------------------------------- on plain maps

  // The unspent coins and the best block each level has set, the database first, and the entry
  // under modification.
  datatype Plain = Plain(levels: seq<map<Txid, Coins>>, bests: seq<Hash>, live: Option<Txid>)

  predicate PlainAllowed(p: Plain, op: Op) {
    var cached, open := |p.levels| >= 2, p.live.Some?;
    match op
    case FetchOp(_) => true
    case ModifyOp(_) => cached && !open
    case ModifyNewOp(txid) => cached && !open && txid !in p.levels[|p.levels| - 2] && txid !in p.levels[|p.levels| - 1]
    case AssignOp(_) => open
    case ReleaseOp => open
    case UncacheOp(_) => cached
    case FlushOp => cached && !open
    case LearnOp => true
    case SetBestOp(_) => cached
    case PushOp => !open
    case DropOp => cached && !open
  }

  predicate PlainAllowedAt(p: Plain, depth: nat, op: Op)
    decreases depth
  {
    if depth == 0 then PlainAllowed(p, op) else |p.levels| >= 2 && Quiet(op) && PlainAllowedAt(Lower(p), depth - 1, op)
  }

  // The stack without its top.
  function Lower(p: Plain): Plain
    requires |p.levels| >= 2
  {
    Plain(p.levels[..|p.levels| - 1], Front(p.bests), None)
  }

  function Front(bests: seq<Hash>): seq<Hash> {
    if bests == [] then [] else bests[..|bests| - 1]
  }

  function Top(bests: seq<Hash>): Hash {
    if bests == [] then 0 else bests[|bests| - 1]
  }

  // The best block the levels stand for: the topmost one that was set.
  function Best(bests: seq<Hash>): Hash {
    if |bests| <= 1 || Top(bests) != 0 then Top(bests) else Best(Front(bests))
  }

  // The levels above the topmost one that was set take it over.
  function Learned(bests: seq<Hash>): seq<Hash> {
    if |bests| <= 1 || Top(bests) != 0 then bests else Learned(Front(bests)) + [Best(Front(bests))]
  }

  // The level below takes the block over; only a database keeps its own if there is none.
  function BestWritten(bests: seq<Hash>): seq<Hash> {
    if |bests| == 2 && Top(bests) == 0 then bests else Front(Front(bests)) + [Top(bests), Top(bests)]
  }

  ghost function PlainApply(p: Plain, op: Op): Plain
    requires p.levels != [] && PlainAllowed(p, op)
  {
    var top := |p.levels| - 1;
    match op
    case FetchOp(_) => p
    case ModifyOp(txid) => p.(live := Some(txid))
    case ModifyNewOp(txid) => p.(live := Some(txid))
    case AssignOp(coins) => p.(levels := p.levels[top := Written(p.levels[top], p.live.value, coins)])
    case ReleaseOp => p.(levels := p.levels[top := TrimmedAt(p.levels[top], p.live.value)], live := None)
    case UncacheOp(_) => p
    case FlushOp => p.(levels := p.levels[top - 1 := p.levels[top]], bests := BestWritten(p.bests))
    case LearnOp => p.(bests := Learned(p.bests))
    case SetBestOp(hash) => p.(bests := Front(p.bests) + [hash])
    case PushOp => p.(levels := p.levels + [p.levels[top]], bests := p.bests + [0])
    case DropOp => Lower(p)
  }

  // The levels above stay.
  ghost function PlainApplyAt(p: Plain, depth: nat, op: Op): Plain
    requires p.levels != [] && PlainAllowedAt(p, depth, op)
    decreases depth
  {
    if depth == 0 then PlainApply(p, op) else
      var q := PlainApplyAt(Lower(p), depth - 1, op);
      p.(levels := q.levels + [p.levels[|p.levels| - 1]], bests := q.bests + [Top(p.bests)])
  }

  function TrimmedAt(m: map<Txid, Coins>, txid: Txid): map<Txid, Coins> {
    if txid in m then m[txid := CleanUp(m[txid])] else m
  }

  // ---------------------------------------------------------------- one call

  // What a stack is to the plain machine.
  function Bests(v: View): seq<Hash> {
    match v
    case Db(_, best) => [best]
    case Cache(base, _, best, _, _) => Bests(base) + [best]
  }

  function PlainOf(v: View): Plain {
    Plain(Levels(v), Bests(v), if v.Cache? && v.modifier.Modifying? then Some(v.modifier.txid) else None)
  }

  lemma LevelsEnd(v: View)
    ensures Levels(v) != [] && Levels(v)[|Levels(v)| - 1] == Unspent(v)
    ensures v.Cache? <==> |Levels(v)| >= 2
    ensures v.Cache? ==> Levels(v)[..|Levels(v)| - 1] == Levels(v.base) && Levels(v)[|Levels(v)| - 2] == Unspent(v.base)
    ensures |Bests(v)| == |Levels(v)| && Top(Bests(v)) == v.best
    ensures v.Cache? ==> Front(Bests(v)) == Bests(v.base)
  {
    if v.Cache? {
      LevelsEnd(v.base);
      assert Levels(v) == Levels(v.base) + [Unspent(v)];
      assert Bests(v) == Bests(v.base) + [v.best];
    }
  }

  lemma LowerIsBase(mem: Memory, v: View)
    requires Inv(mem, v) && v.Cache?
    ensures |PlainOf(v).levels| >= 2 && Lower(PlainOf(v)) == PlainOf(v.base) && Inv(mem, v.base)
  {
    LevelsEnd(v);
    hide Levels, Bests, Unspent, FlagsOk, UsageOk, AllClean;
  }

  lemma SameNewAllowed(mem: Memory, v: View, txid: Txid)
    requires Inv(mem, v) && v.Cache? && v.modifier.NoModifier?
    ensures txid !in Unspent(v.base) && (txid in v.entries ==> v.entries[txid].coins.vout == []) <==>
      txid !in Unspent(v.base) && txid !in Unspent(v)
  {
    EntryShows(v, txid);
  }

  // The plain machine allows the same calls.
  lemma SameAllowed(mem: Memory, v: View, op: Op)
    requires Inv(mem, v)
    ensures Allowed(v, op) <==> PlainAllowed(PlainOf(v), op)
  {
    hide Inv, Unspent, Levels, Bests;
    LevelsEnd(v);
    if op.ModifyNewOp? && v.Cache? && v.modifier.NoModifier? {
      SameNewAllowed(mem, v, op.txid);
    }
  }

  lemma {:induction false} SameAllowedAt(mem: Memory, v: View, depth: nat, op: Op)
    requires Inv(mem, v)
    ensures AllowedAt(v, depth, op) <==> PlainAllowedAt(PlainOf(v), depth, op)
  {
    hide Inv, Unspent, Levels, Bests, Allowed, PlainAllowed, Lower;
    LevelsEnd(v);
    if depth == 0 {
      SameAllowed(mem, v, op);
    } else if v.Cache? {
      LowerIsBase(mem, v);
      SameAllowedAt(mem, v.base, depth - 1, op);
    }
  }

  lemma {:induction false} LearnKeeps(mem: Memory, v: View)
    requires Inv(mem, v)
    ensures Inv(mem, Learn(v)) && Learn(v).Cache? == v.Cache? && (v.Cache? ==> Learn(v).modifier == v.modifier)
    ensures Unspent(Learn(v)) == Unspent(v) && Levels(Learn(v)) == Levels(v)
    ensures BestBlock(Learn(v)) == BestBlock(v)
  {
    hide Overlay, FlagsOk, UsageOk, AllClean;
    if v.Cache? {
      LearnKeeps(mem, v.base);
    }
  }

  lemma {:induction false} LearnedBests(v: View)
    ensures Best(Bests(v)) == BestBlock(v)
    ensures Bests(Learn(v)) == Learned(Bests(v))
  {
    LevelsEnd(v);
    hide Levels, Unspent;
    if v.Cache? {
      LevelsEnd(v.base);
      LearnedBests(v.base);
    }
  }

  lemma {:induction false} FetchBests(mem: Memory, v: View, txid: Txid)
    ensures Bests(Fetch(mem, v, txid)) == Bests(v)
  {
    if v.Cache? {
      FetchBests(mem, v.base, txid);
    }
  }

  lemma FlushBests(mem: Memory, v: View)
    requires v.Cache?
    ensures Bests(Flush(mem, v)) == BestWritten(Bests(v))
  {
    LevelsEnd(v);
    LevelsEnd(v.base);
    hide Levels, Unspent;
  }

  // ---------------------------------------------------------------- call by call

  // What a level must keep while another one stands on it.
  predicate Above(w: View, v: View) {
    Unspent(w) == Unspent(v) && w.Cache? == v.Cache? && (v.Cache? ==> w.modifier == v.modifier)
  }

  ghost predicate Refines(mem: Memory, v: View, op: Op)
    requires Inv(mem, v) && Allowed(v, op)
  {
    var p, w := PlainOf(v), Apply(mem, v, op);
    && p.levels != [] && PlainAllowed(p, op)
    && Inv(mem, w) && PlainOf(w) == PlainApply(p, op)
    && (Quiet(op) ==> Above(w, v))
  }

  lemma FetchRefines(mem: Memory, v: View, txid: Txid)
    requires Inv(mem, v)
    ensures Refines(mem, v, FetchOp(txid))
  {
    hide Inv, Levels, Bests, Unspent;
    LevelsEnd(v);
    FetchKeeps(mem, v, txid);
    FetchBests(mem, v, txid);
  }

  lemma ModifyRefines(mem: Memory, v: View, txid: Txid)
    requires Inv(mem, v) && Allowed(v, ModifyOp(txid))
    ensures Refines(mem, v, ModifyOp(txid))
  {
    hide Inv, Levels, Unspent;
    LevelsEnd(v);
    ModifyKeeps(mem, v, txid);
    FetchBests(mem, v.base, txid);
  }

  lemma ModifyNewRefines(mem: Memory, v: View, txid: Txid)
    requires Inv(mem, v) && Allowed(v, ModifyNewOp(txid))
    ensures Refines(mem, v, ModifyNewOp(txid))
  {
    SameAllowed(mem, v, ModifyNewOp(txid));
    hide Inv, Levels, Unspent;
    LevelsEnd(v);
    ModifyNewKeepsIff(mem, v, txid);
  }

  lemma LiveIsCached(mem: Memory, v: View)
    requires Inv(mem, v) && v.Cache? && v.modifier.Modifying?
    ensures v.modifier.txid in v.entries
  {
  }

  // Writing to the top level.
  lemma TopWritten(v: View, w: View, m: map<Txid, Coins>)
    requires v.Cache? && w.Cache? && w.base == v.base && w.best == v.best && Levels(w) == Levels(v.base) + [m]
    ensures Levels(v) != [] && Levels(w) == Levels(v)[|Levels(v)| - 1 := m]
    ensures Bests(w) == Bests(v)
  {
    hide Unspent;
    assert Levels(v) == Levels(v.base) + [Unspent(v)];
  }

  lemma AssignRefines(mem: Memory, v: View, coins: Coins)
    requires Inv(mem, v) && Allowed(v, AssignOp(coins))
    ensures Refines(mem, v, AssignOp(coins))
  {
    hide Inv, Levels, Bests, Unspent, Written, Top, Front;
    LiveIsCached(mem, v);
    LevelsEnd(v);
    AssignKeeps(mem, v, coins);
    TopWritten(v, Assign(v, coins), Written(Unspent(v), v.modifier.txid, coins));
  }

  lemma ReleaseRefines(mem: Memory, v: View)
    requires Inv(mem, v) && Allowed(v, ReleaseOp)
    ensures Refines(mem, v, ReleaseOp)
  {
    hide Inv, Levels, Bests, Unspent, Written, TrimmedAt, CleanUp, Top, Front;
    LiveIsCached(mem, v);
    TrimmedIsWritten(v);
    LevelsEnd(v);
    ReleaseKeeps(mem, v);
    TopWritten(v, Release(mem, v), TrimmedAt(Unspent(v), v.modifier.txid));
  }

  // The coins shown are the ones in the entry, unless those are pruned.
  lemma TrimmedIsWritten(v: View)
    requires v.Cache? && v.modifier.Modifying? && v.modifier.txid in v.entries
    ensures TrimmedAt(Unspent(v), v.modifier.txid) == Written(Unspent(v), v.modifier.txid, CleanUp(v.entries[v.modifier.txid].coins))
  {
    var txid := v.modifier.txid;
    CleanUpKeeps(v.entries[txid].coins);
    UnspentIsOverlay(v);
    OverlayAt(Unspent(v.base), v.entries, txid);
    hide Unspent, Overlay, CleanUp;
    if txid !in Unspent(v) {
      assert Unspent(v) - {txid} == Unspent(v);
    }
  }

  lemma UncacheRefines(mem: Memory, v: View, txid: Txid)
    requires Inv(mem, v) && Allowed(v, UncacheOp(txid))
    ensures Refines(mem, v, UncacheOp(txid))
  {
    hide Inv, Levels, Unspent;
    LevelsEnd(v);
    UncacheKeeps(mem, v, txid);
    LevelsEnd(Uncache(mem, v, txid));
  }

  lemma FlushRefines(mem: Memory, v: View)
    requires Inv(mem, v) && Allowed(v, FlushOp)
    ensures Refines(mem, v, FlushOp)
  {
    hide Inv, Levels, Bests, Unspent, BestWritten;
    LevelsEnd(v);
    FlushKeeps(mem, v);
    FlushBests(mem, v);
  }

  lemma LearnRefines(mem: Memory, v: View)
    requires Inv(mem, v)
    ensures Refines(mem, v, LearnOp)
  {
    hide Inv, Levels, Bests, Unspent, Learn, Learned;
    LevelsEnd(v);
    LearnKeeps(mem, v);
    LearnedBests(v);
  }

  lemma SetBestRefines(mem: Memory, v: View, hash: Hash)
    requires Inv(mem, v) && Allowed(v, SetBestOp(hash))
    ensures Refines(mem, v, SetBestOp(hash))
  {
    hide Overlay;
    LevelsEnd(v);
  }

  lemma PushRefines(mem: Memory, v: View)
    requires Inv(mem, v) && Allowed(v, PushOp)
    ensures Refines(mem, v, PushOp)
  {
    hide Inv, Levels, Bests, Unspent;
    PushKeeps(mem, v);
    LevelsEnd(v);
    PushedLevels(v);
  }

  lemma PushedLevels(v: View)
    ensures Levels(Push(v)) == Levels(v) + [Unspent(Push(v))] && Bests(Push(v)) == Bests(v) + [0]
  {
    hide Unspent;
  }

  // A new cache shows what is below it.
  lemma PushKeeps(mem: Memory, v: View)
    requires Inv(mem, v) && Allowed(v, PushOp)
    ensures Inv(mem, Push(v)) && Unspent(Push(v)) == Unspent(v)
  {
    UnspentIsNotPruned(v);
    EmptyOverlay(Unspent(v));
    NoEntries(mem, Unspent(v));
  }

  lemma DropRefines(mem: Memory, v: View)
    requires Inv(mem, v) && Allowed(v, DropOp)
    ensures Refines(mem, v, DropOp)
  {
    hide Inv, Levels, Bests, Unspent;
    LowerIsBase(mem, v);
    LevelsEnd(v);
  }

  lemma BaseReplaced(mem: Memory, v: View, below: View)
    requires v.Cache? && Inv(mem, v) && Inv(mem, below) && Above(below, v.base)
    ensures Inv(mem, v.(base := below)) && Above(v.(base := below), v)
    ensures Levels(v.(base := below)) == Levels(below) + [Unspent(v)]
    ensures Bests(v.(base := below)) == Bests(below) + [v.best]
  {
    hide FlagsOk, UsageOk, AllClean, Overlay;
  }

  lemma ApplyRefines(mem: Memory, v: View, op: Op)
    requires Inv(mem, v) && Allowed(v, op)
    ensures Refines(mem, v, op)
  {
    hide Inv, Refines;
    match op
    case FetchOp(txid) => FetchRefines(mem, v, txid);
    case ModifyOp(txid) => ModifyRefines(mem, v, txid);
    case ModifyNewOp(txid) => ModifyNewRefines(mem, v, txid);
    case AssignOp(coins) => AssignRefines(mem, v, coins);
    case ReleaseOp => ReleaseRefines(mem, v);
    case UncacheOp(txid) => UncacheRefines(mem, v, txid);
    case FlushOp => FlushRefines(mem, v);
    case LearnOp => LearnRefines(mem, v);
    case SetBestOp(hash) => SetBestRefines(mem, v, hash);
    case PushOp => PushRefines(mem, v);
    case DropOp => DropRefines(mem, v);
  }

  // ... and every call, on any level, does to the stack what it does to the plain machine.
  lemma {:induction false} CallRefines(mem: Memory, v: View, depth: nat, op: Op)
    requires Inv(mem, v) && AllowedAt(v, depth, op)
    ensures RefinesAt(mem, v, depth, op)
  {
    hide Inv, Refines;
    if depth == 0 {
      ApplyRefines(mem, v, op);
      TopRefines(mem, v, op);
    } else {
      LowerIsBase(mem, v);
      CallRefines(mem, v.base, depth - 1, op);
      BelowRefines(mem, v, depth, op);
    }
  }

  ghost predicate RefinesAt(mem: Memory, v: View, depth: nat, op: Op)
    requires Inv(mem, v) && AllowedAt(v, depth, op)
  {
    var p, w := PlainOf(v), ApplyAt(mem, v, depth, op);
    && p.levels != [] && PlainAllowedAt(p, depth, op)
    && Inv(mem, w) && PlainOf(w) == PlainApplyAt(p, depth, op)
    && (Quiet(op) ==> Above(w, v))
  }

  lemma TopRefines(mem: Memory, v: View, op: Op)
    requires Inv(mem, v) && Allowed(v, op) && Refines(mem, v, op)
    ensures RefinesAt(mem, v, 0, op)
  {
    hide Inv, Allowed, PlainAllowed, Apply, PlainApply, PlainOf, Quiet, Above;
  }

  // A call below does not reach what stands above.
  lemma BelowRefines(mem: Memory, v: View, depth: nat, op: Op)
    requires Inv(mem, v) && AllowedAt(v, depth, op) && depth > 0
    requires Inv(mem, v.base) && RefinesAt(mem, v.base, depth - 1, op)
    ensures RefinesAt(mem, v, depth, op)
  {
    hide Inv, Levels, Bests, Unspent, Lower, Top, Allowed, PlainAllowed, Apply, PlainApply, Quiet, Above;
    LevelsEnd(v);
    LowerIsBase(mem, v);
    var below := ApplyAt(mem, v.base, depth - 1, op);
    BaseReplaced(mem, v, below);
    assert ApplyAt(mem, v, depth, op) == v.(base := below);
    PlainBelow(PlainOf(v), depth, op);
  }

  lemma PlainBelow(p: Plain, depth: nat, op: Op)
    requires depth > 0 && |p.levels| >= 2 && Quiet(op) && Lower(p).levels != [] && PlainAllowedAt(Lower(p), depth - 1, op)
    ensures PlainAllowedAt(p, depth, op)
    ensures PlainApplyAt(p, depth, op) ==
      var q := PlainApplyAt(Lower(p), depth - 1, op);
      p.(levels := q.levels + [p.levels[|p.levels| - 1]], bests := q.bests + [Top(p.bests)])
  {
    hide Lower, Top, Quiet, Allowed, PlainAllowed, PlainApply;
  }

  // ---------------------------------------------------------------- runs

  // A call that an assertion or the assumption of ModifyNewCoins rules out is not made.
  ghost function Step(mem: Memory, v: View, call: Call): (w: View)
    requires Inv(mem, v)
    ensures Inv(mem, w)
  {
    if AllowedAt(v, call.depth, call.op) then
      CallRefines(mem, v, call.depth, call.op);
      ApplyAt(mem, v, call.depth, call.op)
    else v
  }

  ghost function PlainStep(p: Plain, call: Call): Plain {
    if p.levels != [] && PlainAllowedAt(p, call.depth, call.op) then PlainApplyAt(p, call.depth, call.op) else p
  }

  ghost function Run(mem: Memory, v: View, calls: seq<Call>): (w: View)
    requires Inv(mem, v)
    ensures Inv(mem, w)
  {
    if calls == [] then v else Step(mem, Run(mem, v, calls[..|calls| - 1]), calls[|calls| - 1])
  }

  ghost function PlainRun(p: Plain, calls: seq<Call>): Plain {
    if calls == [] then p else PlainStep(PlainRun(p, calls[..|calls| - 1]), calls[|calls| - 1])
  }

  lemma StepRefines(mem: Memory, v: View, call: Call)
    requires Inv(mem, v)
    ensures AllowedAt(v, call.depth, call.op) <==> PlainAllowedAt(PlainOf(v), call.depth, call.op)
    ensures PlainOf(Step(mem, v, call)) == PlainStep(PlainOf(v), call)
  {
    hide Inv, Levels, Bests, Unspent, ApplyAt, PlainApplyAt, AllowedAt, PlainAllowedAt;
    LevelsEnd(v);
    SameAllowedAt(mem, v, call.depth, call.op);
    if AllowedAt(v, call.depth, call.op) {
      CallRefines(mem, v, call.depth, call.op);
    }
  }

  // Any run of calls on any stack is the run of the same calls on plain maps.
  lemma {:induction false} RunRefines(mem: Memory, v: View, calls: seq<Call>)
    requires Inv(mem, v)
    ensures PlainOf(Run(mem, v, calls)) == PlainRun(PlainOf(v), calls)
  {
    hide Inv, PlainOf, Step, PlainStep;
    if calls != [] {
      RunRefines(mem, v, calls[..|calls| - 1]);
      StepRefines(mem, Run(mem, v, calls[..|calls| - 1]), calls[|calls| - 1]);
    }
  }
}
