/** The parallel check queue as a state machine.  One master and any number of workers take
    steps in any order; a step is one region under the mutex, or the unlocked work on a batch.
    A wait on a condition variable ends by a notification or for no reason at all. */
module CheckQueue {
  // A check and what running it yields.
  datatype Check = Check(id: nat, ok: bool)

  // Where a thread is in Loop().
  datatype Local =
    | Outside                                   // not in Loop
    | AtLock(batch: seq<Check>, fOk: bool)      // about to take the lock, with nNow == |batch| checks done
    | Running(batch: seq<Check>, fOk: bool)     // working on a batch without the lock
    | Waiting(notified: bool)                   // in cond.wait

  // The shared fields and the threads; thread 0 is the master.  Two history variables hold
  // the checks added since Wait last returned, and those of them whose result is counted.
  datatype State = State(
    queue: seq<Check>, nIdle: int, nTotal: int, fAllOk: bool, nTodo: int, nBatchSize: nat,
    threads: seq<Local>,
    added: multiset<Check>, finished: multiset<Check>)

  function Init(nBatchSize: nat, nWorkers: nat): (s: State)
    ensures Inv(s)
  {
    AllOutside(1 + nWorkers);
    State([], 0, 0, true, 0, nBatchSize, seq(1 + nWorkers, _ => Outside), multiset{}, multiset{})
  }

  // ---------------------------------------------------------------- the regions

  // The clean-up after a batch, or the arrival.  Only the master waits on condMaster.
  function CleanUp(s: State, t: nat): State
    requires t < |s.threads| && s.threads[t].AtLock?
  {
    var batch, fOk := s.threads[t].batch, s.threads[t].fOk;
    if batch != [] then
      var nTodo := s.nTodo - |batch|;
      s.(fAllOk := s.fAllOk && fOk, nTodo := nTodo, finished := s.finished + multiset(batch),
         threads := if nTodo == 0 && t != 0 then NotifyMaster(s.threads) else s.threads)
    else
      s.(nTotal := s.nTotal + 1)
  }

  function NotifyMaster(ls: seq<Local>): (r: seq<Local>)
    requires ls != []
    ensures |r| == |ls|
  {
    if ls[0].Waiting? then ls[0 := Waiting(true)] else ls
  }

  // max(1, min(nBatchSize, queue.size() / (nTotal + nIdle + 1)))
  function BatchSize(s: State): (n: nat)
    requires s.queue != [] && s.nTotal + s.nIdle + 1 > 0
    ensures 1 <= n <= |s.queue|
  {
    var share := |s.queue| / (s.nTotal + s.nIdle + 1);
    DivideShrinks(|s.queue|, s.nTotal + s.nIdle + 1);
    var n := if share < s.nBatchSize then share else s.nBatchSize;
    if n < 1 then 1 else n
  }

  lemma DivideShrinks(n: nat, d: int)
    requires d > 0
    ensures 0 <= n / d <= n
  {
    var q, r := n / d, n % d;
    assert n == q * d + r;
    TimesPositive(q, d);
  }

  lemma TimesPositive(q: int, d: int)
    requires d > 0
    ensures q >= 0 ==> q * d >= q
    ensures q < 0 ==> q * d <= -d
  {
  }

  // A batch comes off the back of the queue, last check first.
  function Reversed(a: seq<Check>): (r: seq<Check>)
    ensures multiset(r) == multiset(a) && |r| == |a|
  {
    if a == [] then [] else
      assert a == a[..|a| - 1] + [a[|a| - 1]];
      [a[|a| - 1]] + Reversed(a[..|a| - 1])
  }

  // What a region ends in: the thread goes on, or it leaves Loop with a result.
  datatype Outcome = Stays(s: State) | Leaves(s: State, fRet: bool)

  // The inner loop's head under the lock: leave, wait, or take a batch.
  function LoopHead(s: State, t: nat): Outcome
    requires t < |s.threads| && s.nTotal + s.nIdle + 1 > 0
  {
    if s.queue == [] then
      if t == 0 && s.nTodo == 0 then
        Leaves(s.(nTotal := s.nTotal - 1, fAllOk := true, threads := s.threads[0 := Outside],
                  added := multiset{}, finished := multiset{}),
               s.fAllOk)
      else
        Stays(s.(nIdle := s.nIdle + 1, threads := s.threads[t := Waiting(false)]))
    else
      var rest := |s.queue| - BatchSize(s);
      Stays(s.(queue := s.queue[..rest], threads := s.threads[t := Running(Reversed(s.queue[rest..]), s.fAllOk)]))
  }

  // The checks of a batch are worked off, and skipped once one has failed.
  function RunBatch(batch: seq<Check>, fOk: bool): (r: bool)
    ensures r <==> fOk && forall c | c in batch :: c.ok
  {
    if batch == [] then fOk else
      var r := RunBatch(batch[..|batch| - 1], fOk);
      assert batch == batch[..|batch| - 1] + [batch[|batch| - 1]];
      if r then batch[|batch| - 1].ok else false
  }

  // ---------------------------------------------------------------- the steps

  datatype Step =
    | Start(t: nat)                         // a worker thread starts, or the master calls Wait
    | Enter(t: nat)                         // the region at the top of the outer loop
    | Wake(t: nat)                          // a wait ends, notified or not
    | Execute(t: nat)                       // a batch is worked off
    | Add(checks: seq<Check>, woken: nat)   // the master adds checks; woken is whom notify_one picks

  predicate Enabled(s: State, step: Step) {
    match step
    case Start(t) => t < |s.threads| && s.threads[t].Outside?
    case Enter(t) => t < |s.threads| && s.threads[t].AtLock?
    case Wake(t) => t < |s.threads| && s.threads[t].Waiting?
    case Execute(t) => t < |s.threads| && s.threads[t].Running?
    case Add(checks, woken) =>
      && 0 < |s.threads| && s.threads[0].Outside?
      && (|checks| == 1 && (exists i | 0 < i < |s.threads| :: s.threads[i] == Waiting(false)) ==>
            0 < woken < |s.threads| && s.threads[woken] == Waiting(false))
  }

  // The workers after Add has notified one of them, all of them, or nobody.
  function Notified(ls: seq<Local>, checks: seq<Check>, woken: nat): (r: seq<Local>)
    ensures |r| == |ls|
    ensures forall i | 0 <= i < |r| :: r[i] == ls[i] || (ls[i].Waiting? && r[i] == Waiting(true) && i > 0)
  {
    if |checks| == 1 then
      if 0 < woken < |ls| && ls[woken].Waiting? then ls[woken := Waiting(true)] else ls
    else if |checks| > 1 then
      seq(|ls|, i requires 0 <= i < |ls| => if i > 0 && ls[i].Waiting? then Waiting(true) else ls[i])
    else ls
  }

  function Next(s: State, step: Step): Outcome
    requires Enabled(s, step) && Counted(s)
  {
    match step
    case Start(t) => Stays(s.(threads := s.threads[t := AtLock([], true)]))
    case Enter(t) => LoopHead(CleanUp(s, t), t)
    case Wake(t) =>
      CountsBound(s.threads, t);
      LoopHead(s.(nIdle := s.nIdle - 1), t)
    case Execute(t) =>
      var l := s.threads[t];
      Stays(s.(threads := s.threads[t := AtLock(l.batch, RunBatch(l.batch, l.fOk))]))
    case Add(checks, woken) =>
      Stays(s.(queue := s.queue + checks, nTodo := s.nTodo + |checks|, added := s.added + multiset(checks),
               threads := Notified(s.threads, checks, woken)))
  }

  // ---------------------------------------------------------------- sums over the threads

  // The checks a thread holds.
  function Held(l: Local): seq<Check> {
    if l.AtLock? || l.Running? then l.batch else []
  }

  function HeldBy(ls: seq<Local>): multiset<Check> {
    if ls == [] then multiset{} else HeldBy(ls[..|ls| - 1]) + multiset(Held(ls[|ls| - 1]))
  }

  // Whether nTotal and nIdle count a thread.
  function InLoop(l: Local): nat {
    if l.Waiting? || l.Running? || (l.AtLock? && l.batch != []) then 1 else 0
  }

  function Idle(l: Local): nat {
    if l.Waiting? then 1 else 0
  }

  function CountInLoop(ls: seq<Local>): nat {
    if ls == [] then 0 else CountInLoop(ls[..|ls| - 1]) + InLoop(ls[|ls| - 1])
  }

  function CountIdle(ls: seq<Local>): nat {
    if ls == [] then 0 else CountIdle(ls[..|ls| - 1]) + Idle(ls[|ls| - 1])
  }

  lemma {:induction false} CountsBound(ls: seq<Local>, t: nat)
    requires t < |ls|
    ensures CountInLoop(ls) >= InLoop(ls[t]) && CountIdle(ls) >= Idle(ls[t])
    ensures multiset(Held(ls[t])) <= HeldBy(ls)
  {
    if t < |ls| - 1 {
      CountsBound(ls[..|ls| - 1], t);
    }
  }

  // Replacing one thread changes each sum by the difference of the two summands.
  lemma {:induction false} HeldMoves(ls: seq<Local>, t: nat, l: Local)
    requires t < |ls|
    ensures HeldBy(ls[t := l]) + multiset(Held(ls[t])) == HeldBy(ls) + multiset(Held(l))
  {
    hide Held;
    var n := |ls| - 1;
    var ms := ls[t := l];
    if t == n {
      assert ms[..n] == ls[..n];
      Rearranged(HeldBy(ls[..n]), multiset(Held(l)), multiset(Held(ls[t])));
    } else {
      HeldMoves(ls[..n], t, l);
      assert ms[..n] == ls[..n][t := l];
      assert ms[n] == ls[n];
      AddToBoth(HeldBy(ms[..n]), multiset(Held(ls[t])), HeldBy(ls[..n]), multiset(Held(l)), multiset(Held(ls[n])));
    }
  }

  lemma Rearranged(a: multiset<Check>, b: multiset<Check>, c: multiset<Check>)
    ensures (a + b) + c == (a + c) + b
  {
  }

  lemma AddToBoth(a: multiset<Check>, b: multiset<Check>, c: multiset<Check>, d: multiset<Check>, e: multiset<Check>)
    requires a + b == c + d
    ensures (a + e) + b == (c + e) + d
  {
    Rearranged(a, e, b);
    Rearranged(c, e, d);
  }

  lemma {:induction false} InLoopMoves(ls: seq<Local>, t: nat, l: Local)
    requires t < |ls|
    ensures CountInLoop(ls[t := l]) + InLoop(ls[t]) == CountInLoop(ls) + InLoop(l)
  {
    var n := |ls| - 1;
    if t == n {
      assert ls[t := l][..n] == ls[..n];
    } else {
      InLoopMoves(ls[..n], t, l);
      assert ls[t := l][..n] == ls[..n][t := l];
    }
  }

  lemma {:induction false} IdleMoves(ls: seq<Local>, t: nat, l: Local)
    requires t < |ls|
    ensures CountIdle(ls[t := l]) + Idle(ls[t]) == CountIdle(ls) + Idle(l)
  {
    var n := |ls| - 1;
    if t == n {
      assert ls[t := l][..n] == ls[..n];
    } else {
      IdleMoves(ls[..n], t, l);
      assert ls[t := l][..n] == ls[..n][t := l];
    }
  }

  lemma HeldStays(ls: seq<Local>, t: nat, l: Local)
    requires t < |ls| && Held(l) == Held(ls[t])
    ensures HeldBy(ls[t := l]) == HeldBy(ls)
  {
    HeldMoves(ls, t, l);
    Cancels(HeldBy(ls[t := l]), HeldBy(ls), multiset(Held(l)));
  }

  lemma Cancels(a: multiset<Check>, b: multiset<Check>, c: multiset<Check>)
    requires a + c == b + c
    ensures a == b
  {
    assert (a + c) - c == a && (b + c) - c == b;
  }

  lemma HeldTaken(ls: seq<Local>, t: nat, l: Local)
    requires t < |ls| && Held(ls[t]) == []
    ensures HeldBy(ls[t := l]) == HeldBy(ls) + multiset(Held(l))
  {
    HeldMoves(ls, t, l);
    assert HeldBy(ls[t := l]) + multiset([]) == HeldBy(ls[t := l]);
  }

  lemma HeldGiven(ls: seq<Local>, t: nat, l: Local)
    requires t < |ls| && Held(l) == []
    ensures HeldBy(ls[t := l]) + multiset(Held(ls[t])) == HeldBy(ls)
  {
    HeldMoves(ls, t, l);
    assert HeldBy(ls) + multiset([]) == HeldBy(ls);
  }

  // Notifications change none of them.
  lemma {:induction false} SumsIgnoreNotified(ls: seq<Local>, ms: seq<Local>)
    requires |ls| == |ms|
    requires forall i | 0 <= i < |ls| :: ms[i] == ls[i] || (ls[i].Waiting? && ms[i].Waiting?)
    ensures HeldBy(ms) == HeldBy(ls) && CountInLoop(ms) == CountInLoop(ls) && CountIdle(ms) == CountIdle(ls)
  {
    if ls != [] {
      SumsIgnoreNotified(ls[..|ls| - 1], ms[..|ls| - 1]);
    }
  }

  // ---------------------------------------------------------------- the invariant

  predicate AllOk(checks: multiset<Check>) {
    forall c | c in checks :: c.ok
  }

  // A thread's own verdict: true covers its whole batch, false comes from a failed check.
  predicate VerdictOk(l: Local, added: multiset<Check>) {
    && (l.AtLock? ==> if l.fOk then forall c | c in l.batch :: c.ok else l.batch != [] && !AllOk(added))
    && (l.Running? && !l.fOk ==> l.batch != [] && !AllOk(added))
  }

  // Every added check is queued, held by a thread, or counted; nTodo counts the first two kinds.
  predicate Accounted(s: State) {
    && s.added == multiset(s.queue) + HeldBy(s.threads) + s.finished
    && s.nTodo == |s.queue| + |HeldBy(s.threads)|
  }

  predicate Counted(s: State) {
    s.nTotal == CountInLoop(s.threads) && s.nIdle == CountIdle(s.threads)
  }

  predicate ResultOk(s: State) {
    && (if s.fAllOk then AllOk(s.finished) else !AllOk(s.added))
    && forall i | 0 <= i < |s.threads| :: VerdictOk(s.threads[i], s.added)
  }

  // A master that sleeps un-notified waits for checks that workers still hold.
  predicate MasterAwaited(s: State) {
    && s.threads != []
    && (s.threads[0].Waiting? ==> s.queue == [])
    && (s.threads[0] == Waiting(false) ==> HeldBy(s.threads) != multiset{})
  }

  predicate Core(s: State) {
    Accounted(s) && Counted(s) && ResultOk(s) && MasterAwaited(s)
  }

  predicate HasBatch(l: Local) {
    l.Running? ==> l.batch != []
  }

  predicate Inv(s: State) {
    Core(s) && forall i | 0 <= i < |s.threads| :: HasBatch(s.threads[i])
  }

  // ---------------------------------------------------------------- every step keeps it

  // Thread t holds the lock, has nothing in hand, and is counted as present and busy.
  function Busy(s: State, t: nat): State
    requires t < |s.threads|
  {
    s.(threads := s.threads[t := Running([], true)])
  }

  predicate AtHead(s: State, t: nat) {
    && t < |s.threads| && s.threads[t] == Running([], true)
    && Core(s)
    && forall i | 0 <= i < |s.threads| && i != t :: HasBatch(s.threads[i])
  }

  lemma {:induction false} AllOutside(n: nat)
    ensures HeldBy(seq(n, _ => Outside)) == multiset{}
    ensures CountInLoop(seq(n, _ => Outside)) == 0 && CountIdle(seq(n, _ => Outside)) == 0
  {
    if n > 0 {
      assert seq(n, _ => Outside)[..n - 1] == seq(n - 1, _ => Outside);
      AllOutside(n - 1);
    }
  }

  lemma StartKeeps(s: State, t: nat)
    requires Inv(s) && Enabled(s, Start(t))
    ensures Inv(Next(s, Start(t)).s)
  {
    hide HeldBy, CountInLoop, CountIdle, AllOk;
    var l := AtLock([], true);
    HeldStays(s.threads, t, l);
    InLoopMoves(s.threads, t, l);
    IdleMoves(s.threads, t, l);
  }

  lemma ExecuteVerdict(s: State, t: nat)
    requires Inv(s) && Enabled(s, Execute(t))
    ensures VerdictOk(Next(s, Execute(t)).s.threads[t], s.added)
  {
    hide CountInLoop, CountIdle;
    var batch := s.threads[t].batch;
    assert HasBatch(s.threads[t]) && VerdictOk(s.threads[t], s.added);
    CountsBound(s.threads, t);
    if c :| c in batch && !c.ok {
      assert c in multiset(batch);
      assert c in s.added;
    }
  }

  lemma ExecuteCounted(s: State, t: nat)
    requires Inv(s) && Enabled(s, Execute(t))
    ensures Accounted(Next(s, Execute(t)).s) && Counted(Next(s, Execute(t)).s)
    ensures MasterAwaited(Next(s, Execute(t)).s)
  {
    hide HeldBy, CountInLoop, CountIdle, ResultOk, RunBatch;
    var l := Next(s, Execute(t)).s.threads[t];
    assert HasBatch(s.threads[t]);
    HeldStays(s.threads, t, l);
    InLoopMoves(s.threads, t, l);
    IdleMoves(s.threads, t, l);
  }

  lemma ExecuteKeeps(s: State, t: nat)
    requires Inv(s) && Enabled(s, Execute(t))
    ensures Inv(Next(s, Execute(t)).s)
  {
    ExecuteVerdict(s, t);
    ExecuteCounted(s, t);
    hide Accounted, Counted, MasterAwaited, AllOk, RunBatch, VerdictOk;
  }

  lemma AddKeeps(s: State, checks: seq<Check>, woken: nat)
    requires Inv(s) && Enabled(s, Add(checks, woken))
    ensures Inv(Next(s, Add(checks, woken)).s)
  {
    var ls := Notified(s.threads, checks, woken);
    SumsIgnoreNotified(s.threads, ls);
    var u := Next(s, Add(checks, woken)).s;
    assert Accounted(u) by {
      assert u.added == multiset(s.queue) + HeldBy(s.threads) + s.finished + multiset(checks);
    }
    forall i | 0 <= i < |ls|
      ensures VerdictOk(ls[i], u.added) && HasBatch(ls[i])
    {
      assert VerdictOk(s.threads[i], s.added) && HasBatch(s.threads[i]);
      Grows(s.added, multiset(checks));
    }
    Grows(s.added, multiset(checks));
  }

  lemma Grows(a: multiset<Check>, b: multiset<Check>)
    ensures AllOk(a + b) ==> AllOk(a)
  {
    forall c | c in a
      ensures c in a + b
    {
    }
  }

  lemma WakeArrives(s: State, t: nat)
    requires Inv(s) && Enabled(s, Wake(t))
    ensures AtHead(Busy(s.(nIdle := s.nIdle - 1), t), t)
  {
    hide HeldBy, CountInLoop, CountIdle, AllOk;
    var l := Running([], true);
    HeldStays(s.threads, t, l);
    InLoopMoves(s.threads, t, l);
    IdleMoves(s.threads, t, l);
  }

  lemma FirstArrives(s: State, t: nat)
    requires Inv(s) && Enabled(s, Enter(t)) && s.threads[t].batch == []
    ensures AtHead(Busy(CleanUp(s, t), t), t)
  {
    hide HeldBy, CountInLoop, CountIdle, AllOk;
    var l := Running([], true);
    HeldStays(s.threads, t, l);
    InLoopMoves(s.threads, t, l);
    IdleMoves(s.threads, t, l);
  }

  lemma BatchAccounted(s: State, t: nat)
    requires Inv(s) && Enabled(s, Enter(t)) && s.threads[t].batch != []
    ensures Accounted(Busy(CleanUp(s, t), t))
  {
    hide HeldBy, CountInLoop, CountIdle, ResultOk, MasterAwaited, Counted;
    var ls := CleanUp(s, t).threads;
    var batch := multiset(s.threads[t].batch);
    SumsIgnoreNotified(s.threads, ls);
    HeldGiven(ls, t, Running([], true));
    var rest := HeldBy(ls[t := Running([], true)]);
    Regroups(multiset(s.queue), rest, batch, s.finished);
  }

  lemma Regroups(a: multiset<Check>, b: multiset<Check>, c: multiset<Check>, d: multiset<Check>)
    ensures a + (b + c) + d == a + b + (d + c)
  {
  }

  lemma BatchUncounted(s: State, t: nat)
    requires Inv(s) && Enabled(s, Enter(t)) && s.threads[t].batch != []
    ensures Counted(Busy(CleanUp(s, t), t))
  {
    hide HeldBy, CountInLoop, CountIdle, ResultOk, MasterAwaited, Accounted;
    var l := Running([], true);
    var ls := CleanUp(s, t).threads;
    SumsIgnoreNotified(s.threads, ls);
    InLoopMoves(ls, t, l);
    IdleMoves(ls, t, l);
  }

  lemma BatchCounted(s: State, t: nat)
    requires Inv(s) && Enabled(s, Enter(t)) && s.threads[t].batch != []
    ensures ResultOk(Busy(CleanUp(s, t), t))
  {
    hide Accounted, Counted, MasterAwaited, HeldBy;
    var u := Busy(CleanUp(s, t), t);
    var batch := s.threads[t].batch;
    assert VerdictOk(s.threads[t], s.added);
    forall i | 0 <= i < |u.threads|
      ensures VerdictOk(u.threads[i], u.added)
    {
      assert VerdictOk(s.threads[i], s.added);
    }
    if u.fAllOk {
      forall c | c in u.finished
        ensures c.ok
      {
        assert c in s.finished || c in multiset(batch);
      }
    }
  }

  lemma BatchArrives(s: State, t: nat)
    requires Inv(s) && Enabled(s, Enter(t)) && s.threads[t].batch != []
    ensures AtHead(Busy(CleanUp(s, t), t), t)
  {
    var u := Busy(CleanUp(s, t), t);
    BatchAccounted(s, t);
    BatchUncounted(s, t);
    BatchCounted(s, t);
    hide CountInLoop, CountIdle, ResultOk, VerdictOk, Counted;
    assert MasterAwaited(u);
    forall i | 0 <= i < |u.threads| && i != t
      ensures HasBatch(u.threads[i])
    {
      assert HasBatch(s.threads[i]);
    }
  }

  // From the head of the inner loop: a sleeping thread, a batch taken, or the master's return.
  lemma SleepKeeps(s: State, t: nat)
    requires AtHead(s, t) && s.queue == [] && !(t == 0 && s.nTodo == 0)
    ensures Inv(LoopHead(s, t).s)
  {
    hide HeldBy, CountInLoop, CountIdle, AllOk;
    var l := Waiting(false);
    HeldStays(s.threads, t, l);
    InLoopMoves(s.threads, t, l);
    IdleMoves(s.threads, t, l);
  }

  lemma TakeAccounted(s: State, t: nat)
    requires AtHead(s, t) && s.queue != []
    ensures Accounted(LoopHead(s, t).s) && LoopHead(s, t).s.threads[t].batch != []
  {
    hide HeldBy, CountInLoop, CountIdle, ResultOk, MasterAwaited, HasBatch, BatchSize;
    var rest := |s.queue| - BatchSize(s);
    var l := Running(Reversed(s.queue[rest..]), s.fAllOk);
    assert s.queue == s.queue[..rest] + s.queue[rest..];
    assert |l.batch| == |s.queue| - rest;
    HeldTaken(s.threads, t, l);
    Shifts(multiset(s.queue[..rest]), multiset(l.batch), HeldBy(s.threads), s.finished);
  }

  lemma Shifts(a: multiset<Check>, b: multiset<Check>, c: multiset<Check>, d: multiset<Check>)
    ensures (a + b) + c + d == a + (c + b) + d
  {
  }

  lemma TakeKeeps(s: State, t: nat)
    requires AtHead(s, t) && s.queue != []
    ensures Inv(LoopHead(s, t).s)
  {
    TakeAccounted(s, t);
    hide HeldBy, CountInLoop, CountIdle, Accounted, BatchSize, AllOk;
    var l := LoopHead(s, t).s.threads[t];
    InLoopMoves(s.threads, t, l);
    IdleMoves(s.threads, t, l);
  }

  lemma ReturnIsExact(s: State)
    requires AtHead(s, 0) && s.queue == [] && s.nTodo == 0
    ensures HeldBy(s.threads) == multiset{} && s.finished == s.added
    ensures LoopHead(s, 0).fRet <==> AllOk(s.added)
  {
    hide CountInLoop, CountIdle, Counted, MasterAwaited, VerdictOk;
    assert HeldBy(s.threads) == multiset{};
    assert s.added == s.finished;
  }

  lemma NothingHeld(s: State, i: nat)
    requires i < |s.threads| && HeldBy(s.threads) == multiset{} && VerdictOk(s.threads[i], s.added)
    ensures VerdictOk(s.threads[i], multiset{})
  {
    hide CountInLoop, CountIdle;
    CountsBound(s.threads, i);
    var h := Held(s.threads[i]);
    assert multiset(h) == multiset{};
    assert |multiset(h)| == |h|;
  }

  lemma ReturnKeeps(s: State)
    requires AtHead(s, 0) && s.queue == [] && s.nTodo == 0
    ensures Inv(LoopHead(s, 0).s)
  {
    ReturnIsExact(s);
    forall i | 0 <= i < |s.threads|
      ensures VerdictOk(s.threads[i], multiset{})
    {
      NothingHeld(s, i);
    }
    hide HeldBy, CountInLoop, CountIdle, VerdictOk;
    HeldStays(s.threads, 0, Outside);
    InLoopMoves(s.threads, 0, Outside);
    IdleMoves(s.threads, 0, Outside);
    assert VerdictOk(Outside, multiset{});
  }
}
