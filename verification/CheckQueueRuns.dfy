/** Whole runs of the check queue: what Wait returns, that its wake-up is never lost, and
    that it returns. */
module CheckQueueRuns {
  import opened CheckQueue

  // ---------------------------------------------------------------- safety

  lemma HeadIgnoresThread(s: State, t: nat)
    requires t < |s.threads| && s.nTotal + s.nIdle + 1 > 0
    ensures LoopHead(Busy(s, t), t) == LoopHead(s, t)
  {
    hide Reversed;
    var u := Busy(s, t);
    assert u.threads[t := Outside] == s.threads[t := Outside];
    assert u.threads[t := Waiting(false)] == s.threads[t := Waiting(false)];
    if s.queue != [] {
      var l := LoopHead(s, t).s.threads[t];
      assert u.threads[t := l] == s.threads[t := l];
    }
  }

  lemma HeadKeeps(s: State, t: nat)
    requires AtHead(s, t)
    ensures s.nTotal + s.nIdle + 1 > 0
    ensures Inv(LoopHead(s, t).s)
    ensures LoopHead(s, t).Leaves? ==> t == 0 && (LoopHead(s, t).fRet <==> AllOk(s.added))
    ensures LoopHead(s, t).Stays? ==> LoopHead(s, t).s.added == s.added
  {
    hide Inv, Accounted, ResultOk, MasterAwaited, HeldBy, CountInLoop, CountIdle, AllOk;
    if s.queue != [] {
      TakeKeeps(s, t);
    } else if t == 0 && s.nTodo == 0 {
      ReturnKeeps(s);
      ReturnIsExact(s);
    } else {
      SleepKeeps(s, t);
    }
  }

  // What a step does to the history of added checks.
  function AddedAfter(s: State, step: Step): multiset<Check>
    requires Enabled(s, step) && Counted(s)
  {
    if Next(s, step).Leaves? then multiset{}
    else if step.Add? then s.added + multiset(step.checks)
    else s.added
  }

  // The head of the inner loop, reached with thread t holding the lock in state u.
  lemma ArrivedKeeps(u: State, t: nat)
    requires t < |u.threads| && AtHead(Busy(u, t), t)
    ensures u.nTotal + u.nIdle + 1 > 0
    ensures Inv(LoopHead(u, t).s)
    ensures LoopHead(u, t).Leaves? ==> t == 0 && (LoopHead(u, t).fRet <==> AllOk(u.added))
    ensures LoopHead(u, t).s.added == if LoopHead(u, t).Leaves? then multiset{} else u.added
  {
    hide Inv, AtHead, AllOk, LoopHead;
    HeadKeeps(Busy(u, t), t);
    HeadIgnoresThread(u, t);
    LeavesAfresh(u, t);
  }

  lemma EnterArrives(s: State, t: nat)
    requires Inv(s) && Enabled(s, Enter(t))
    ensures |CleanUp(s, t).threads| == |s.threads| && CleanUp(s, t).added == s.added
    ensures AtHead(Busy(CleanUp(s, t), t), t)
  {
    hide Inv, AtHead;
    if s.threads[t].batch == [] { FirstArrives(s, t); } else { BatchArrives(s, t); }
  }

  lemma LeavesAfresh(s: State, t: nat)
    requires t < |s.threads| && s.nTotal + s.nIdle + 1 > 0
    ensures LoopHead(s, t).Leaves? ==> LoopHead(s, t).s.added == multiset{}
  {
  }

  // Every step of every thread keeps the invariant.  Only the master leaves, and its result
  // is true exactly when every check added since the last return is good.
  lemma StepKeeps(s: State, step: Step)
    requires Inv(s) && Enabled(s, step)
    ensures Inv(Next(s, step).s)
    ensures Next(s, step).Leaves? ==> step in {Enter(0), Wake(0)} && (Next(s, step).fRet <==> AllOk(s.added))
    ensures Next(s, step).s.added == AddedAfter(s, step)
  {
    hide Accounted, ResultOk, MasterAwaited, HeldBy, CountInLoop, CountIdle, AllOk, AtHead, HasBatch, LoopHead, CleanUp, Busy;
    match step
    case Start(t) => StartKeeps(s, t);
    case Execute(t) => ExecuteKeeps(s, t);
    case Add(checks, woken) => AddKeeps(s, checks, woken);
    case Enter(t) =>
      EnterArrives(s, t);
      ArrivedKeeps(CleanUp(s, t), t);
    case Wake(t) =>
      WakeArrives(s, t);
      ArrivedKeeps(s.(nIdle := s.nIdle - 1), t);
  }

  // ---------------------------------------------------------------- runs

  predicate IsRun(s: State, steps: seq<Step>)
    requires Inv(s)
    decreases |steps|
  {
    steps == [] || (Enabled(s, steps[0]) && (StepKeeps(s, steps[0]); IsRun(Next(s, steps[0]).s, steps[1..])))
  }

  // What the master sees of a run: the checks it adds and the results Wait gives it.
  datatype Event = Added(checks: seq<Check>) | Returned(fRet: bool)

  function EventOf(s: State, step: Step): seq<Event>
    requires Inv(s) && Enabled(s, step)
  {
    if step.Add? then [Added(step.checks)]
    else match Next(s, step) case Leaves(_, fRet) => [Returned(fRet)] case Stays(_) => []
  }

  function Events(s: State, steps: seq<Step>): seq<Event>
    requires Inv(s) && IsRun(s, steps)
    decreases |steps|
  {
    if steps == [] then [] else
      StepKeeps(s, steps[0]);
      EventOf(s, steps[0]) + Events(Next(s, steps[0]).s, steps[1..])
  }

  function After(s: State, steps: seq<Step>): (r: State)
    requires Inv(s) && IsRun(s, steps)
    ensures Inv(r)
    decreases |steps|
  {
    if steps == [] then s else
      StepKeeps(s, steps[0]);
      After(Next(s, steps[0]).s, steps[1..])
  }

  // Every result in a log is true exactly when all checks added since the previous result are good.
  predicate Honest(since: multiset<Check>, log: seq<Event>)
    decreases |log|
  {
    log == [] ||
    match log[0]
    case Added(checks) => Honest(since + multiset(checks), log[1..])
    case Returned(fRet) => (fRet <==> AllOk(since)) && Honest(multiset{}, log[1..])
  }

  // One step in front of an honest log.
  lemma StepIsHonest(s: State, step: Step, rest: seq<Event>)
    requires Inv(s) && Enabled(s, step) && Honest(Next(s, step).s.added, rest)
    ensures Honest(s.added, EventOf(s, step) + rest)
  {
    StepKeeps(s, step);
    hide Inv, Next, AllOk, Enabled;
    var e := EventOf(s, step);
    if e == [] {
      assert e + rest == rest;
    } else {
      assert (e + rest)[0] == e[0] && (e + rest)[1..] == rest;
    }
  }

  lemma {:induction false} RunIsHonest(s: State, steps: seq<Step>)
    requires Inv(s) && IsRun(s, steps)
    ensures Honest(s.added, Events(s, steps))
    decreases |steps|
  {
    if steps != [] {
      StepKeeps(s, steps[0]);
      hide Inv, Next, Honest, EventOf, Enabled;
      var u := Next(s, steps[0]).s;
      RunIsHonest(u, steps[1..]);
      StepIsHonest(s, steps[0], Events(u, steps[1..]));
    }
  }

  // From a new queue, under every interleaving with any number of workers.
  lemma WaitIsHonest(nBatchSize: nat, nWorkers: nat, steps: seq<Step>)
    requires IsRun(Init(nBatchSize, nWorkers), steps)
    ensures Honest(multiset{}, Events(Init(nBatchSize, nWorkers), steps))
  {
    RunIsHonest(Init(nBatchSize, nWorkers), steps);
  }

  // ---------------------------------------------------------------- IsIdle

  function IsIdle(s: State): bool {
    s.nTotal == s.nIdle && s.nTodo == 0 && s.fAllOk
  }

  lemma {:induction false} BusyHolds(ls: seq<Local>)
    requires forall i | 0 <= i < |ls| :: HasBatch(ls[i])
    ensures CountIdle(ls) <= CountInLoop(ls)
    ensures HeldBy(ls) == multiset{} ==> CountIdle(ls) == CountInLoop(ls)
  {
    if ls != [] {
      var n := |ls| - 1;
      BusyHolds(ls[..n]);
      assert HasBatch(ls[n]);
      if HeldBy(ls) == multiset{} {
        HoldsNothing(HeldBy(ls[..n]), Held(ls[n]));
      }
    }
  }

  lemma HoldsNothing(a: multiset<Check>, b: seq<Check>)
    requires a + multiset(b) == multiset{}
    ensures a == multiset{} && b == []
  {
    assert |a + multiset(b)| == |a| + |b|;
  }

  // IsIdle says that nothing is queued or in work and that every added check was good; with
  // nothing added since the last return it holds, so the controller's assertion does.
  lemma IdleMeans(s: State)
    requires Inv(s)
    ensures IsIdle(s) <==> s.queue == [] && HeldBy(s.threads) == multiset{} && AllOk(s.added)
    ensures s.added == multiset{} ==> IsIdle(s)
  {
    BusyHolds(s.threads);
    hide CountInLoop, CountIdle, HeldBy, VerdictOk, HasBatch, MasterAwaited;
    assert s.added == multiset{} ==> s.queue == [] && HeldBy(s.threads) == multiset{} by {
      assert |s.added| == |s.queue| + |HeldBy(s.threads)| + |s.finished|;
    }
    assert s.queue == [] && HeldBy(s.threads) == multiset{} ==> s.added == s.finished;
  }

  // ---------------------------------------------------------------- progress

  // A wait that ends although nobody notified it.
  predicate Spurious(s: State, step: Step)
    requires Enabled(s, step)
  {
    step.Wake? && s.threads[step.t] == Waiting(false)
  }

  predicate Works(s: State, step: Step) {
    Enabled(s, step) && !step.Add? && !Spurious(s, step)
  }

  function ThreadOf(step: Step): nat {
    match step
    case Start(t) => t
    case Enter(t) => t
    case Wake(t) => t
    case Execute(t) => t
    case Add(_, _) => 0
  }

  // A thread in Loop that is not asleep, or has been notified.
  predicate CanWork(l: Local) {
    l.AtLock? || l.Running? || l == Waiting(true)
  }

  // A thread that holds a check is not asleep.
  lemma {:induction false} SomeoneHolds(ls: seq<Local>) returns (i: nat)
    requires HeldBy(ls) != multiset{}
    ensures i < |ls| && (ls[i].AtLock? || ls[i].Running?)
  {
    var n := |ls| - 1;
    if Held(ls[n]) != [] {
      i := n;
    } else {
      assert HeldBy(ls[..n]) + multiset([]) == HeldBy(ls[..n]);
      i := SomeoneHolds(ls[..n]);
    }
  }

  // While the master is in Wait some thread can take a step without a spurious wake-up: the
  // last worker's notification is not lost.
  lemma NoLostWakeUp(s: State) returns (step: Step)
    requires Inv(s) && !s.threads[0].Outside?
    ensures Works(s, step) && ThreadOf(step) < |s.threads| && CanWork(s.threads[ThreadOf(step)])
  {
    match s.threads[0]
    case AtLock(_, _) => step := Enter(0);
    case Running(_, _) => step := Execute(0);
    case Waiting(notified) =>
      if notified {
        step := Wake(0);
      } else {
        var i := SomeoneHolds(s.threads);
        step := if s.threads[i].AtLock? then Enter(i) else Execute(i);
      }
  }

  function Weight(l: Local): nat {
    match l
    case Outside => 3
    case Running(_, _) => 3
    case AtLock(_, _) => 2
    case Waiting(notified) => if notified then 1 else 0
  }

  function Weights(ls: seq<Local>): nat {
    if ls == [] then 0 else Weights(ls[..|ls| - 1]) + Weight(ls[|ls| - 1])
  }

  // An upper bound on the steps left: three for each queued check, and what the threads owe.
  function Measure(s: State): nat {
    3 * |s.queue| + Weights(s.threads)
  }

  lemma {:induction false} WeightsMove(ls: seq<Local>, t: nat, l: Local)
    requires t < |ls|
    ensures Weights(ls[t := l]) + Weight(ls[t]) == Weights(ls) + Weight(l)
  {
    var n := |ls| - 1;
    if t == n {
      assert ls[t := l][..n] == ls[..n];
    } else {
      WeightsMove(ls[..n], t, l);
      assert ls[t := l][..n] == ls[..n][t := l];
    }
  }

  lemma HeadShrinks(s: State, t: nat)
    requires t < |s.threads| && s.nTotal + s.nIdle + 1 > 0 && LoopHead(s, t).Stays?
    ensures Measure(LoopHead(s, t).s) + Weight(s.threads[t]) <= Measure(s)
    ensures s.queue == [] ==> Measure(LoopHead(s, t).s) + Weight(s.threads[t]) == Measure(s)
  {
    WeightsMove(s.threads, t, LoopHead(s, t).s.threads[t]);
  }

  lemma CleanUpGrowsLittle(s: State, t: nat)
    requires Inv(s) && Enabled(s, Enter(t))
    ensures Measure(CleanUp(s, t)) <= Measure(s) + 1
    ensures CleanUp(s, t).threads[t] == s.threads[t]
  {
    if s.threads[0].Waiting? {
      WeightsMove(s.threads, 0, Waiting(true));
    }
  }

  // Every step but Add, a return and a spurious wake-up uses up some of the measure, and no
  // spurious wake-up adds to it.
  lemma StepShrinks(s: State, step: Step)
    requires Inv(s) && Enabled(s, step) && !step.Add? && Next(s, step).Stays?
    ensures Works(s, step) ==> Measure(Next(s, step).s) < Measure(s)
    ensures Measure(Next(s, step).s) <= Measure(s)
  {
    hide Weights, Accounted, ResultOk, MasterAwaited, HeldBy, CountInLoop, CountIdle, LoopHead;
    match step
    case Start(t) => WeightsMove(s.threads, t, AtLock([], true));
    case Execute(t) => WeightsMove(s.threads, t, Next(s, step).s.threads[t]);
    case Enter(t) =>
      CleanUpGrowsLittle(s, t);
      HeadShrinks(CleanUp(s, t), t);
    case Wake(t) =>
      WakeCounts(s, t);
      HeadShrinks(s.(nIdle := s.nIdle - 1), t);
  }

  // How many steps of a run work.
  function WorkSteps(s: State, steps: seq<Step>): nat
    requires Inv(s) && IsRun(s, steps)
    decreases |steps|
  {
    if steps == [] then 0 else
      StepKeeps(s, steps[0]);
      (if Works(s, steps[0]) then 1 else 0) + WorkSteps(Next(s, steps[0]).s, steps[1..])
  }

  predicate HasReturned(log: seq<Event>) {
    exists i | 0 <= i < |log| :: log[i].Returned?
  }

  lemma NoneReturned(e: seq<Event>, rest: seq<Event>)
    requires !HasReturned(e + rest)
    ensures e != [] ==> !e[0].Returned?
    ensures !HasReturned(rest)
  {
    assert e != [] ==> (e + rest)[0] == e[0];
    forall i | 0 <= i < |rest|
      ensures !rest[i].Returned?
    {
      assert (e + rest)[|e| + i] == rest[i];
    }
  }

  lemma HeadStays(s: State, t: nat)
    requires t < |s.threads| && s.nTotal + s.nIdle + 1 > 0 && LoopHead(s, t).Stays? && !s.threads[0].Outside?
    ensures LoopHead(s, t).s.threads != [] && !LoopHead(s, t).s.threads[0].Outside?
  {
  }

  lemma MasterStays(s: State, step: Step)
    requires Inv(s) && Enabled(s, step) && !s.threads[0].Outside? && Next(s, step).Stays?
    ensures !step.Add? && Next(s, step).s.threads != [] && !Next(s, step).s.threads[0].Outside?
  {
    hide LoopHead, CountInLoop, CountIdle, RunBatch, HeldBy, Accounted, ResultOk, AllOk, BatchSize;
    match step
    case Enter(t) => HeadStays(CleanUp(s, t), t);
    case Wake(t) => WakeCounts(s, t); HeadStays(s.(nIdle := s.nIdle - 1), t);
    case Start(_) =>
    case Execute(_) =>
  }

  lemma WakeCounts(s: State, t: nat)
    requires Inv(s) && Enabled(s, Wake(t))
    ensures s.nTotal >= 0 && s.nIdle >= 1
  {
    CountsBound(s.threads, t);
  }

  // Once the master is in Wait, no run holds more than Measure(s) working steps before Wait
  // returns; with NoLostWakeUp, a run that goes on for as long as it can returns.
  lemma {:induction false} WaitReturns(s: State, steps: seq<Step>)
    requires Inv(s) && IsRun(s, steps) && !s.threads[0].Outside?
    requires !HasReturned(Events(s, steps))
    ensures WorkSteps(s, steps) + Measure(After(s, steps)) <= Measure(s)
    ensures exists step :: Works(After(s, steps), step)
    decreases |steps|
  {
    if steps == [] {
      var step := NoLostWakeUp(s);
    } else {
      StepKeeps(s, steps[0]);
      var o := Next(s, steps[0]);
      var e, rest := EventOf(s, steps[0]), Events(o.s, steps[1..]);
      NoneReturned(e, rest);
      StepShrinks(s, steps[0]);
      MasterStays(s, steps[0]);
      WaitReturns(o.s, steps[1..]);
    }
  }

  // ---------------------------------------------------------------- fair schedules

  // The first n steps of a schedule that never ends.
  function Prefix(schedule: nat -> Step, n: nat): (r: seq<Step>)
    ensures |r| == n && forall i | 0 <= i < n :: r[i] == schedule(i)
  {
    seq(n, i requires 0 <= i < n => schedule(i))
  }

  ghost predicate IsSchedule(s: State, schedule: nat -> Step)
    requires Inv(s)
  {
    forall n: nat :: IsRun(s, Prefix(schedule, n))
  }

  ghost function StateAt(s: State, schedule: nat -> Step, n: nat): (r: State)
    requires Inv(s) && IsSchedule(s, schedule)
    ensures Inv(r)
  {
    After(s, Prefix(schedule, n))
  }

  ghost predicate WorksAt(s: State, schedule: nat -> Step, n: nat, t: nat)
    requires Inv(s) && IsSchedule(s, schedule)
  {
    ThreadOf(schedule(n)) == t && Works(StateAt(s, schedule, n), schedule(n))
  }

  ghost predicate WorksLater(s: State, schedule: nat -> Step, n: nat, t: nat)
    requires Inv(s) && IsSchedule(s, schedule)
  {
    exists m: nat :: m >= n && WorksAt(s, schedule, m, t)
  }

  // A thread that can work is never kept from it for ever.
  ghost predicate IsFair(s: State, schedule: nat -> Step)
    requires Inv(s) && IsSchedule(s, schedule)
  {
    forall n: nat, t: nat | t < |StateAt(s, schedule, n).threads| && CanWork(StateAt(s, schedule, n).threads[t]) ::
      WorksLater(s, schedule, n, t)
  }

  // One more step of a run.
  lemma {:induction false} RunNext(s: State, steps: seq<Step>, step: Step)
    requires Inv(s) && IsRun(s, steps + [step])
    ensures IsRun(s, steps) && Enabled(After(s, steps), step)
    ensures WorkSteps(s, steps + [step]) == WorkSteps(s, steps) + if Works(After(s, steps), step) then 1 else 0
    decreases |steps|
  {
    hide Accounted, ResultOk, MasterAwaited, HeldBy, CountInLoop, CountIdle, Enabled, Works, Next;
    var all := steps + [step];
    if steps == [] {
      assert all[1..] == [] && all[0] == step;
    } else {
      assert all[0] == steps[0] && all[1..] == steps[1..] + [step];
      StepKeeps(s, steps[0]);
      RunNext(Next(s, steps[0]).s, steps[1..], step);
    }
  }

  lemma {:induction false} StillWaiting(s: State, steps: seq<Step>)
    requires Inv(s) && IsRun(s, steps) && !s.threads[0].Outside? && !HasReturned(Events(s, steps))
    ensures !After(s, steps).threads[0].Outside?
    decreases |steps|
  {
    if steps != [] {
      StepKeeps(s, steps[0]);
      var o := Next(s, steps[0]);
      NoneReturned(EventOf(s, steps[0]), Events(o.s, steps[1..]));
      MasterStays(s, steps[0]);
      StillWaiting(o.s, steps[1..]);
    }
  }

  ghost function WorkBefore(s: State, schedule: nat -> Step, n: nat): nat
    requires Inv(s) && IsSchedule(s, schedule)
  {
    WorkSteps(s, Prefix(schedule, n))
  }

  lemma WorkNext(s: State, schedule: nat -> Step, n: nat)
    requires Inv(s) && IsSchedule(s, schedule)
    ensures WorkBefore(s, schedule, n + 1) == WorkBefore(s, schedule, n) + if Works(StateAt(s, schedule, n), schedule(n)) then 1 else 0
  {
    hide IsRun, WorkSteps, Works, After;
    assert Prefix(schedule, n + 1) == Prefix(schedule, n) + [schedule(n)];
    RunNext(s, Prefix(schedule, n), schedule(n));
  }

  lemma {:induction false} WorkGrows(s: State, schedule: nat -> Step, n: nat, m: nat)
    requires Inv(s) && IsSchedule(s, schedule) && n <= m
    ensures WorkBefore(s, schedule, n) <= WorkBefore(s, schedule, m)
    decreases m
  {
    hide WorkBefore, IsSchedule, Works;
    if n < m {
      WorkGrows(s, schedule, n, m - 1);
      WorkNext(s, schedule, m - 1);
    }
  }

  ghost predicate ReturnsWithin(s: State, schedule: nat -> Step, n: nat)
    requires Inv(s) && IsSchedule(s, schedule)
  {
    HasReturned(Events(s, Prefix(schedule, n)))
  }

  lemma WorkTime(s: State, schedule: nat -> Step, n: nat, t: nat) returns (m: nat)
    requires Inv(s) && IsSchedule(s, schedule) && WorksLater(s, schedule, n, t)
    ensures m >= n && Works(StateAt(s, schedule, m), schedule(m))
  {
    hide Inv, IsSchedule, Works, StateAt;
    m :| m >= n && WorksAt(s, schedule, m, t);
  }

  lemma WaitsAt(s: State, schedule: nat -> Step, n: nat)
    requires Inv(s) && IsSchedule(s, schedule) && !s.threads[0].Outside? && !ReturnsWithin(s, schedule, n)
    ensures StateAt(s, schedule, n).threads != [] && !StateAt(s, schedule, n).threads[0].Outside?
  {
    hide IsRun, Events, HasReturned, After, Prefix;
    StillWaiting(s, Prefix(schedule, n));
  }

  // As long as Wait has not returned, a fair schedule gets to one more working step ...
  lemma WorksOnceMore(s: State, schedule: nat -> Step, n: nat) returns (m: nat)
    requires Inv(s) && IsSchedule(s, schedule) && IsFair(s, schedule)
    requires !s.threads[0].Outside? && !ReturnsWithin(s, schedule, n)
    ensures m >= n && Works(StateAt(s, schedule, m), schedule(m))
  {
    hide Inv, IsSchedule, ReturnsWithin, StateAt, Works, CanWork, WorksLater;
    WaitsAt(s, schedule, n);
    var step := NoLostWakeUp(StateAt(s, schedule, n));
    assert WorksLater(s, schedule, n, ThreadOf(step));
    m := WorkTime(s, schedule, n, ThreadOf(step));
  }

  // ... and so to any number of them.
  lemma {:induction false} FairWorks(s: State, schedule: nat -> Step, work: nat) returns (n: nat)
    requires Inv(s) && IsSchedule(s, schedule) && IsFair(s, schedule) && !s.threads[0].Outside?
    requires forall k: nat :: !ReturnsWithin(s, schedule, k)
    ensures WorkBefore(s, schedule, n) >= work
  {
    hide WorkBefore, Inv, Works, IsSchedule, IsFair, StateAt, ReturnsWithin;
    if work == 0 {
      n := 0;
    } else {
      var k := FairWorks(s, schedule, work - 1);
      assert !ReturnsWithin(s, schedule, k);
      var m := WorksOnceMore(s, schedule, k);
      WorkGrows(s, schedule, k, m);
      WorkNext(s, schedule, m);
      n := m + 1;
    }
  }

  // Under a fair schedule, in whatever order and with however many spurious wake-ups, Wait returns.
  lemma FairWaitReturns(s: State, schedule: nat -> Step)
    requires Inv(s) && IsSchedule(s, schedule) && IsFair(s, schedule) && !s.threads[0].Outside?
    ensures exists n: nat :: ReturnsWithin(s, schedule, n)
  {
    hide Inv, IsRun, IsFair, Events, WorkSteps, Measure, HasReturned, Prefix;
    if forall n: nat :: !ReturnsWithin(s, schedule, n) {
      var n := FairWorks(s, schedule, Measure(s) + 1);
      assert !ReturnsWithin(s, schedule, n);
      WaitReturns(s, Prefix(schedule, n));
      assert false;
    }
  }

  // ---------------------------------------------------------------- a fair schedule

  lemma {:induction false} AddsNothing(s: State, steps: seq<Step>)
    requires Inv(s) && |s.threads| == 1 && s.threads[0].Outside? && forall i | 0 <= i < |steps| :: steps[i] == Add([], 0)
    ensures IsRun(s, steps) && After(s, steps).threads == s.threads
    decreases |steps|
  {
    hide Accounted, ResultOk, MasterAwaited, HeldBy, CountInLoop, CountIdle;
    if steps != [] {
      StepKeeps(s, steps[0]);
      AddsNothing(Next(s, steps[0]).s, steps[1..]);
    }
  }

  // Without workers and checks: Wait returns at its first step, and the master adds nothing for
  // ever after.  This schedule is fair.
  function QuietSchedule(n: nat): Step {
    if n == 0 then Enter(0) else Add([], 0)
  }

  lemma QuietReturn(s: State)
    requires Inv(s) && s.threads == [AtLock([], true)] && s.queue == [] && s.nTodo == 0
    ensures Enabled(s, Enter(0)) && Inv(Next(s, Enter(0)).s) && Next(s, Enter(0)).s.threads == [Outside]
  {
    StepKeeps(s, Enter(0));
  }

  lemma QuietSteps(n: nat)
    requires n > 0
    ensures var steps := Prefix(QuietSchedule, n);
      |steps| == n && steps[0] == Enter(0) && |steps[1..]| == n - 1 && forall i | 0 <= i < n - 1 :: steps[1..][i] == Add([], 0)
  {
    var steps := Prefix(QuietSchedule, n);
    forall i | 0 <= i < n - 1 ensures steps[1..][i] == Add([], 0) {
      assert steps[1..][i] == steps[i + 1] == QuietSchedule(i + 1);
    }
  }

  lemma QuietRun(s: State, n: nat)
    requires Inv(s) && s.threads == [AtLock([], true)] && s.queue == [] && s.nTodo == 0
    ensures IsRun(s, Prefix(QuietSchedule, n))
    ensures n > 0 ==> After(s, Prefix(QuietSchedule, n)).threads == [Outside]
  {
    hide Accounted, ResultOk, MasterAwaited, HeldBy, CountInLoop, CountIdle, Enabled, Next, Prefix;
    if n > 0 {
      QuietSteps(n);
      QuietReturn(s);
      AddsNothing(Next(s, Enter(0)).s, Prefix(QuietSchedule, n)[1..]);
    } else {
      assert Prefix(QuietSchedule, 0) == [];
    }
  }

  lemma QuietScheduleIsFair(s: State)
    requires Inv(s) && s.threads == [AtLock([], true)] && s.queue == [] && s.nTodo == 0
    ensures IsSchedule(s, QuietSchedule) && IsFair(s, QuietSchedule)
  {
    hide Inv, IsRun, Prefix, Events;
    forall n: nat ensures IsRun(s, Prefix(QuietSchedule, n)) && (n > 0 ==> After(s, Prefix(QuietSchedule, n)).threads == [Outside]) {
      QuietRun(s, n);
    }
    QuietStart(s);
  }

  lemma QuietStart(s: State)
    requires Inv(s) && s.threads == [AtLock([], true)] && IsSchedule(s, QuietSchedule)
    ensures StateAt(s, QuietSchedule, 0) == s && WorksAt(s, QuietSchedule, 0, 0)
  {
    hide Inv, IsRun;
  }
}
