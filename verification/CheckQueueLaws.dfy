/** How the queue shares out its checks: the size and the order of a batch, who is woken, and
    what a thread starts from. */
module CheckQueueLaws {
  import opened CheckQueue

  // ---------------------------------------------------------------- batches

  // A batch is the largest that is neither larger than the limit nor than a fair share of the
  // queue, counting idle threads twice; but never empty.
  lemma BatchIsFair(s: State)
    requires s.queue != [] && s.nTotal + s.nIdle + 1 > 0
    ensures var n, d := BatchSize(s), s.nTotal + s.nIdle + 1;
      && 1 <= n <= |s.queue|
      && (n > 1 ==> n <= s.nBatchSize && n * d <= |s.queue|)
      && (n < s.nBatchSize ==> (n + 1) * d > |s.queue|)
  {
    var d := s.nTotal + s.nIdle + 1;
    var q := |s.queue| / d;
    assert |s.queue| == q * d + |s.queue| % d;
    assert (q + 1) * d == q * d + d;
    if BatchSize(s) < q {
      assert BatchSize(s) >= s.nBatchSize;
    }
    Monotone(BatchSize(s), q, d);
  }

  lemma Monotone(a: int, b: int, d: int)
    requires d > 0
    ensures a <= b ==> a * d <= b * d
    ensures a >= b ==> (a + 1) * d >= (b + 1) * d
  {
    if a <= b {
      TimesPositive(b - a, d);
      assert (b - a) * d == b * d - a * d;
    }
    if a >= b {
      TimesPositive(a - b, d);
      assert (a - b) * d == (a + 1) * d - (b + 1) * d;
    }
  }

  lemma {:induction false} ReversedAt(a: seq<Check>, i: nat)
    requires i < |a|
    ensures Reversed(a)[i] == a[|a| - 1 - i]
  {
    if i > 0 {
      ReversedAt(a[..|a| - 1], i - 1);
    }
  }

  // A thread that finds checks takes the last ones, last first, and starts from the verdict so far.
  lemma TakeIs(s: State, t: nat)
    requires t < |s.threads| && s.nTotal + s.nIdle + 1 > 0 && s.queue != []
    ensures LoopHead(s, t).Stays?
    ensures var u, n := LoopHead(s, t).s, BatchSize(s);
      && u == s.(queue := s.queue[..|s.queue| - n], threads := s.threads[t := u.threads[t]])
      && u.threads[t].Running? && u.threads[t].fOk == s.fAllOk && |u.threads[t].batch| == n
      && forall i | 0 <= i < n :: u.threads[t].batch[i] == s.queue[|s.queue| - 1 - i]
  {
    var n := BatchSize(s);
    var back := s.queue[|s.queue| - n..];
    forall i | 0 <= i < n ensures Reversed(back)[i] == s.queue[|s.queue| - 1 - i] {
      ReversedAt(back, i);
    }
  }

  // With an empty queue the master leaves if nothing is left to do, with the verdict so far,
  // which starts afresh; everyone else goes to sleep.
  lemma EmptyIs(s: State, t: nat)
    requires t < |s.threads| && s.nTotal + s.nIdle + 1 > 0 && s.queue == []
    ensures LoopHead(s, t).Leaves? <==> t == 0 && s.nTodo == 0
    ensures LoopHead(s, t).Leaves? ==>
      LoopHead(s, t).fRet == s.fAllOk && LoopHead(s, t).s.fAllOk && LoopHead(s, t).s.nTotal == s.nTotal - 1
      && LoopHead(s, t).s.threads == s.threads[0 := Outside]
    ensures LoopHead(s, t).Stays? ==>
      LoopHead(s, t).s == s.(nIdle := s.nIdle + 1, threads := s.threads[t := Waiting(false)])
  {
  }

  // ---------------------------------------------------------------- who is woken

  // Adding checks puts them at the end of the queue in their order.  One check wakes one sleeping
  // worker, if there is one; more wake all of them; none wakes nobody.
  lemma AddIs(s: State, checks: seq<Check>, woken: nat)
    requires Enabled(s, Add(checks, woken)) && Counted(s)
    ensures Next(s, Add(checks, woken)).Stays?
    ensures var u := Next(s, Add(checks, woken)).s;
      && u == s.(queue := s.queue + checks, nTodo := s.nTodo + |checks|, added := u.added, threads := u.threads)
      && |u.threads| == |s.threads|
      && (|checks| == 0 ==> u.threads == s.threads)
      && (|checks| == 1 ==> forall i | 0 <= i < |s.threads| && i != woken :: u.threads[i] == s.threads[i])
      && (|checks| == 1 && (exists i | 0 < i < |s.threads| :: s.threads[i] == Waiting(false)) ==> u.threads[woken] == Waiting(true))
      && (|checks| > 1 ==> u.threads[0] == s.threads[0])
      && (|checks| > 1 ==> forall i | 0 < i < |s.threads| :: u.threads[i] == if s.threads[i].Waiting? then Waiting(true) else s.threads[i])
  {
    hide Counted;
  }

  // Counting a batch takes it off what is to do and out of nothing else; the worker that brings
  // the count to zero wakes the master, and nobody else does.
  lemma CleanUpIs(s: State, t: nat)
    requires t < |s.threads| && s.threads[t].AtLock?
    ensures var u, l := CleanUp(s, t), s.threads[t];
      if l.batch == [] then
        u == s.(nTotal := s.nTotal + 1)
      else
        && u == s.(fAllOk := s.fAllOk && l.fOk, nTodo := s.nTodo - |l.batch|, finished := u.finished, threads := u.threads)
        && |u.threads| == |s.threads| && (forall i | 0 < i < |s.threads| :: u.threads[i] == s.threads[i])
        && u.threads[0] == if s.threads[0].Waiting? && s.nTodo == |l.batch| && t != 0 then Waiting(true) else s.threads[0]
  {
  }

  // A batch is worked off without the lock: its verdict is that of all its checks, and false if
  // something had failed before.
  lemma ExecuteIs(s: State, t: nat)
    requires Enabled(s, Execute(t)) && Counted(s)
    ensures var l := s.threads[t];
      Next(s, Execute(t)) == Stays(s.(threads := s.threads[t := AtLock(l.batch, l.fOk && forall c | c in l.batch :: c.ok)]))
  {
    hide Counted;
  }
}
