/** The InstantSend lock table as a value: lock candidates with their votes, and the locked
    outpoints.  Which votes and requests are valid, and what the mempool and the block chain
    say about a conflict, are inputs of a step. */
module InstantSend {
  type Hash = nat
  type OutPoint = nat
  type Masternode = nat

  const SIGNATURES_REQUIRED := 10

  // A transaction to be locked; the hash identifies it.
  datatype Request = Request(hash: Hash, vin: seq<OutPoint>)

  // The masternodes that voted for each input, and the height of the block with the
  // transaction, or -1.
  datatype Candidate = Candidate(request: Request, votes: map<OutPoint, set<Masternode>>, nConfirmedHeight: int)

  datatype Table = Table(candidates: map<Hash, Candidate>, locked: map<OutPoint, Hash>)

  const EMPTY := Table(map[], map[])

  // IsAllOutPointsReady
  predicate IsReady(c: Candidate) {
    c.votes != map[] && forall o | o in c.votes :: |c.votes[o]| >= SIGNATURES_REQUIRED
  }

  // IsLockedInstantSendTransaction
  predicate IsLocked(t: Table, h: Hash) {
    && h in t.candidates
    && t.candidates[h].votes != map[]
    && forall o | o in t.candidates[h].votes :: o in t.locked && t.locked[o] == h
  }

  // ---------------------------------------------------------------- the operations

  function NoVotes(vin: seq<OutPoint>): map<OutPoint, set<Masternode>> {
    map o | o in vin :: {}
  }

  function NewCandidate(request: Request): Candidate {
    Candidate(request, NoVotes(request.vin), -1)
  }

  // A request is turned away if one of its inputs is locked already.
  predicate Conflicts(t: Table, request: Request) {
    exists o | o in request.vin :: o in t.locked
  }

  function Admit(t: Table, request: Request): Table {
    if request.hash in t.candidates then t else t.(candidates := t.candidates[request.hash := NewCandidate(request)])
  }

  // AddVote: it counts for an input of a known candidate, once for each masternode.
  predicate Counts(t: Table, h: Hash, o: OutPoint, mn: Masternode) {
    h in t.candidates && o in t.candidates[h].votes && mn !in t.candidates[h].votes[o]
  }

  function Count(t: Table, h: Hash, o: OutPoint, mn: Masternode): Table {
    if Counts(t, h, o, mn) then
      var c := t.candidates[h];
      t.(candidates := t.candidates[h := c.(votes := c.votes[o := c.votes[o] + {mn}])])
    else t
  }

  // ResolveConflicts' look at the locks: no input is locked by another transaction.
  predicate MayLock(t: Table, h: Hash) {
    h in t.candidates && forall o | o in t.candidates[h].request.vin :: o in t.locked ==> t.locked[o] == h
  }

  // LockTransactionInputs: insert does not replace a lock that is there.
  function LockInputs(t: Table, h: Hash): Table {
    if h in t.candidates && IsReady(t.candidates[h]) then
      t.(locked := (map o | o in t.candidates[h].votes :: h) + t.locked)
    else t
  }

  // The end of ProcessTxLockVote and of ProcessTxLockRequest; resolved stands for what
  // ResolveConflicts finds in the mempool and the chain.
  function Complete(t: Table, h: Hash, resolved: bool): Table {
    if MayLock(t, h) && resolved then LockInputs(t, h) else t
  }

  predicate IsExpired(c: Candidate, nHeight: int, nKeepLock: int) {
    c.nConfirmedHeight != -1 && nHeight - c.nConfirmedHeight > nKeepLock
  }

  function Expired(t: Table, nHeight: int, nKeepLock: int): set<Hash> {
    set h | h in t.candidates && IsExpired(t.candidates[h], nHeight, nKeepLock)
  }

  // The inputs of the candidates in a set.
  function InputsOf(t: Table, hs: set<Hash>): set<OutPoint> {
    set h, o | h in hs && h in t.candidates && o in t.candidates[h].votes :: o
  }

  // CheckAndRemove: with a candidate go the locks of its inputs, whoever holds them.
  function Remove(t: Table, hs: set<Hash>): Table {
    Table(t.candidates - hs, t.locked - InputsOf(t, hs))
  }

  // ---------------------------------------------------------------- runs

  datatype Step =
    | Receive(request: Request, valid: bool)                    // ProcessTxLockRequest, up to its votes
    | Vote(h: Hash, o: OutPoint, mn: Masternode)                // a vote that passes the checks is counted
    | Finish(h: Hash, resolved: bool)                           // enough votes: lock the inputs
    | Sync(h: Hash, nHeight: int)                               // the transaction is confirmed, or no longer
    | Expire(nHeight: int, nKeepLock: int)                      // CheckAndRemove

  function Next(t: Table, step: Step): Table {
    match step
    case Receive(request, valid) => if Conflicts(t, request) || !valid then t else Admit(t, request)
    case Vote(h, o, mn) => Count(t, h, o, mn)
    case Finish(h, resolved) => Complete(t, h, resolved)
    case Sync(h, nHeight) =>
      if h in t.candidates then t.(candidates := t.candidates[h := t.candidates[h].(nConfirmedHeight := nHeight)]) else t
    case Expire(nHeight, nKeepLock) => Remove(t, Expired(t, nHeight, nKeepLock))
  }

  // A candidate stands under its own hash and collects votes for exactly its inputs.
  ghost predicate IsCandidate(h: Hash, c: Candidate) {
    c.request.hash == h && forall o :: o in c.votes <==> o in c.request.vin
  }

  // A locked outpoint is an input of a live candidate with enough votes on every input.
  predicate IsBacked(t: Table, o: OutPoint) {
    o in t.locked && t.locked[o] in t.candidates
    && o in t.candidates[t.locked[o]].votes && IsReady(t.candidates[t.locked[o]])
  }

  ghost predicate Inv(t: Table) {
    && (forall h | h in t.candidates :: IsCandidate(h, t.candidates[h]))
    && (forall o | o in t.locked :: IsBacked(t, o))
  }

  lemma VoteKeeps(t: Table, h: Hash, o: OutPoint, mn: Masternode)
    requires Inv(t)
    ensures Inv(Count(t, h, o, mn))
  {
    var u := Count(t, h, o, mn);
    if Counts(t, h, o, mn) {
      assert IsCandidate(h, t.candidates[h]);
      forall p | p in u.locked
        ensures IsBacked(u, p)
      {
        assert IsBacked(t, p);
        if u.locked[p] == h {
          GrownIsReady(t.candidates[h], o, mn);
        }
      }
    }
  }

  lemma GrownIsReady(c: Candidate, o: OutPoint, mn: Masternode)
    requires IsReady(c) && o in c.votes
    ensures IsReady(c.(votes := c.votes[o := c.votes[o] + {mn}]))
  {
    var s := c.votes[o];
    assert |s + {mn}| >= |s| by {
      if mn in s {
        assert s + {mn} == s;
      }
    }
  }

  lemma FinishKeeps(t: Table, h: Hash, resolved: bool)
    requires Inv(t)
    ensures Inv(Complete(t, h, resolved))
  {
    var u := Complete(t, h, resolved);
    forall p | p in u.locked
      ensures IsBacked(u, p)
    {
      if p in t.locked {
        assert IsBacked(t, p);
      }
    }
  }

  lemma RemoveKeeps(t: Table, hs: set<Hash>)
    requires Inv(t)
    ensures Inv(Remove(t, hs))
  {
    var u := Remove(t, hs);
    forall p | p in u.locked
      ensures IsBacked(u, p)
    {
      assert IsBacked(t, p);
      assert t.locked[p] in hs ==> p in InputsOf(t, hs);
    }
  }

  // Every step keeps that, and so ten votes on every input of whoever holds an outpoint.
  lemma StepKeeps(t: Table, step: Step)
    requires Inv(t)
    ensures Inv(Next(t, step))
    ensures var u := Next(t, step);
            forall o | o in u.locked :: u.locked[o] in u.candidates
              && forall p | p in u.candidates[u.locked[o]].votes :: |u.candidates[u.locked[o]].votes[p]| >= 10
  {
    StepKeepsInv(t, step);
    HoldersHaveTen(Next(t, step));
  }

  lemma HoldersHaveTen(t: Table)
    requires Inv(t)
    ensures forall o | o in t.locked :: t.locked[o] in t.candidates
              && forall p | p in t.candidates[t.locked[o]].votes :: |t.candidates[t.locked[o]].votes[p]| >= 10
  {
    forall o | o in t.locked ensures IsBacked(t, o) {}
  }

  lemma StepKeepsInv(t: Table, step: Step)
    requires Inv(t)
    ensures Inv(Next(t, step))
  {
    match step
    case Receive(request, valid) => ReceiveKeeps(t, request);
    case Vote(h, o, mn) => VoteKeeps(t, h, o, mn);
    case Finish(h, resolved) => FinishKeeps(t, h, resolved);
    case Sync(h, nHeight) => SyncKeeps(t, h, nHeight);
    case Expire(nHeight, nKeepLock) => RemoveKeeps(t, Expired(t, nHeight, nKeepLock));
  }

  lemma ReceiveKeeps(t: Table, request: Request)
    requires Inv(t)
    ensures Inv(Admit(t, request))
  {
    var u := Admit(t, request);
    forall p | p in u.locked
      ensures IsBacked(u, p)
    {
      assert IsBacked(t, p);
    }
  }

  lemma SyncKeeps(t: Table, h: Hash, nHeight: int)
    requires Inv(t)
    ensures Inv(Next(t, Sync(h, nHeight)))
  {
    var u := Next(t, Sync(h, nHeight));
    if h in t.candidates {
      assert IsCandidate(h, t.candidates[h]);
      forall p | p in u.locked
        ensures IsBacked(u, p)
      {
        assert IsBacked(t, p);
      }
    }
  }

  function Run(t: Table, steps: seq<Step>): Table
    decreases |steps|
  {
    if steps == [] then t else Run(Next(t, steps[0]), steps[1..])
  }

  lemma {:induction false} RunConcat(t: Table, a: seq<Step>, b: seq<Step>)
    ensures Run(t, a + b) == Run(Run(t, a), b)
    decreases |a|
  {
    if a == [] {
      assert a + b == b;
    } else {
      RunConcat(Next(t, a[0]), a[1..], b);
      assert (a + b)[1..] == a[1..] + b;
    }
  }

  // From an empty table, every run keeps every lock backed by a live candidate with at least
  // ten votes on each of its inputs.
  lemma {:induction false} RunKeeps(t: Table, steps: seq<Step>)
    requires Inv(t)
    ensures Inv(Run(t, steps))
    decreases |steps|
  {
    if steps != [] {
      StepKeepsInv(t, steps[0]);
      RunKeeps(Next(t, steps[0]), steps[1..]);
    }
  }

  lemma RunsAreBacked(steps: seq<Step>, h: Hash)
    ensures var t := Run(EMPTY, steps);
            IsLocked(t, h) ==>
              && (forall o :: o in t.candidates[h].votes <==> o in t.candidates[h].request.vin)
              && (forall o | o in t.candidates[h].votes :: |t.candidates[h].votes[o]| >= 10)
  {
    RunKeeps(EMPTY, steps);
    var t := Run(EMPTY, steps);
    if IsLocked(t, h) {
      assert IsCandidate(h, t.candidates[h]);
      var o :| o in t.candidates[h].votes;
      assert IsBacked(t, o);
    }
  }

  // ---------------------------------------------------------------- locks do not change hands

  // Locks change hands only by way of CheckAndRemove.
  lemma {:induction false} LocksStay(t: Table, steps: seq<Step>, o: OutPoint)
    requires o in t.locked && forall i | 0 <= i < |steps| :: !steps[i].Expire?
    ensures o in Run(t, steps).locked && Run(t, steps).locked[o] == t.locked[o]
    decreases |steps|
  {
    if steps != [] {
      assert !steps[0].Expire?;
      LocksStay(Next(t, steps[0]), steps[1..], o);
    }
  }

  // Once a transaction is locked, no other one with one of its inputs is ever locked, as long
  // as nothing expires.
  lemma NoSecondLock(t: Table, steps: seq<Step>, g: Hash, h: Hash, o: OutPoint)
    requires Inv(t) && IsLocked(t, h) && o in t.candidates[h].request.vin
    requires forall i | 0 <= i < |steps| :: !steps[i].Expire?
    requires IsLocked(Run(t, steps), g) && o in Run(t, steps).candidates[g].request.vin
    ensures g == h
  {
    assert IsCandidate(h, t.candidates[h]);
    LocksStay(t, steps, o);
    RunKeeps(t, steps);
    assert IsCandidate(g, Run(t, steps).candidates[g]);
  }

  // A ready candidate becomes locked exactly when no other transaction holds one of its inputs
  // and nothing else stands in the way.
  lemma FinishLocks(t: Table, h: Hash, resolved: bool)
    requires Inv(t) && h in t.candidates && IsReady(t.candidates[h]) && !IsLocked(t, h)
    ensures IsLocked(Complete(t, h, resolved), h) <==> MayLock(t, h) && resolved
  {
    assert IsCandidate(h, t.candidates[h]);
  }

  // A locked transaction stays locked through CheckAndRemove exactly when neither it nor any
  // other candidate with one of its inputs expires.
  lemma ExpiryKeepsIff(t: Table, h: Hash, nHeight: int, nKeepLock: int)
    requires Inv(t) && IsLocked(t, h)
    ensures IsLocked(Next(t, Expire(nHeight, nKeepLock)), h) <==>
            (forall g | g in Expired(t, nHeight, nKeepLock) :: g != h && t.candidates[g].votes.Keys !! t.candidates[h].votes.Keys)
  {
    var hs := Expired(t, nHeight, nKeepLock);
    var u := Remove(t, hs);
    if IsLocked(u, h) {
      forall g | g in hs
        ensures g != h && t.candidates[g].votes.Keys !! t.candidates[h].votes.Keys
      {
        forall o | o in t.candidates[h].votes
          ensures o !in t.candidates[g].votes
        {
          assert o in u.locked;
          assert o in t.candidates[g].votes ==> o in InputsOf(t, hs);
        }
      }
    }
  }

  // ---------------------------------------------------------------- a lock that is taken away

  // n masternodes vote for transaction 2.
  function Ballots(n: nat): seq<Step> {
    if n == 0 then [] else [Vote(2, 5, n)] + Ballots(n - 1)
  }

  lemma {:induction false} BallotsCount(t: Table, n: nat)
    requires 2 in t.candidates && t.candidates[2].votes.Keys == {5}
    requires forall mn | mn in t.candidates[2].votes[5] :: mn > n
    ensures var u := Run(t, Ballots(n));
            && u.locked == t.locked && u.candidates.Keys == t.candidates.Keys
            && (forall h | h in t.candidates && h != 2 :: u.candidates[h] == t.candidates[h])
            && u.candidates[2] == t.candidates[2].(votes := u.candidates[2].votes)
            && u.candidates[2].votes.Keys == {5} && |u.candidates[2].votes[5]| == |t.candidates[2].votes[5]| + n
    decreases n
  {
    if n > 0 {
      var a := Vote(2, 5, n);
      assert Counts(t, 2, 5, n);
      var u := Next(t, a);
      assert u.candidates[2].votes[5] == t.candidates[2].votes[5] + {n};
      assert u.candidates[2].votes.Keys == {5};
      BallotsCount(u, n - 1);
      assert Ballots(n)[0] == a && Ballots(n)[1..] == Ballots(n - 1);
    }
  }

  // Transactions 1 and 2 spend outpoint 5; 1 is confirmed at height 3, 2 is voted for and locked.
  const RIVALS: seq<Step> := [Receive(Request(1, [5]), true), Sync(1, 3), Receive(Request(2, [5]), true)]

  lemma RivalsAdmitted()
    ensures Run(EMPTY, RIVALS) ==
      Table(map[1 := Candidate(Request(1, [5]), map[5 := {}], 3), 2 := Candidate(Request(2, [5]), map[5 := {}], -1)], map[])
  {
    var a, b, c := RIVALS[0], RIVALS[1], RIVALS[2];
    var one, two := Request(1, [5]), Request(2, [5]);
    assert NewCandidate(one).votes == map[5 := {}] && NewCandidate(two).votes == map[5 := {}];
    assert RIVALS[1..] == [b, c] && [b, c][1..] == [c] && [c][1..] == [];
    assert Run(EMPTY, RIVALS) == Run(Next(EMPTY, a), [b, c]);
    assert Run(Next(EMPTY, a), [b, c]) == Run(Next(Next(EMPTY, a), b), [c]);
    assert Run(Next(Next(EMPTY, a), b), [c]) == Run(Next(Next(Next(EMPTY, a), b), c), []);
  }

  // A candidate that is ready gets its outpoint and loses it with a rival that expires.
  lemma RivalExpires(t: Table)
    requires t.candidates.Keys == {1, 2} && t.locked == map[]
    requires t.candidates[1].votes.Keys == {5} && t.candidates[1].nConfirmedHeight == 3
    requires t.candidates[2].votes.Keys == {5} && t.candidates[2].nConfirmedHeight == -1
    requires t.candidates[2].request.vin == [5] && |t.candidates[2].votes[5]| >= 10
    ensures var u := Next(t, Finish(2, true));
            IsLocked(u, 2) && Expired(u, 30, 24) == {1} && !IsLocked(Next(u, Expire(30, 24)), 2)
  {
    var u := Next(t, Finish(2, true));
    assert IsReady(t.candidates[2]) && MayLock(t, 2);
    assert u.locked == map[5 := 2] && u.candidates == t.candidates;
    assert 5 in u.candidates[1].votes && 5 in u.candidates[2].votes;
    assert 5 in InputsOf(u, {1});
  }

  lemma RunOne(t: Table, step: Step)
    ensures Run(t, [step]) == Next(t, step)
  {
    hide Next;
    assert [step][1..] == [] && Run(Next(t, step), []) == Next(t, step);
  }

  // At height 30 the first one expires, and the lock of the second, unexpired one goes with it.
  lemma ExpiryTakesLock(n: nat)
    requires n >= 10
    ensures var t := Run(EMPTY, RIVALS + Ballots(n) + [Finish(2, true)]);
            IsLocked(t, 2) && Expired(t, 30, 24) == {1} && !IsLocked(Next(t, Expire(30, 24)), 2)
  {
    hide Next, Expired, IsLocked, Ballots, Run, RIVALS;
    var s := Run(EMPTY, RIVALS);
    RivalsAdmitted();
    BallotsCount(s, n);
    var u, f := Run(s, Ballots(n)), Finish(2, true);
    RivalExpires(u);
    RunConcat(EMPTY, RIVALS, Ballots(n));
    RunConcat(EMPTY, RIVALS + Ballots(n), [f]);
    RunOne(u, f);
  }
}
