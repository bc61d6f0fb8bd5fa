/** CInstantSend's handling of its candidate and lock maps, proved against the lock table. */
module InstantSendTable {
  import opened InstantSend

  // A vote message; accepted is the verdict on the vote itself, resolved what ResolveConflicts
  // finds outside the lock table.
  datatype VoteMessage = VoteMessage(h: Hash, o: OutPoint, mn: Masternode, accepted: bool, resolved: bool)

  // ProcessTxLockVote on a known candidate.
  function AfterVote(t: Table, v: VoteMessage): Table {
    if v.accepted && Counts(t, v.h, v.o, v.mn) then Complete(Count(t, v.h, v.o, v.mn), v.h, v.resolved) else t
  }

  function AfterVotes(t: Table, vs: seq<VoteMessage>): Table {
    if vs == [] then t else AfterVote(AfterVotes(t, vs[..|vs| - 1]), vs[|vs| - 1])
  }

  // This node's own votes, which are counted and nothing more.
  function AfterOwn(t: Table, h: Hash, own: seq<(OutPoint, Masternode)>): Table {
    if own == [] then t
    else Count(AfterOwn(t, h, own[..|own| - 1]), h, own[|own| - 1].0, own[|own| - 1].1)
  }

  function AfterRequest(t: Table, request: Request, valid: bool, own: seq<(OutPoint, Masternode)>,
                        orphans: seq<VoteMessage>, enabled: bool, resolved: bool): Table {
    if Conflicts(t, request) || !valid then t
    else
      var u := AfterVotes(AfterOwn(Admit(t, request), request.hash, own), orphans);
      if enabled then Complete(u, request.hash, resolved) else u
  }

  // ---------------------------------------------------------------- these are runs

  lemma VoteIsRun(t: Table, v: VoteMessage) returns (steps: seq<Step>)
    ensures AfterVote(t, v) == Run(t, steps)
    ensures forall i | 0 <= i < |steps| :: steps[i].Vote? || steps[i].Finish?
  {
    if v.accepted && Counts(t, v.h, v.o, v.mn) {
      var a, b := Vote(v.h, v.o, v.mn), Finish(v.h, v.resolved);
      steps := [a, b];
      assert steps[1..] == [b] && [b][1..] == [];
      assert Run(Next(t, a), [b]) == Run(Next(Next(t, a), b), []);
    } else {
      steps := [];
    }
  }

  lemma {:induction false} VotesAreRun(t: Table, vs: seq<VoteMessage>) returns (steps: seq<Step>)
    ensures AfterVotes(t, vs) == Run(t, steps)
    ensures forall i | 0 <= i < |steps| :: steps[i].Vote? || steps[i].Finish?
  {
    if vs == [] {
      steps := [];
    } else {
      var a := VotesAreRun(t, vs[..|vs| - 1]);
      var b := VoteIsRun(Run(t, a), vs[|vs| - 1]);
      RunConcat(t, a, b);
      steps := a + b;
    }
  }

  lemma {:induction false} OwnIsRun(t: Table, h: Hash, own: seq<(OutPoint, Masternode)>) returns (steps: seq<Step>)
    ensures AfterOwn(t, h, own) == Run(t, steps)
    ensures forall i | 0 <= i < |steps| :: steps[i].Vote?
  {
    if own == [] {
      steps := [];
    } else {
      var a := OwnIsRun(t, h, own[..|own| - 1]);
      var v := Vote(h, own[|own| - 1].0, own[|own| - 1].1);
      RunConcat(t, a, [v]);
      assert [v][1..] == [];
      assert Run(Run(t, a), [v]) == Run(Next(Run(t, a), v), []);
      steps := a + [v];
    }
  }

  // A whole request is a run without CheckAndRemove, so it keeps every lock there is.
  lemma RequestIsRun(t: Table, request: Request, valid: bool, own: seq<(OutPoint, Masternode)>,
                     orphans: seq<VoteMessage>, enabled: bool, resolved: bool) returns (steps: seq<Step>)
    ensures AfterRequest(t, request, valid, own, orphans, enabled, resolved) == Run(t, steps)
    ensures forall i | 0 <= i < |steps| :: !steps[i].Expire?
  {
    if Conflicts(t, request) || !valid {
      steps := [];
    } else {
      var a := [Receive(request, valid)];
      assert a[1..] == [] && Run(t, a) == Run(Next(t, a[0]), []);
      var b := OwnIsRun(Run(t, a), request.hash, own);
      var c := VotesAreRun(Run(Run(t, a), b), orphans);
      RunConcat(t, a, b);
      RunConcat(t, a + b, c);
      steps := a + b + c;
      if enabled {
        var f := Finish(request.hash, resolved);
        RunConcat(t, steps, [f]);
        assert [f][1..] == [];
        assert Run(Run(t, steps), [f]) == Run(Next(Run(t, steps), f), []);
        steps := steps + [f];
      }
    }
  }

  // ---------------------------------------------------------------- a new candidate

  lemma NoInputs(vin: seq<OutPoint>)
    ensures NoVotes(vin[|vin|..]) == map[]
  {
  }

  // An input that occurs again changes nothing.
  lemma AnotherInput(vin: seq<OutPoint>, i: nat)
    requires i < |vin|
    ensures vin[i] !in NoVotes(vin[i + 1..]) ==> NoVotes(vin[i..]) == NoVotes(vin[i + 1..])[vin[i] := {}]
    ensures vin[i] in NoVotes(vin[i + 1..]) ==> NoVotes(vin[i..]) == NoVotes(vin[i + 1..])
  {
    assert vin[i..] == [vin[i]] + vin[i + 1..];
  }

  // ---------------------------------------------------------------- the class

  class CInstantSend {
    var mapTxLockCandidates: map<Hash, Candidate>
    var mapLockedOutpoints: map<OutPoint, Hash>

    function T(): Table
      reads this
    {
      Table(mapTxLockCandidates, mapLockedOutpoints)
    }

    constructor ()
      ensures T() == EMPTY && Inv(T())
    {
      mapTxLockCandidates := map[];
      mapLockedOutpoints := map[];
    }

    static method IsAllOutPointsReady(c: Candidate) returns (r: bool)
      ensures r <==> IsReady(c)
      ensures r <==> c.votes != map[] && forall o | o in c.votes :: |c.votes[o]| >= 10
    {
      if c.votes == map[] {
        return false;
      }
      var left := c.votes.Keys;
      while left != {}
        invariant left <= c.votes.Keys
        invariant forall o | o in c.votes && o !in left :: |c.votes[o]| >= SIGNATURES_REQUIRED
      {
        var o :| o in left;
        if |c.votes[o]| < SIGNATURES_REQUIRED {
          return false;
        }
        left := left - {o};
      }
      return true;
    }

    method LockTransactionInputs(h: Hash)
      requires h in mapTxLockCandidates
      modifies this`mapLockedOutpoints
      ensures T() == LockInputs(old(T()), h)
    {
      var ready := IsAllOutPointsReady(mapTxLockCandidates[h]);
      if !ready {
        return;
      }
      var inputs := mapTxLockCandidates[h].votes.Keys;
      var left := inputs;
      while left != {}
        invariant left <= inputs
        invariant mapLockedOutpoints == (map o | o in inputs - left :: h) + old(mapLockedOutpoints)
      {
        var o :| o in left;
        if o !in mapLockedOutpoints {
          mapLockedOutpoints := mapLockedOutpoints[o := h];
        }
        left := left - {o};
      }
      assert inputs - left == inputs;
      assert mapLockedOutpoints == (map o | o in mapTxLockCandidates[h].votes :: h) + old(mapLockedOutpoints);
    }

    // enabled: the option, the spork, and no large fork in sight
    method IsLockedInstantSendTransaction(h: Hash, enabled: bool) returns (r: bool)
      ensures r <==> enabled && IsLocked(T(), h)
    {
      if !enabled || h !in mapTxLockCandidates || mapTxLockCandidates[h].votes == map[] {
        return false;
      }
      var votes := mapTxLockCandidates[h].votes;
      var left := votes.Keys;
      while left != {}
        invariant left <= votes.Keys
        invariant forall o | o in votes && o !in left :: o in mapLockedOutpoints && mapLockedOutpoints[o] == h
      {
        var o :| o in left;
        if o !in mapLockedOutpoints || mapLockedOutpoints[o] != h {
          return false;
        }
        left := left - {o};
      }
      return true;
    }

    method ResolveConflicts(h: Hash, resolved: bool) returns (r: bool)
      requires h in mapTxLockCandidates
      ensures r <==> !IsReady(mapTxLockCandidates[h]) || (MayLock(T(), h) && resolved)
    {
      var ready := IsAllOutPointsReady(mapTxLockCandidates[h]);
      if !ready {
        return true;
      }
      var vin := mapTxLockCandidates[h].request.vin;
      var i := 0;
      while i < |vin|
        invariant 0 <= i <= |vin|
        invariant forall k | 0 <= k < i :: vin[k] in mapLockedOutpoints ==> mapLockedOutpoints[vin[k]] == h
      {
        if vin[i] in mapLockedOutpoints && mapLockedOutpoints[vin[i]] != h {
          return false;
        }
        i := i + 1;
      }
      return resolved;
    }

    // AddVote on the candidate and its outpoint lock.
    method AddVote(h: Hash, o: OutPoint, mn: Masternode) returns (ok: bool)
      requires h in mapTxLockCandidates
      modifies this`mapTxLockCandidates
      ensures ok <==> Counts(old(T()), h, o, mn)
      ensures T() == Count(old(T()), h, o, mn)
    {
      var c := mapTxLockCandidates[h];
      if o !in c.votes || mn in c.votes[o] {
        return false;
      }
      mapTxLockCandidates := mapTxLockCandidates[h := c.(votes := c.votes[o := c.votes[o] + {mn}])];
      return true;
    }

    // A vote for a known candidate; enabled as for IsLockedInstantSendTransaction.
    method ProcessTxLockVote(v: VoteMessage, enabled: bool) returns (r: bool)
      requires v.h in mapTxLockCandidates && Inv(T())
      modifies this
      ensures T() == AfterVote(old(T()), v)
      ensures r <==> v.accepted && Counts(old(T()), v.h, v.o, v.mn)
    {
      if !v.accepted {
        return false;
      }
      r := AddVote(v.h, v.o, v.mn);
      if !r {
        return;
      }
      ghost var t := T();
      VoteKeeps(old(T()), v.h, v.o, v.mn);
      var ready := IsAllOutPointsReady(mapTxLockCandidates[v.h]);
      if ready {
        var clear := ResolveConflicts(v.h, v.resolved);
        if clear {
          var isLocked := IsLockedInstantSendTransaction(v.h, enabled);
          if !isLocked {
            LockTransactionInputs(v.h);
          } else {
            LockedAlready(t, v.h);
          }
        }
      }
    }

    lemma LockedAlready(t: Table, h: Hash)
      requires IsLocked(t, h)
      ensures LockInputs(t, h) == t
    {
      assert (map o | o in t.candidates[h].votes :: h) + t.locked == t.locked;
    }

    // A new lock request with the votes that are waiting for it.
    method ProcessTxLockRequest(request: Request, valid: bool, own: seq<(OutPoint, Masternode)>,
                                orphans: seq<VoteMessage>, enabled: bool, resolved: bool) returns (r: bool)
      requires Inv(T())
      modifies this
      ensures T() == AfterRequest(old(T()), request, valid, own, orphans, enabled, resolved)
      ensures r <==> !Conflicts(old(T()), request) && valid
      ensures Inv(T())
    {
      ghost var steps := RequestIsRun(T(), request, valid, own, orphans, enabled, resolved);
      RunKeeps(T(), steps);
      var i := 0;
      while i < |request.vin|
        invariant 0 <= i <= |request.vin| && forall k | 0 <= k < i :: request.vin[k] !in mapLockedOutpoints
      {
        if request.vin[i] in mapLockedOutpoints {
          return false;
        }
        i := i + 1;
      }
      if !valid {
        return false;
      }
      CreateTxLockCandidate(request);
      ReceiveKeeps(old(T()), request);
      VoteOwn(request.hash, own);
      ProcessOrphans(orphans, enabled);
      var ready := IsAllOutPointsReady(mapTxLockCandidates[request.hash]);
      if enabled && ready {
        var clear := ResolveConflicts(request.hash, resolved);
        if clear {
          LockTransactionInputs(request.hash);
        }
      }
      return true;
    }

    method CreateTxLockCandidate(request: Request)
      modifies this`mapTxLockCandidates
      ensures T() == Admit(old(T()), request)
    {
      if request.hash in mapTxLockCandidates {
        return;
      }
      hide NoVotes;
      var votes: map<OutPoint, set<Masternode>> := map[];
      var i := |request.vin|;
      NoInputs(request.vin);
      while i > 0
        invariant 0 <= i <= |request.vin| && T() == old(T())
        invariant votes == NoVotes(request.vin[i..])
      {
        i := i - 1;
        AnotherInput(request.vin, i);
        if request.vin[i] !in votes {
          votes := votes[request.vin[i] := {}];
        }
      }
      assert request.vin[0..] == request.vin;
      mapTxLockCandidates := mapTxLockCandidates[request.hash := Candidate(request, votes, -1)];
    }

    method VoteOwn(h: Hash, own: seq<(OutPoint, Masternode)>)
      requires h in mapTxLockCandidates && Inv(T())
      modifies this`mapTxLockCandidates
      ensures T() == AfterOwn(old(T()), h, own) && Inv(T())
      ensures h in mapTxLockCandidates
    {
      var i := 0;
      while i < |own|
        invariant 0 <= i <= |own| && h in mapTxLockCandidates && Inv(T())
        invariant T() == AfterOwn(old(T()), h, own[..i])
      {
        VoteKeeps(T(), h, own[i].0, own[i].1);
        assert own[..i + 1][..i] == own[..i];
        var ok := AddVote(h, own[i].0, own[i].1);
        i := i + 1;
      }
      assert own[..i] == own;
    }

    // Votes for candidates that are not there stay orphans.
    method ProcessOrphans(orphans: seq<VoteMessage>, enabled: bool)
      requires Inv(T())
      modifies this
      ensures T() == AfterVotes(old(T()), orphans) && Inv(T())
      ensures mapTxLockCandidates.Keys == old(mapTxLockCandidates).Keys
    {
      var i := 0;
      while i < |orphans|
        invariant 0 <= i <= |orphans| && Inv(T())
        invariant T() == AfterVotes(old(T()), orphans[..i])
        invariant mapTxLockCandidates.Keys == old(mapTxLockCandidates).Keys
      {
        var v := orphans[i];
        assert orphans[..i + 1][..i] == orphans[..i];
        ghost var steps := VoteIsRun(T(), v);
        RunKeeps(T(), steps);
        if v.h in mapTxLockCandidates {
          var r := ProcessTxLockVote(v, enabled);
        }
        i := i + 1;
      }
      assert orphans[..i] == orphans;
    }

    method SyncTransaction(h: Hash, nHeightNew: int)
      modifies this`mapTxLockCandidates
      ensures T() == Next(old(T()), Sync(h, nHeightNew))
    {
      if h in mapTxLockCandidates {
        mapTxLockCandidates := mapTxLockCandidates[h := mapTxLockCandidates[h].(nConfirmedHeight := nHeightNew)];
      }
    }

    // Candidates expire a number of blocks after their transaction was confirmed.
    method CheckAndRemove(nHeight: int, nKeepLock: int)
      modifies this
      ensures T() == Next(old(T()), Expire(nHeight, nKeepLock))
    {
      ghost var t := T();
      var left := mapTxLockCandidates.Keys;
      while left != {}
        invariant left <= mapTxLockCandidates.Keys
        invariant T() == Remove(t, Expired(t, nHeight, nKeepLock) - left)
      {
        var h :| h in left;
        ghost var gone := Expired(t, nHeight, nKeepLock) - left;
        var c := mapTxLockCandidates[h];
        left := left - {h};
        if IsExpired(c, nHeight, nKeepLock) {
          assert Expired(t, nHeight, nKeepLock) - left == gone + {h};
          RemoveOne(t, gone, h);
          mapLockedOutpoints := mapLockedOutpoints - c.votes.Keys;
          mapTxLockCandidates := mapTxLockCandidates - {h};
        } else {
          assert Expired(t, nHeight, nKeepLock) - left == gone;
        }
      }
      assert Expired(t, nHeight, nKeepLock) - {} == Expired(t, nHeight, nKeepLock);
    }

    lemma RemoveOne(t: Table, hs: set<Hash>, h: Hash)
      requires h in t.candidates && h !in hs
      ensures var u := Remove(t, hs);
              Remove(t, hs + {h}) == Table(u.candidates - {h}, u.locked - t.candidates[h].votes.Keys)
    {
      assert InputsOf(t, hs + {h}) == InputsOf(t, hs) + t.candidates[h].votes.Keys;
      assert t.candidates - (hs + {h}) == t.candidates - hs - {h};
      assert t.locked - InputsOf(t, hs + {h}) == t.locked - InputsOf(t, hs) - t.candidates[h].votes.Keys;
    }
  }
}
