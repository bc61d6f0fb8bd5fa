/** What a lock takes, in votes: ten different masternodes on every input, each of which has
    voted, and no other transaction with a lock on one of them. */
module InstantSendLaws {
  import opened InstantSend
  import opened InstantSendTable

  // The masternode's vote for the input is counted.
  ghost predicate HasVote(t: Table, h: Hash, o: OutPoint, mn: Masternode) {
    h in t.candidates && o in t.candidates[h].votes && mn in t.candidates[h].votes[o]
  }

  // Every input has ten votes, of which there is at least one.
  ghost predicate HasTen(c: Candidate) {
    c.votes != map[] && forall o | o in c.votes :: |c.votes[o]| >= 10
  }

  // No input of the request is locked by another transaction.
  ghost predicate NoRival(t: Table, c: Candidate, h: Hash) {
    forall o | o in c.request.vin && o in t.locked :: t.locked[o] == h
  }

  // The transaction has all its inputs.
  ghost predicate HoldsAll(t: Table, c: Candidate, h: Hash) {
    forall o | o in c.votes :: o in t.locked && t.locked[o] == h
  }

  lemma StepCasts(t: Table, step: Step, h: Hash, o: OutPoint, mn: Masternode)
    requires HasVote(Next(t, step), h, o, mn)
    ensures HasVote(t, h, o, mn) || step == Vote(h, o, mn)
  {
  }

  // Every vote that is counted was there before or was cast.
  lemma {:induction false} VotesWereCast(t: Table, steps: seq<Step>, h: Hash, o: OutPoint, mn: Masternode)
    requires HasVote(Run(t, steps), h, o, mn)
    ensures HasVote(t, h, o, mn) || Vote(h, o, mn) in steps
    decreases |steps|
  {
    hide HasVote, Next;
    if steps != [] {
      VotesWereCast(Next(t, steps[0]), steps[1..], h, o, mn);
      if HasVote(Next(t, steps[0]), h, o, mn) {
        StepCasts(t, steps[0], h, o, mn);
      }
    }
  }

  // Every lock was there before or comes from the completion of that transaction.
  lemma {:induction false} LocksWereFinished(t: Table, steps: seq<Step>, o: OutPoint)
    requires o in Run(t, steps).locked
    ensures (o in t.locked && t.locked[o] == Run(t, steps).locked[o]) || Finish(Run(t, steps).locked[o], true) in steps
    decreases |steps|
  {
    if steps != [] {
      LocksWereFinished(Next(t, steps[0]), steps[1..], o);
    }
  }

  // After any run from an empty table, whoever holds an outpoint has it as an input, was
  // completed in the run, and has on each of its inputs ten different masternodes that voted
  // for it in the run.
  lemma LocksHaveTen(steps: seq<Step>, o: OutPoint)
    requires o in Run(EMPTY, steps).locked
    ensures var t := Run(EMPTY, steps); var h := t.locked[o];
      && h in t.candidates && t.candidates[h].request.hash == h && o in t.candidates[h].request.vin
      && Finish(h, true) in steps
      && forall p | p in t.candidates[h].request.vin ::
        && p in t.candidates[h].votes && |t.candidates[h].votes[p]| >= 10
        && forall mn | mn in t.candidates[h].votes[p] :: Vote(h, p, mn) in steps
  {
    RunKeeps(EMPTY, steps);
    LocksWereFinished(EMPTY, steps, o);
    var t := Run(EMPTY, steps);
    var h := t.locked[o];
    assert IsBacked(t, o) && IsCandidate(h, t.candidates[h]);
    hide Run;
    forall p, mn | p in t.candidates[h].request.vin && mn in t.candidates[h].votes[p] ensures Vote(h, p, mn) in steps {
      VotesWereCast(EMPTY, steps, h, p, mn);
    }
  }

  // The same for a transaction all of whose inputs are locked.
  lemma LockedHasTen(steps: seq<Step>, h: Hash, p: OutPoint)
    requires IsLocked(Run(EMPTY, steps), h) && p in Run(EMPTY, steps).candidates[h].request.vin
    ensures var c := Run(EMPTY, steps).candidates[h];
      p in c.votes && |c.votes[p]| >= 10 && forall mn | mn in c.votes[p] :: Vote(h, p, mn) in steps
  {
    RunKeeps(EMPTY, steps);
    var t := Run(EMPTY, steps);
    assert IsCandidate(h, t.candidates[h]);
    hide Run;
    assert t.locked[p] == h;
    LocksHaveTen(steps, p);
  }

  // Completion locks all inputs exactly if each has ten votes, there is one, no other transaction
  // holds one, and nothing else stands in the way; otherwise it changes nothing.
  lemma FinishIs(t: Table, h: Hash, resolved: bool)
    requires Inv(t) && h in t.candidates
    ensures var c, u := t.candidates[h], Next(t, Finish(h, resolved));
      if HasTen(c) && NoRival(t, c, h) && resolved then
        && u.candidates == t.candidates && IsLocked(u, h) && HoldsAll(u, c, h)
        && (forall o :: o in u.locked <==> o in t.locked || o in c.request.vin)
        && (forall o | o in t.locked :: u.locked[o] == t.locked[o])
      else
        u == t
  {
    assert IsCandidate(h, t.candidates[h]);
  }

  // A candidate with nine votes or fewer on an input is not locked by it.
  lemma NineAreTooFew(t: Table, h: Hash, o: OutPoint, resolved: bool)
    requires Inv(t) && h in t.candidates && o in t.candidates[h].votes && |t.candidates[h].votes[o]| <= 9
    ensures Next(t, Finish(h, resolved)) == t && !IsLocked(t, h)
  {
    FinishIs(t, h, resolved);
    if IsLocked(t, h) {
      LockedIsBacked(t, h, o);
    }
  }

  lemma LockedIsBacked(t: Table, h: Hash, o: OutPoint)
    requires Inv(t) && IsLocked(t, h) && o in t.candidates[h].votes
    ensures |t.candidates[h].votes[o]| >= 10
  {
    assert IsBacked(t, o);
  }

  // n votes for transaction 2 in the run of the rivals lock it exactly from ten on.
  lemma TenAreNeeded(n: nat)
    ensures IsLocked(Run(EMPTY, RIVALS + Ballots(n) + [Finish(2, true)]), 2) <==> n >= 10
  {
    hide Next, IsLocked, Ballots, Run, RIVALS;
    var s := Run(EMPTY, RIVALS);
    RivalsAdmitted();
    BallotsCount(s, n);
    var u, f := Run(s, Ballots(n)), Finish(2, true);
    RunConcat(EMPTY, RIVALS, Ballots(n));
    RunConcat(EMPTY, RIVALS + Ballots(n), [f]);
    RunOne(u, f);
    RunKeeps(EMPTY, RIVALS + Ballots(n));
    FinishIs(u, 2, true);
    if n < 10 {
      NineAreTooFew(u, 2, 5, true);
    }
  }

  // ---------------------------------------------------------------- the other steps

  // A request is admitted if it is valid and none of its inputs is locked: with no votes on
  // exactly its inputs, and not confirmed.  One that is known stays as it is.
  lemma ReceiveIs(t: Table, request: Request, valid: bool)
    ensures var u := Next(t, Receive(request, valid));
      if !valid || request.hash in t.candidates || exists o :: o in request.vin && o in t.locked then
        u == t
      else
        && u.locked == t.locked && request.hash in u.candidates
        && u.candidates - {request.hash} == t.candidates
        && u.candidates[request.hash].request == request && u.candidates[request.hash].nConfirmedHeight == -1
        && (forall o :: o in u.candidates[request.hash].votes <==> o in request.vin)
        && (forall o | o in request.vin :: u.candidates[request.hash].votes[o] == {})
  {
  }

  // A vote for an input of a candidate is counted, once; any other changes nothing.
  lemma VoteIs(t: Table, h: Hash, o: OutPoint, mn: Masternode)
    ensures var u := Next(t, Vote(h, o, mn));
      if h in t.candidates && o in t.candidates[h].votes then
        && u.locked == t.locked && u.candidates.Keys == t.candidates.Keys
        && u.candidates[h] == t.candidates[h].(votes := t.candidates[h].votes[o := t.candidates[h].votes[o] + {mn}])
        && (forall g | g in t.candidates && g != h :: u.candidates[g] == t.candidates[g])
      else
        u == t
  {
    if HasVote(t, h, o, mn) {
      assert t.candidates[h].votes[o] + {mn} == t.candidates[h].votes[o];
    }
  }

  // A candidate is kept through its nKeepLock-th block after the one it was confirmed in, and
  // goes with the next one; with it go the locks on its inputs, whoever holds them.
  lemma ExpireIs(t: Table, nHeight: int, nKeepLock: int)
    ensures var u := Next(t, Expire(nHeight, nKeepLock));
      && (forall h :: h in u.candidates <==>
            h in t.candidates && (t.candidates[h].nConfirmedHeight == -1 || nHeight <= t.candidates[h].nConfirmedHeight + nKeepLock))
      && (forall h | h in u.candidates :: u.candidates[h] == t.candidates[h])
      && (forall o :: o in u.locked <==>
            o in t.locked && forall h | h in t.candidates && o in t.candidates[h].votes :: h in u.candidates)
      && (forall o | o in u.locked :: u.locked[o] == t.locked[o])
  {
    var hs := Expired(t, nHeight, nKeepLock);
    forall o ensures o in InputsOf(t, hs) <==> exists h | h in hs :: h in t.candidates && o in t.candidates[h].votes {}
  }

  // ---------------------------------------------------------------- messages

  // A vote that is accepted and new is counted, and completes the lock if that makes ten on
  // every input and no rival is in the way.
  lemma VoteMessageIs(t: Table, v: VoteMessage)
    requires Inv(t) && v.h in t.candidates
    ensures v.accepted && v.o in t.candidates[v.h].votes && v.mn !in t.candidates[v.h].votes[v.o] ==>
      AfterVote(t, v) == Next(Next(t, Vote(v.h, v.o, v.mn)), Finish(v.h, v.resolved))
    ensures !v.accepted || v.o !in t.candidates[v.h].votes || v.mn in t.candidates[v.h].votes[v.o] ==> AfterVote(t, v) == t
  {
  }

  // The candidate is still there, with the same inputs and every vote it had.
  ghost predicate Grown(t: Table, u: Table, h: Hash) {
    && h in t.candidates && h in u.candidates && u.candidates[h].votes.Keys == t.candidates[h].votes.Keys
    && forall o | o in t.candidates[h].votes :: t.candidates[h].votes[o] <= u.candidates[h].votes[o]
  }

  lemma {:induction false} OwnCounts(t: Table, h: Hash, own: seq<(OutPoint, Masternode)>)
    requires h in t.candidates
    ensures Grown(t, AfterOwn(t, h, own), h)
    ensures forall i | 0 <= i < |own| && own[i].0 in t.candidates[h].votes :: HasVote(AfterOwn(t, h, own), h, own[i].0, own[i].1)
  {
    if own != [] {
      var n := |own| - 1;
      OwnCounts(t, h, own[..n]);
      forall i | 0 <= i < n ensures own[..n][i] == own[i] {}
    }
  }

  lemma VoteGrows(t: Table, v: VoteMessage, h: Hash)
    requires h in t.candidates
    ensures Grown(t, AfterVote(t, v), h)
  {
  }

  lemma {:induction false} VotesGrow(t: Table, vs: seq<VoteMessage>, h: Hash)
    requires h in t.candidates
    ensures Grown(t, AfterVotes(t, vs), h)
  {
    hide AfterVote;
    if vs != [] {
      VotesGrow(t, vs[..|vs| - 1], h);
      VoteGrows(AfterVotes(t, vs[..|vs| - 1]), vs[|vs| - 1], h);
    }
  }

  // An accepted vote for an input is counted, if the candidate is there to count it.
  lemma {:induction false} VotesCount(t: Table, vs: seq<VoteMessage>, i: nat)
    requires i < |vs| && vs[i].accepted && vs[i].h in t.candidates && vs[i].o in t.candidates[vs[i].h].votes
    ensures HasVote(AfterVotes(t, vs), vs[i].h, vs[i].o, vs[i].mn)
  {
    var n := |vs| - 1;
    VotesGrow(t, vs[..n], vs[i].h);
    if i < n {
      VotesCount(t, vs[..n], i);
      VoteGrows(AfterVotes(t, vs[..n]), vs[n], vs[i].h);
    }
  }

  // A request that is admitted has its own node's votes and the waiting ones counted; with the
  // option on it is locked if it then has ten votes on every input and no rival.
  lemma RequestIs(t: Table, request: Request, valid: bool, own: seq<(OutPoint, Masternode)>,
                  orphans: seq<VoteMessage>, enabled: bool, resolved: bool)
    requires Inv(t)
    ensures var u, h := AfterRequest(t, request, valid, own, orphans, enabled, resolved), request.hash;
      if !valid || exists o :: o in request.vin && o in t.locked then
        u == t
      else
        && h in u.candidates
        && (enabled && resolved && HasTen(u.candidates[h]) && NoRival(u, u.candidates[h], h) ==> IsLocked(u, h))
        && (forall i | 0 <= i < |own| && own[i].0 in u.candidates[h].votes :: HasVote(u, h, own[i].0, own[i].1))
        && (forall i | 0 <= i < |orphans| && orphans[i].accepted && orphans[i].h == h && orphans[i].o in u.candidates[h].votes ::
              HasVote(u, h, orphans[i].o, orphans[i].mn))
  {
    if valid && !Conflicts(t, request) {
      var h := request.hash;
      var a := Admit(t, request);
      ReceiveKeeps(t, request);
      hide Admit, Inv;
      var b := AfterOwn(a, h, own);
      var ownSteps := OwnIsRun(a, h, own);
      RunKeeps(a, ownSteps);
      OwnCounts(a, h, own);
      var c := AfterVotes(b, orphans);
      var steps := VotesAreRun(b, orphans);
      RunKeeps(b, steps);
      VotesGrow(b, orphans, h);
      forall i | 0 <= i < |orphans| && orphans[i].accepted && orphans[i].h == h && orphans[i].o in c.candidates[h].votes
        ensures HasVote(c, h, orphans[i].o, orphans[i].mn)
      {
        VotesCount(b, orphans, i);
      }
      FinishIs(c, h, resolved);
      hide AfterOwn, AfterVotes, Run;
    }
  }

  // A transaction counts as locked exactly if it is a candidate with an input, all of which it holds.
  lemma LockedIs(t: Table, h: Hash)
    requires Inv(t)
    ensures IsLocked(t, h) <==>
      && h in t.candidates && t.candidates[h].request.vin != []
      && forall o | o in t.candidates[h].request.vin :: o in t.locked && t.locked[o] == h
  {
    if h in t.candidates {
      assert IsCandidate(h, t.candidates[h]);
      var vin := t.candidates[h].request.vin;
      assert vin != [] ==> vin[0] in t.candidates[h].votes;
    }
  }
}
