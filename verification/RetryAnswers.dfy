/** What callers of a retry are told, and why. */
module RetryAnswers {
  import opened RetryRun
  import opened RetryTheorems

  // The run as the caller may see it.
  predicate Sees(runs: map<int, Row>, c: Caller, isMember: bool) {
    isMember && c.run in runs && runs[c.run].org == c.org
  }

  predicate Retryable(runs: map<int, Row>, c: Caller, isMember: bool) {
    Sees(runs, c, isMember) && !runs[c.run].leased && runs[c.run].attempt < runs[c.run].maxAttempts
  }

  // Why a caller is turned away, in terms of the rows.
  predicate Cause(runs: map<int, Row>, c: Caller, isMember: bool, why: Refusal) {
    match why
    case NotFound => !Sees(runs, c, isMember)
    case ActiveLease => Sees(runs, c, isMember) && runs[c.run].leased
    case RetryLimit =>
      && Sees(runs, c, isMember) && !runs[c.run].leased && runs[c.run].attempt >= runs[c.run].maxAttempts
    case Failed => false
  }

  // Both checks turn a caller away exactly for its cause, and otherwise let it go on with the run's attempt.
  lemma CheckedExactly(s: System, c: nat, isMember: bool, newId: int, why: Refusal)
    requires c in s.callers && (s.callers[c].pc.Entered? || s.callers[c].pc.Locked?)
    ensures var caller, pc := s.callers[c], Step(s, Advance(c, isMember, newId)).callers[c].pc;
            && (pc == Refused(why) <==> Cause(s.runs, caller, isMember, why))
            && ((pc.Checked? || pc.Rechecked?) <==> Retryable(s.runs, caller, isMember))
            && (Retryable(s.runs, caller, isMember) ==> pc.attempt == s.runs[caller.run].attempt)
  {
  }

  // --- over every run ---

  // Whoever holds the row lock retries a run without a live lease and below its limit, at its present attempt.
  lemma LockedRunIsRetryable(runs: map<int, Row>, events: seq<Event>, c: nat)
    requires Wellformed(runs)
    requires var s := Run(Start(runs), events); c in s.callers && HasRowLock(s.callers[c].pc)
    ensures var s := Run(Start(runs), events);
            && Retryable(s.runs, s.callers[c], true)
            && s.runs[s.callers[c].run].attempt == s.callers[c].pc.attempt
  {
    RunKeepsInv(runs, events);
    var s := Run(Start(runs), events);
    assert CallerOk(s, s.callers[c]);
  }

  // A retry appears only when its caller is answered with it, while the run it retries has no live lease and
  // attempts left; it takes over that run's task and limit, with the next attempt.
  lemma RetriesAreOfRetryableRuns(runs: map<int, Row>, events: seq<Event>, e: Event, id: int)
    requires Wellformed(runs) && !e.Foreign?
    requires var s := Run(Start(runs), events); id in Step(s, e).runs && id !in s.runs
    ensures var s := Run(Start(runs), events);
            var row := Step(s, e).runs[id];
            && Step(s, e).runs == s.runs[id := row] && row.key.Retry? && row.key.run in s.runs
            && e.Advance? && e.c in s.callers && s.callers[e.c].org == row.org && s.callers[e.c].run == row.key.run
            && Step(s, e).callers[e.c].pc == Returned(s.runs[row.key.run].attempt, id)
            && var p := s.runs[row.key.run];
               && !p.leased && p.attempt < p.maxAttempts
               && row == Row(p.org, Retry(row.key.run, p.attempt + 1), p.task, p.attempt + 1, p.maxAttempts, false,
                             p.attempt + 1)
  {
    RunKeepsInv(runs, events);
    var s := Run(Start(runs), events);
    assert e.Advance?;
    assert CallerOk(s, s.callers[e.c]);
  }

  // Event i turned the caller away: the rows gave the cause then, or its request broke off, or another row took the
  // key first and was gone when the caller looked for it.
  ghost predicate TurnedAway(start: System, events: seq<Event>, i: nat, c: nat, why: Refusal)
    requires i < |events|
  {
    var s, e := Run(start, events[..i]), events[i];
    && c in s.callers
    && if why.Failed? then
         || e == Abort(c)
         || (e.Advance? && e.c == c && s.callers[c].pc.Conflicted?
             && KeyFree(s.runs, s.callers[c].org, Retry(s.callers[c].run, s.callers[c].pc.attempt + 1)))
       else
         && e.Advance? && e.c == c && (s.callers[c].pc.Entered? || s.callers[c].pc.Locked?)
         && Cause(s.runs, s.callers[c], e.isMember, why)
  }

  lemma RefusedNow(s: System, e: Event, c: nat, why: Refusal)
    requires c in Step(s, e).callers && Step(s, e).callers[c].pc == Refused(why)
    requires !(c in s.callers && s.callers[c].pc == Refused(why))
    ensures TurnedAway(s, [e], 0, c, why)
  {
    if e.Advance? && e.c == c && s.callers[c].pc.Conflicted? {
      NotFoundIsFree(s.runs, s.callers[c].org, Retry(s.callers[c].run, s.callers[c].pc.attempt + 1));
    }
  }

  // Over every run: nobody is turned away without its cause.
  lemma {:induction false} RefusalsHaveTheirCause(runs: map<int, Row>, events: seq<Event>, c: nat)
    requires var s := Run(Start(runs), events); c in s.callers && s.callers[c].pc.Refused?
    ensures exists i :: 0 <= i < |events|
              && TurnedAway(Start(runs), events, i, c, Run(Start(runs), events).callers[c].pc.why)
  {
    var n := |events| - 1;
    var s := Run(Start(runs), events[..n]);
    var why := Run(Start(runs), events).callers[c].pc.why;
    if c in s.callers && s.callers[c].pc == Refused(why) {
      RefusalsHaveTheirCause(runs, events[..n], c);
      var i :| 0 <= i < n && TurnedAway(Start(runs), events[..n], i, c, why);
      assert events[..n][..i] == events[..i];
      assert TurnedAway(Start(runs), events, i, c, why);
    } else {
      RefusedNow(s, events[n], c, why);
      assert TurnedAway(Start(runs), events, n, c, why);
    }
  }

  // An answer is final, whatever happens to the request afterwards.
  lemma {:induction false} AnswerStays(s: System, events: seq<Event>, c: nat)
    requires c in s.callers && s.callers[c].pc.Returned?
    ensures c in Run(s, events).callers && Run(s, events).callers[c] == s.callers[c]
  {
    if events != [] { AnswerStays(s, events[..|events| - 1], c); }
  }

  // --- a caller on its own ---

  function Advances(c: nat, isMember: bool, newId: int, n: nat): (events: seq<Event>)
    ensures |events| == n && forall i :: 0 <= i < n ==> events[i] == Advance(c, isMember, newId)
  {
    seq(n, i => Advance(c, isMember, newId))
  }

  lemma OneMoreAdvance(s: System, c: nat, isMember: bool, newId: int, n: nat)
    ensures Run(s, Advances(c, isMember, newId, n + 1))
         == Step(Run(s, Advances(c, isMember, newId, n)), Advance(c, isMember, newId))
  {
    assert Advances(c, isMember, newId, n + 1)[..n] == Advances(c, isMember, newId, n);
  }

  // The caller's request takes seven steps: the check, the search, the lock, the check and the search again, the
  // insert and its commit.
  const STEPS := 7

  lemma {:induction false} AnsweredStays(s: System, t: System, c: nat, isMember: bool, newId: int, m: nat, n: nat)
    requires m <= n && t == Run(s, Advances(c, isMember, newId, m)) && Step(t, Advance(c, isMember, newId)) == t
    ensures Run(s, Advances(c, isMember, newId, n)) == t
  {
    for k := m to n
      invariant Run(s, Advances(c, isMember, newId, k)) == t
    {
      OneMoreAdvance(s, c, isMember, newId, k);
    }
  }

  lemma NothingMore(s: System, c: nat, isMember: bool, newId: int)
    requires c in s.callers && (s.callers[c].pc.Returned? || s.callers[c].pc.Refused?)
    ensures Step(s, Advance(c, isMember, newId)) == s
  {
    assert s.callers[c := s.callers[c]] == s.callers;
  }

  function At(s: System, c: nat, caller: Caller, pc: Pc): System {
    WithCaller(s, c, caller.(pc := pc))
  }

  lemma Moves(s: System, c: nat, caller: Caller, pc: Pc, isMember: bool, newId: int)
    requires c !in s.callers && !pc.Inserted?
    ensures Step(At(s, c, caller, pc), Advance(c, isMember, newId))
         == At(s, c, caller, NextPc(At(s, c, caller, pc), caller.(pc := pc), isMember, newId))
  {
  }

  // Nobody else is retrying the run, and the id that the caller makes up is free.
  ghost predicate Alone(s: System, c: nat, caller: Caller, newId: int) {
    Inv(s) && c !in s.callers && LockFree(s, caller.org, caller.run) && FreshId(s, newId)
  }

  lemma NothingPending(s: System, org: int, run: int, attempt: nat)
    requires Inv(s) && LockFree(s, org, run)
    ensures NotPending(s, org, Retry(run, attempt))
  {
    forall d | d in s.callers && s.callers[d].pc.Inserted?
      ensures s.callers[d].pc.row.org != org || s.callers[d].pc.row.key != Retry(run, attempt)
    {
      assert CallerOk(s, s.callers[d]);
    }
  }

  // A caller that finds the run retryable and its key free.
  ghost predicate Unretried(s: System, caller: Caller) {
    Retryable(s.runs, caller, true) && KeyFree(s.runs, caller.org, Retry(caller.run, s.runs[caller.run].attempt + 1))
  }

  lemma NothingFound(runs: map<int, Row>, org: int, key: RunKey)
    requires KeyFree(runs, org, key)
    ensures Find(runs, org, key).None?
  {
  }

  lemma LoneCheck(s: System, c: nat, caller: Caller, newId: int)
    requires Alone(s, c, caller, newId) && Unretried(s, caller)
    ensures var a := s.runs[caller.run].attempt;
            && Step(At(s, c, caller, Entered), Advance(c, true, newId)) == At(s, c, caller, Checked(a))
            && Step(At(s, c, caller, Checked(a)), Advance(c, true, newId)) == At(s, c, caller, RetryRun.Waiting(a))
  {
    var a := s.runs[caller.run].attempt;
    NothingFound(s.runs, caller.org, Retry(caller.run, a + 1));
    Moves(s, c, caller, Entered, true, newId);
    Moves(s, c, caller, Checked(a), true, newId);
  }

  lemma LoneLock(s: System, c: nat, caller: Caller, attempt: nat, newId: int)
    requires Alone(s, c, caller, newId)
    ensures Step(At(s, c, caller, RetryRun.Waiting(attempt)), Advance(c, true, newId)) == At(s, c, caller, Locked)
  {
    Moves(s, c, caller, RetryRun.Waiting(attempt), true, newId);
  }

  lemma LoneRecheck(s: System, c: nat, caller: Caller, newId: int)
    requires Alone(s, c, caller, newId) && Unretried(s, caller)
    ensures var a := s.runs[caller.run].attempt;
            && Step(At(s, c, caller, Locked), Advance(c, true, newId)) == At(s, c, caller, Rechecked(a))
            && Step(At(s, c, caller, Rechecked(a)), Advance(c, true, newId)) == At(s, c, caller, Inserting(a))
  {
    var a := s.runs[caller.run].attempt;
    NothingFound(s.runs, caller.org, Retry(caller.run, a + 1));
    Moves(s, c, caller, Locked, true, newId);
    Moves(s, c, caller, Rechecked(a), true, newId);
  }

  lemma LoneInsert(s: System, c: nat, caller: Caller, newId: int)
    requires Alone(s, c, caller, newId) && Unretried(s, caller)
    ensures var a, child := s.runs[caller.run].attempt, ChildRow(s.runs[caller.run], caller.run);
            Step(At(s, c, caller, Inserting(a)), Advance(c, true, newId)) == At(s, c, caller, Inserted(a, newId, child))
  {
    var a := s.runs[caller.run].attempt;
    NothingFound(s.runs, caller.org, Retry(caller.run, a + 1));
    NothingPending(s, caller.org, caller.run, a + 1);
    Moves(s, c, caller, Inserting(a), true, newId);
  }

  lemma SixSteps(s: System, c: nat, newId: int)
    ensures var e := Advance(c, true, newId);
            Run(s, Advances(c, true, newId, 6)) == Step(Step(Step(Step(Step(Step(s, e), e), e), e), e), e)
  {
    assert Advances(c, true, newId, 0) == [];
    OneMoreAdvance(s, c, true, newId, 0);
    OneMoreAdvance(s, c, true, newId, 1);
    OneMoreAdvance(s, c, true, newId, 2);
    OneMoreAdvance(s, c, true, newId, 3);
    OneMoreAdvance(s, c, true, newId, 4);
    OneMoreAdvance(s, c, true, newId, 5);
  }

  lemma LoneWrite(s: System, c: nat, caller: Caller, newId: int)
    requires Alone(s, c, caller, newId) && Unretried(s, caller)
    ensures Run(At(s, c, caller, Entered), Advances(c, true, newId, 6))
         == At(s, c, caller, Inserted(s.runs[caller.run].attempt, newId, ChildRow(s.runs[caller.run], caller.run)))
  {
    var start := At(s, c, caller, Entered);
    LoneCheck(s, c, caller, newId);
    LoneLock(s, c, caller, s.runs[caller.run].attempt, newId);
    LoneRecheck(s, c, caller, newId);
    LoneInsert(s, c, caller, newId);
    SixSteps(start, c, newId);
  }

  lemma LoneRetry(s: System, c: nat, caller: Caller, newId: int)
    requires Alone(s, c, caller, newId) && Unretried(s, caller)
    ensures var p := s.runs[caller.run];
            var t := Run(At(s, c, caller, Entered), Advances(c, true, newId, STEPS));
            && t.callers == s.callers[c := caller.(pc := Returned(p.attempt, newId))]
            && t.runs == s.runs[newId := Row(caller.org, Retry(caller.run, p.attempt + 1), p.task, p.attempt + 1,
                                             p.maxAttempts, false, p.attempt + 1)]
  {
    LoneWrite(s, c, caller, newId);
    OneMoreAdvance(At(s, c, caller, Entered), c, true, newId, 6);
    LoneCommit(s, c, caller, s.runs[caller.run].attempt, newId, ChildRow(s.runs[caller.run], caller.run));
  }

  lemma LoneCommit(s: System, c: nat, caller: Caller, attempt: nat, id: int, row: Row)
    ensures var t := Step(At(s, c, caller, Inserted(attempt, id, row)), Advance(c, true, id));
            t.callers == s.callers[c := caller.(pc := Returned(attempt, id))] && t.runs == s.runs[id := row]
  {
  }

  // Everything that a caller on its own can be told, and what it leaves behind.
  lemma LoneCaller(s: System, c: nat, org: int, run: int, isMember: bool, newId: int)
    requires Alone(s, c, Caller(org, run, Entered), newId)
    ensures var caller := Caller(org, run, Entered);
            var t := Run(Step(s, Call(c, org, run)), Advances(c, isMember, newId, STEPS));
            && (forall why :: Cause(s.runs, caller, isMember, why) ==> t == At(s, c, caller, Refused(why)))
            && (Retryable(s.runs, caller, isMember) ==>
                  var p := s.runs[run];
                  var key := Retry(run, p.attempt + 1);
                  && (forall id :: Holds(s.runs, id, org, key) ==> t == At(s, c, caller, Returned(p.attempt, id)))
                  && (KeyFree(s.runs, org, key) ==>
                        && t.callers == s.callers[c := Caller(org, run, Returned(p.attempt, newId))]
                        && t.runs == s.runs[newId := Row(org, key, p.task, p.attempt + 1, p.maxAttempts, false,
                                                         p.attempt + 1)]))
  {
    var caller := Caller(org, run, Entered);
    var start := At(s, c, caller, Entered);
    assert Step(s, Call(c, org, run)) == start;
    if Retryable(s.runs, caller, isMember) {
      if KeyFree(s.runs, org, Retry(run, s.runs[run].attempt + 1)) {
        LoneRetry(s, c, caller, newId);
      } else {
        LoneFinds(s, c, caller, newId);
      }
    } else {
      LoneRefusal(s, c, caller, isMember, newId);
    }
  }

  lemma LoneRefusal(s: System, c: nat, caller: Caller, isMember: bool, newId: int)
    requires Alone(s, c, caller, newId) && caller.pc.Entered? && !Retryable(s.runs, caller, isMember)
    ensures forall why :: Cause(s.runs, caller, isMember, why) ==>
              Run(At(s, c, caller, Entered), Advances(c, isMember, newId, STEPS)) == At(s, c, caller, Refused(why))
  {
    var start := At(s, c, caller, Entered);
    assert Advances(c, isMember, newId, 0) == [];
    OneMoreAdvance(start, c, isMember, newId, 0);
    Moves(s, c, caller, Entered, isMember, newId);
    var t := Run(start, Advances(c, isMember, newId, 1));
    NothingMore(t, c, isMember, newId);
    AnsweredStays(start, t, c, isMember, newId, 1, STEPS);
  }

  lemma LoneFinds(s: System, c: nat, caller: Caller, newId: int)
    requires Alone(s, c, caller, newId) && caller.pc.Entered? && Retryable(s.runs, caller, true)
    requires !KeyFree(s.runs, caller.org, Retry(caller.run, s.runs[caller.run].attempt + 1))
    ensures var a := s.runs[caller.run].attempt;
            forall id :: Holds(s.runs, id, caller.org, Retry(caller.run, a + 1)) ==>
              Run(At(s, c, caller, Entered), Advances(c, true, newId, STEPS)) == At(s, c, caller, Returned(a, id))
  {
    var start, a := At(s, c, caller, Entered), s.runs[caller.run].attempt;
    assert Advances(c, true, newId, 0) == [];
    OneMoreAdvance(start, c, true, newId, 0);
    OneMoreAdvance(start, c, true, newId, 1);
    Moves(s, c, caller, Entered, true, newId);
    Moves(s, c, caller, Checked(a), true, newId);
    var key := Retry(caller.run, a + 1);
    if Find(s.runs, caller.org, key).None? { NotFoundIsFree(s.runs, caller.org, key); }
    var t := Run(start, Advances(c, true, newId, 2));
    NothingMore(t, c, true, newId);
    AnsweredStays(start, t, c, true, newId, 2, STEPS);
  }

  // So it is from any state that a run of the system can reach.
  lemma LoneCallerIsAnswered(runs: map<int, Row>, events: seq<Event>, c: nat, org: int, run: int, newId: int)
    requires Wellformed(runs)
    requires var s := Run(Start(runs), events);
             && c !in s.callers && LockFree(s, org, run) && FreshId(s, newId)
             && Retryable(s.runs, Caller(org, run, Entered), true)
    ensures var s := Run(Start(runs), events);
            var t := Run(Step(s, Call(c, org, run)), Advances(c, true, newId, STEPS));
            && c in t.callers && t.callers[c].pc.Returned? && t.callers[c].pc.attempt == s.runs[run].attempt
            && Holds(t.runs, t.callers[c].pc.id, org, Retry(run, s.runs[run].attempt + 1))
            && (t.callers[c].pc.id == newId || t.runs == s.runs)
  {
    RunKeepsInv(runs, events);
    var s := Run(Start(runs), events);
    LoneCaller(s, c, org, run, true, newId);
    var key := Retry(run, s.runs[run].attempt + 1);
    if !KeyFree(s.runs, org, key) {
      var id :| id in s.runs && s.runs[id].org == org && s.runs[id].key == key;
      assert Holds(s.runs, id, org, key);
    }
  }
}
