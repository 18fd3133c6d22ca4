/** The end of a run: one completion, with an answer its own request received, and one cost event at most. */
module RunCharges {
  import opened EffectKeys
  import opened RunLease
  import opened RunEffects

  ghost predicate RepliesKnown(s: System) {
    forall x :: x in s.executions && s.executions[x].phase.Answered? ==>
      s.executions[x].phase.reply in s.requests && s.executions[x].phase.reply.run == s.executions[x].run
  }

  // Only a call puts a reply into an execution, and it is the last one in the log.
  lemma OnlyCallsAnswer(s: System, e: Event, x: nat)
    requires x in Step(s, e).executions && Step(s, e).executions[x].phase.Answered?
    ensures x in s.executions && s.executions[x].run == Step(s, e).executions[x].run
    ensures Step(s, e).executions[x].phase != s.executions[x].phase ==>
              var reply := Step(s, e).executions[x].phase.reply;
              reply.run == s.executions[x].run && Step(s, e).requests == s.requests + [reply]
  {
    StepsExecutions(s, e, x);
  }

  lemma LogGrows(s: System, e: Event)
    ensures forall q :: q in s.requests ==> q in Step(s, e).requests
  {
    OtherStepsKeepLog(s, e);
  }

  lemma StepKeepsReplies(s: System, e: Event)
    requires RepliesKnown(s)
    ensures RepliesKnown(Step(s, e))
  {
    LogGrows(s, e);
    var t := Step(s, e);
    forall x | x in t.executions && t.executions[x].phase.Answered?
      ensures t.executions[x].phase.reply in t.requests && t.executions[x].phase.reply.run == t.executions[x].run
    {
      OnlyCallsAnswer(s, e, x);
    }
  }

  // The result of a run is an answer its own executions received, and every cost event is some run's result.
  ghost predicate ResultsKnown(s: System) {
    && (forall r :: r in s.rows && s.rows[r].result.Some? ==>
          var reply := s.rows[r].result.value;
          reply in s.requests && reply.run == r && reply.eventId in s.costs)
    && (forall id :: id in s.costs ==>
          && s.costs[id] in s.rows && s.rows[s.costs[id]].result.Some?
          && s.rows[s.costs[id]].result.value.eventId == id)
  }

  ghost predicate ResultsMatchStatus(s: System) {
    forall r :: r in s.rows ==> (s.rows[r].result.Some? <==> s.rows[r].status.Succeeded?)
  }

  lemma KeysStay(s: System, e: Event)
    ensures Step(s, e).rows.Keys == s.rows.Keys
  {
    assert !e.Tick? && !e.Claim? && Active(s, e.x) ==> Act(s, e.x, e).rows.Keys == s.rows.Keys;
  }

  lemma OtherStepsKeepCosts(s: System, e: Event)
    requires !e.Complete?
    ensures Step(s, e).costs == s.costs
  {
  }

  lemma OtherStepsKeepResult(s: System, e: Event, r: string)
    requires !e.Complete? && r in s.rows && r in Step(s, e).rows
    ensures Step(s, e).rows[r].result == s.rows[r].result
  {
  }

  lemma StepKeepsResults(s: System, e: Event)
    requires ResultsKnown(s) && ResultsMatchStatus(s) && RepliesKnown(s)
    ensures ResultsKnown(Step(s, e))
  {
    if !e.Complete? {
      KeysStay(s, e);
      LogGrows(s, e);
      OtherStepsKeepCosts(s, e);
      forall r | r in s.rows ensures Step(s, e).rows[r].result == s.rows[r].result {
        OtherStepsKeepResult(s, e, r);
      }
    } else if Active(s, e.x) && Completes(s, e.x) {
      CompletionKeepsResults(s, e.x);
    } else {
      NoCompletion(s, e.x);
    }
  }

  lemma NoCompletion(s: System, x: nat)
    requires !(Active(s, x) && Completes(s, x))
    ensures Step(s, Complete(x)).rows == s.rows && Step(s, Complete(x)).costs == s.costs
    ensures Step(s, Complete(x)).requests == s.requests
  {
  }

  lemma WhatCompletionDoes(s: System, x: nat)
    requires Active(s, x) && Completes(s, x)
    ensures var t, run, reply := Step(s, Complete(x)), s.executions[x].run, s.executions[x].phase.reply;
            && t.requests == s.requests
            && t.rows == s.rows[run := CompletedRow(s.rows[run], reply)]
            && t.costs == if reply.eventId in s.costs then s.costs else s.costs[reply.eventId := run]
  {
  }

  lemma CompletionKeepsResults(s: System, x: nat)
    requires ResultsKnown(s) && ResultsMatchStatus(s) && RepliesKnown(s) && Active(s, x) && Completes(s, x)
    ensures ResultsKnown(Step(s, Complete(x)))
  {
    WhatCompletionDoes(s, x);
    assert s.rows[s.executions[x].run].result.None?;
    Charge(s, Step(s, Complete(x)), s.executions[x].run, s.executions[x].phase.reply);
  }

  lemma Charge(s: System, t: System, run: string, reply: Request)
    requires ResultsKnown(s) && run in s.rows && s.rows[run].result.None? && reply in s.requests && reply.run == run
    requires t.requests == s.requests && t.rows == s.rows[run := CompletedRow(s.rows[run], reply)]
    requires t.costs == if reply.eventId in s.costs then s.costs else s.costs[reply.eventId := run]
    ensures ResultsKnown(t)
  {
  }

  ghost predicate BothDone(s: System, x: nat, y: nat) {
    && x in s.executions && y in s.executions && s.executions[x].run == s.executions[y].run
    && s.executions[x].phase.Done? && s.executions[y].phase.Done?
  }

  // An execution that is done completed its run, and it alone did.
  ghost predicate DoneOnce(s: System) {
    && (forall x :: x in s.executions && s.executions[x].phase.Done? ==>
          s.executions[x].run in s.rows && s.rows[s.executions[x].run].status.Succeeded?)
    && (forall x, y :: BothDone(s, x, y) ==> x == y)
  }

  lemma NobodyElseIsDone(s: System, e: Event, x: nat)
    requires x in Step(s, e).executions && Step(s, e).executions[x].phase.Done?
    ensures x in s.executions && Step(s, e).executions[x].run == s.executions[x].run
    ensures !s.executions[x].phase.Done? ==> e == Complete(x) && Completes(s, x)
  {
    StepsExecutions(s, e, x);
  }

  lemma SucceededStays(s: System, e: Event, r: string)
    requires r in s.rows && s.rows[r].status.Succeeded?
    ensures r in Step(s, e).rows && Step(s, e).rows[r].status.Succeeded?
  {
    StepsRows(s, e, r);
  }

  lemma StepKeepsDone(s: System, e: Event)
    requires DoneOnce(s)
    ensures DoneOnce(Step(s, e))
  {
    var t := Step(s, e);
    forall x | x in t.executions && t.executions[x].phase.Done?
      ensures t.executions[x].run in t.rows && t.rows[t.executions[x].run].status.Succeeded?
    {
      NobodyElseIsDone(s, e, x);
      if s.executions[x].phase.Done? { SucceededStays(s, e, s.executions[x].run); }
    }
    forall x, y | BothDone(t, x, y) ensures x == y {
      NobodyElseIsDone(s, e, x);
      NobodyElseIsDone(s, e, y);
      assert s.executions[x].phase.Done? && s.executions[y].phase.Done? ==> BothDone(s, x, y);
    }
  }

  ghost predicate Inv(s: System) {
    RepliesKnown(s) && ResultsKnown(s) && ResultsMatchStatus(s) && DoneOnce(s)
  }

  lemma {:induction false} RunKeepsInv(start: System, events: seq<Event>)
    requires Starting(start)
    ensures Inv(Run(start, events)) && Run(start, events).rows.Keys == start.rows.Keys
  {
    if events != [] {
      var s, e := Run(start, events[..|events| - 1]), events[|events| - 1];
      RunKeepsInv(start, events[..|events| - 1]);
      StepKeepsReplies(s, e);
      StepKeepsResults(s, e);
      StepKeepsDone(s, e);
      KeysStay(s, e);
      forall r | r in start.rows ensures RowInv(Run(start, events).rows[r], start.rows[r]) {
        RunKeepsRow(start, events, r);
      }
    }
  }

  // A run is completed at most once, by one execution, with an answer that one of its own requests received.
  lemma CompletedOnce(start: System, events: seq<Event>, run: string)
    requires Starting(start) && run in start.rows
    ensures run in Run(start, events).rows
    ensures var s := Run(start, events);
            var row := s.rows[run];
            && row.completions <= 1 && (row.completions == 1 <==> row.status.Succeeded?)
            && (row.status.Succeeded? <==> row.result.Some?)
            && (row.result.Some? ==> row.result.value in s.requests && row.result.value.run == run)
            && (forall x, y :: BothDone(s, x, y) ==> x == y)
  {
    RunKeepsInv(start, events);
    RunKeepsRow(start, events, run);
  }

  // A completion is charged exactly when its provider event has not been charged before.
  lemma ChargedIffNew(s: System, x: nat)
    requires Active(s, x) && Completes(s, x)
    ensures var t, run, id := Step(s, Complete(x)), s.executions[x].run, s.executions[x].phase.reply.eventId;
            && t.rows[run].status.Succeeded? && id in t.costs
            && (t.costs != s.costs <==> id !in s.costs)
            && (id !in s.costs ==> t.costs == s.costs[id := run])
  {
    WhatCompletionDoes(s, x);
  }

  // Every cost event is some succeeded run's own result; so a run is charged for at most one event, and an
  // unfinished one for none.
  lemma ChargedForOwnResult(start: System, events: seq<Event>, id: string)
    requires Starting(start) && id in Run(start, events).costs
    ensures var s := Run(start, events);
            var run := s.costs[id];
            && run in s.rows && s.rows[run].status.Succeeded? && s.rows[run].result.Some?
            && s.rows[run].result.value.eventId == id
  {
    RunKeepsInv(start, events);
  }

  ghost predicate Finished(s: System, run: string) {
    run in s.rows && s.rows[run].status.Succeeded? && s.rows[run].result.Some?
  }

  predicate IsChargedFor(s: System, run: string, id: string) {
    id in s.costs && s.costs[id] == run
  }

  // Every succeeded run is charged for exactly one provider event, its own, and an unfinished one for none.
  ghost predicate AllChargedOnce(s: System) {
    forall run, id :: run in s.rows ==>
      (IsChargedFor(s, run, id) <==> Finished(s, run) && s.rows[run].result.value.eventId == id)
  }

  // No two succeeded runs have results with the same provider event.
  ghost predicate NoSharedEvent(s: System) {
    forall a, b :: Finished(s, a) && Finished(s, b)
                   && s.rows[a].result.value.eventId == s.rows[b].result.value.eventId
      ==> a == b
  }

  // In every run of the system all runs are charged like that exactly when no two share a provider event.
  lemma ChargedOnceIffNoneShared(start: System, events: seq<Event>)
    requires Starting(start)
    ensures AllChargedOnce(Run(start, events)) <==> NoSharedEvent(Run(start, events))
  {
    RunKeepsInv(start, events);
    var s := Run(start, events);
    if NoSharedEvent(s) {
      forall run, id | run in s.rows
        ensures IsChargedFor(s, run, id) <==> Finished(s, run) && s.rows[run].result.value.eventId == id
      {
        if id in s.costs { assert Finished(s, s.costs[id]); }
      }
    } else {
      var a, b :| Finished(s, a) && Finished(s, b) && a != b
                  && s.rows[a].result.value.eventId == s.rows[b].result.value.eventId;
      var id := s.rows[a].result.value.eventId;
      assert !(IsChargedFor(s, a, id) && IsChargedFor(s, b, id));
    }
  }

  // Providers never give two keys the same event id.
  ghost predicate DistinctIds(applied: map<Slot, string>) {
    forall a, b :: a in applied && b in applied && applied[a] == applied[b] ==> a == b
  }

  // Providers that tell their events apart see to that.
  lemma DistinctIdsAreNotShared(start: System, events: seq<Event>)
    requires Starting(start) && DistinctIds(Run(start, events).applied)
    ensures NoSharedEvent(Run(start, events))
  {
    RunKeepsInv(start, events);
    RunKeepsAgreement(start, events);
    var s := Run(start, events);
    forall a, b | Finished(s, a) && Finished(s, b)
                  && s.rows[a].result.value.eventId == s.rows[b].result.value.eventId
      ensures a == b
    {
      var p, q := s.rows[a].result.value, s.rows[b].result.value;
      assert Served(s.applied, p) && Served(s.applied, q);
      SameKeyIffSameCall(start, events, p, q);
    }
  }

  // --- a run that goes uncharged ---

  // One execution does all of a run, and the provider answers with event id `id`.
  function InOneGo(x: nat, run: string, id: string): seq<Event> {
    [Claim(x, run, "f", "w", 60), Register(x), CallProvider(x, "p", Whole, id, false), Complete(x)]
  }

  ghost predicate NoneRunning(s: System) {
    forall r :: r in s.rows ==> !s.rows[r].status.Running?
  }

  ghost predicate Ready(s: System, x: nat, run: string) {
    && x !in s.executions && run in s.rows && s.rows[run].status.Queued? && s.rows[run].availableAt <= s.now
    && !s.rows[run].retryScheduled && RunKey(run) !in s.ledger && Slot("p", CallKey(run, Whole)) !in s.applied
    && NoneRunning(s)
  }

  lemma RunInOneGo(s: System, x: nat, run: string, id: string)
    ensures Run(s, InOneGo(x, run, id))
         == Step(Step(Step(Step(s, Claim(x, run, "f", "w", 60)), Register(x)),
                      CallProvider(x, "p", Whole, id, false)), Complete(x))
  {
    RunFour(s, Claim(x, run, "f", "w", 60), Register(x), CallProvider(x, "p", Whole, id, false), Complete(x));
  }

  lemma ClaimAndRegister(s: System, x: nat, run: string)
    requires Ready(s, x, run)
    ensures var t := Step(Step(s, Claim(x, run, "f", "w", 60)), Register(x));
            && t.executions == s.executions[x := Execution(run, s.rows[run].attempt, "f", "w", Registered)]
            && t.rows == s.rows[run := ClaimedRow(s.rows[run], "w", 60, s.now)] && t.now == s.now
            && t.ledger == s.ledger[RunKey(run) := Entry(run, "f")]
            && t.applied == s.applied && t.costs == s.costs
  {
    assert GiveUpAll(s.rows, s.now) == s.rows;
  }

  lemma CallAndComplete(t: System, x: nat, run: string, id: string)
    requires Active(t, x) && Holder(t, x) && t.executions[x].run == run && t.executions[x].phase.Registered?
    requires HasRegistered(t, run) && Slot("p", CallKey(run, Whole)) !in t.applied
    ensures var u := Step(Step(t, CallProvider(x, "p", Whole, id, false)), Complete(x));
            && Finished(u, run) && u.rows[run].result.value.eventId == id
            && u.rows == t.rows[run := u.rows[run]] && u.now == t.now && u.ledger == t.ledger
            && u.applied == t.applied[Slot("p", CallKey(run, Whole)) := id]
            && u.costs == (if id in t.costs then t.costs else t.costs[id := run])
            && u.executions.Keys == t.executions.Keys
  {
    var called := Step(t, CallProvider(x, "p", Whole, id, false));
    assert Completes(called, x) && called.rows == t.rows;
    WhatCompletionDoes(called, x);
  }

  lemma DoesTheRun(s: System, x: nat, run: string, id: string)
    requires Ready(s, x, run)
    ensures var u := Run(s, InOneGo(x, run, id));
            && Finished(u, run) && u.rows[run].result.value.eventId == id
            && u.rows == s.rows[run := u.rows[run]] && u.now == s.now
            && u.ledger == s.ledger[RunKey(run) := Entry(run, "f")]
            && u.applied == s.applied[Slot("p", CallKey(run, Whole)) := id]
            && u.costs == (if id in s.costs then s.costs else s.costs[id := run])
            && u.executions.Keys == s.executions.Keys + {x}
  {
    var t := Step(Step(s, Claim(x, run, "f", "w", 60)), Register(x));
    RunInOneGo(s, x, run, id);
    ClaimAndRegister(s, x, run);
    CallAndComplete(t, x, run, id);
    OneAfterTheOther(s, t, Run(s, InOneGo(x, run, id)), x, run, id);
  }

  lemma OneAfterTheOther(s: System, t: System, u: System, x: nat, run: string, id: string)
    requires Finished(u, run) && run in s.rows && u.rows == t.rows[run := u.rows[run]]
    requires t.rows == s.rows[run := ClaimedRow(s.rows[run], "w", 60, s.now)]
    requires u.executions.Keys == t.executions.Keys
    requires t.executions == s.executions[x := Execution(run, s.rows[run].attempt, "f", "w", Registered)]
    ensures u.rows == s.rows[run := u.rows[run]] && u.executions.Keys == s.executions.Keys + {x}
  {
  }

  const TWO_RUNS := System(map["a" := QUEUED, "b" := QUEUED], 0, map[], map[], [], map[], map[])

  lemma NotAllCharged(s: System, a: string, b: string, id: string)
    requires Finished(s, b) && s.rows[b].result.value.eventId == id && id in s.costs && s.costs[id] == a != b
    ensures !AllChargedOnce(s)
  {
    assert !IsChargedFor(s, b, id);
  }

  // A provider that gives both runs the same event id: both succeed, and only the first is charged.
  lemma SharedEventGoesUncharged(id: string)
    ensures Starting(TWO_RUNS)
    ensures var s := Run(TWO_RUNS, InOneGo(0, "a", id) + InOneGo(1, "b", id));
            Finished(s, "a") && Finished(s, "b") && s.costs == map[id := "a"] && !AllChargedOnce(s)
  {
    DoesTheRun(TWO_RUNS, 0, "a", id);
    var s := Run(TWO_RUNS, InOneGo(0, "a", id));
    if RunKey("a") == RunKey("b") { RunKeyIsInjective("a", "b"); }
    KeysNeverCollide("a", Whole, "b", Whole);
    assert Ready(s, 1, "b");
    DoesTheRun(s, 1, "b", id);
    RunConcat(TWO_RUNS, InOneGo(0, "a", id), InOneGo(1, "b", id));
    NotAllCharged(Run(s, InOneGo(1, "b", id)), "a", "b", id);
  }
}
