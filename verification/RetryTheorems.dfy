/** What the retry protocol guarantees over every run of the system. */
module RetryTheorems {
  import opened RetryRun

  predicate Wellformed(runs: map<int, Row>) {
    && (forall i, j :: i in runs && j in runs && runs[i].org == runs[j].org && runs[i].key == runs[j].key ==> i == j)
    && (forall i :: i in runs ==> runs[i].born <= runs[i].attempt)
  }

  function Start(runs: map<int, Row>): System {
    System(runs, map[])
  }

  lemma {:induction false} RunKeepsInv(runs: map<int, Row>, events: seq<Event>)
    requires Wellformed(runs)
    ensures Inv(Run(Start(runs), events))
  {
    if events != [] {
      RunKeepsInv(runs, events[..|events| - 1]);
      StepKeepsInv(Run(Start(runs), events[..|events| - 1]), events[|events| - 1]);
    }
  }

  // Two callers that retried the same run at the same attempt got the same new run, whose key names that retry.
  lemma SameAttemptSameRun(runs: map<int, Row>, events: seq<Event>, c: nat, d: nat)
    requires Wellformed(runs)
    requires var s := Run(Start(runs), events); c in s.callers && d in s.callers
    requires var s := Run(Start(runs), events);
             && s.callers[c].pc.Returned? && s.callers[d].pc.Returned?
             && s.callers[c].org == s.callers[d].org && s.callers[c].run == s.callers[d].run
             && s.callers[c].pc.attempt == s.callers[d].pc.attempt
    ensures var s := Run(Start(runs), events);
            && s.callers[c].pc.id == s.callers[d].pc.id
            && Holds(s.runs, s.callers[c].pc.id, s.callers[c].org, Retry(s.callers[c].run, s.callers[c].pc.attempt + 1))
  {
    RunKeepsInv(runs, events);
    var s := Run(Start(runs), events);
    assert CallerOk(s, s.callers[c]) && CallerOk(s, s.callers[d]);
  }

  // --- a run whose attempt number nobody changes ---

  ghost predicate NeverReattempted(events: seq<Event>, run: int, attempt: nat) {
    forall i :: 0 <= i < |events| && events[i].Touch? && events[i].run == run ==> events[i].attempt == attempt
  }

  predicate Knows(pc: Pc) {
    !pc.Entered? && !pc.Locked? && !pc.Refused?
  }

  ghost predicate Steady(s: System, run: int, attempt: nat) {
    && run in s.runs && s.runs[run].attempt == attempt
    && forall c :: c in s.callers && s.callers[c].run == run && Knows(s.callers[c].pc) ==>
        s.callers[c].pc.attempt == attempt
  }

  lemma {:induction false} RunStaysSteady(runs: map<int, Row>, events: seq<Event>, run: int, attempt: nat)
    requires Wellformed(runs) && run in runs && runs[run].attempt == attempt && NeverReattempted(events, run, attempt)
    ensures Steady(Run(Start(runs), events), run, attempt)
  {
    if events != [] {
      RunStaysSteady(runs, events[..|events| - 1], run, attempt);
      RunKeepsInv(runs, events[..|events| - 1]);
      StepStaysSteady(Run(Start(runs), events[..|events| - 1]), events[|events| - 1], run, attempt);
    }
  }

  lemma StepStaysSteady(s: System, e: Event, run: int, attempt: nat)
    requires Inv(s) && Steady(s, run, attempt)
    requires e.Touch? && e.run == run ==> e.attempt == attempt
    ensures Steady(Step(s, e), run, attempt)
  {
    if e.Advance? && e.c in s.callers {
      assert CallerOk(s, s.callers[e.c]);
    }
  }

  // However many callers retry it and however they interleave, they all get one and the same new run.
  lemma AllCallersGetOneRun(runs: map<int, Row>, events: seq<Event>, run: int, c: nat, d: nat)
    requires Wellformed(runs) && run in runs && NeverReattempted(events, run, runs[run].attempt)
    requires var s := Run(Start(runs), events); c in s.callers && d in s.callers
    requires var s := Run(Start(runs), events);
             && s.callers[c].pc.Returned? && s.callers[d].pc.Returned?
             && s.callers[c].run == run && s.callers[d].run == run && s.callers[c].org == s.callers[d].org
    ensures var s := Run(Start(runs), events); s.callers[c].pc.id == s.callers[d].pc.id
  {
    RunStaysSteady(runs, events, run, runs[run].attempt);
    SameAttemptSameRun(runs, events, c, d);
  }

  // --- when only the retry protocol writes retry keys ---

  ghost predicate OnlyPlainForeigners(events: seq<Event>) {
    forall i :: 0 <= i < |events| && events[i].Foreign? ==> events[i].row.key.Plain?
  }

  ghost predicate AllPlain(runs: map<int, Row>) {
    forall i :: i in runs ==> runs[i].key.Plain?
  }

  // Every retry was born one generation after its parent, within the parent's limit.
  ghost predicate ChildOk(runs: map<int, Row>, i: int)
    requires i in runs
  {
    runs[i].key.Retry? ==>
      var p := runs[i].key.run;
      && p in runs && runs[p].org == runs[i].org && runs[p].maxAttempts == runs[i].maxAttempts
        && runs[p].task == runs[i].task
      && runs[p].born < runs[i].born == runs[i].key.attempt <= runs[i].maxAttempts
  }

  // A caller about to insert is sure that its key is free, so the unique-violation handler is never entered.
  ghost predicate KeyFree(runs: map<int, Row>, org: int, key: RunKey) {
    forall i :: i in runs ==> runs[i].org != org || runs[i].key != key
  }

  lemma NotFoundIsFree(runs: map<int, Row>, org: int, key: RunKey)
    requires Find(runs, org, key).None?
    ensures KeyFree(runs, org, key)
  {
    forall i | i in runs ensures runs[i].org != org || runs[i].key != key {
      assert !Holds(runs, i, org, key);
    }
  }

  ghost predicate Undisputed(s: System, c: Caller) {
    && !c.pc.Conflicted?
    && (c.pc.Inserting? ==> KeyFree(s.runs, c.org, Retry(c.run, c.pc.attempt + 1)))
  }

  ghost predicate Lineage(s: System) {
    && (forall i :: i in s.runs ==> ChildOk(s.runs, i))
    && (forall c :: c in s.callers ==> Undisputed(s, s.callers[c]))
  }

  lemma CommitKeepsLineage(s: System, c: nat)
    requires Inv(s) && Lineage(s) && c in s.callers && s.callers[c].pc.Inserted?
    ensures Lineage(Step(s, Advance(c, true, 0)))
  {
    var t := Step(s, Advance(c, true, 0));
    assert CallerOk(s, s.callers[c]);
    var pc := s.callers[c].pc;
    assert t.runs == s.runs[pc.id := pc.row];
    forall i | i in t.runs ensures ChildOk(t.runs, i) {
      if i in s.runs { assert ChildOk(s.runs, i); }
    }
    forall d | d in t.callers ensures Undisputed(t, t.callers[d]) {
      if d != c {
        assert Undisputed(s, s.callers[d]) && CallerOk(s, s.callers[d]);
      }
    }
  }

  lemma StepKeepsChildren(s: System, e: Event)
    requires Lineage(s) && (e.Foreign? ==> e.row.key.Plain?)
             && !(e.Advance? && e.c in s.callers && s.callers[e.c].pc.Inserted?)
    ensures forall i :: i in Step(s, e).runs ==> ChildOk(Step(s, e).runs, i)
  {
    var t := Step(s, e);
    forall i | i in t.runs ensures ChildOk(t.runs, i) {
      if i in s.runs { assert ChildOk(s.runs, i); }
    }
  }

  // Without a commit of a retry, a key that was free stays free.
  lemma StepKeepsFree(s: System, e: Event, org: int, key: RunKey)
    requires KeyFree(s.runs, org, key) && key.Retry?
    requires (e.Foreign? ==> e.row.key.Plain?) && !(e.Advance? && e.c in s.callers && s.callers[e.c].pc.Inserted?)
    ensures KeyFree(Step(s, e).runs, org, key)
  {
  }

  lemma StepKeepsUndisputed(s: System, e: Event, d: nat)
    requires Lineage(s) && d in Step(s, e).callers
    requires (e.Foreign? ==> e.row.key.Plain?) && !(e.Advance? && e.c in s.callers && s.callers[e.c].pc.Inserted?)
    ensures Undisputed(Step(s, e), Step(s, e).callers[d])
  {
    if d in s.callers {
      var c := s.callers[d];
      assert Undisputed(s, c);
      if Step(s, e).callers[d].pc.Inserting? {
        var key := Retry(c.run, c.pc.attempt + 1);
        if c.pc.Rechecked? { NotFoundIsFree(s.runs, c.org, key); }
        StepKeepsFree(s, e, c.org, key);
      } else if e.Advance? && e.c == d && c.pc.Inserting? {
        assert KeyFree(s.runs, c.org, Retry(c.run, c.pc.attempt + 1));
      }
    }
  }

  lemma StepKeepsLineage(s: System, e: Event)
    requires Inv(s) && Lineage(s) && (e.Foreign? ==> e.row.key.Plain?)
    ensures Lineage(Step(s, e))
  {
    if e.Advance? && e.c in s.callers && s.callers[e.c].pc.Inserted? {
      CommitKeepsLineage(s, e.c);
    } else {
      StepKeepsChildren(s, e);
      forall d | d in Step(s, e).callers ensures Undisputed(Step(s, e), Step(s, e).callers[d]) {
        StepKeepsUndisputed(s, e, d);
      }
    }
  }

  lemma {:induction false} RunKeepsLineage(runs: map<int, Row>, events: seq<Event>)
    requires Wellformed(runs) && AllPlain(runs) && OnlyPlainForeigners(events)
    ensures Lineage(Run(Start(runs), events))
  {
    if events != [] {
      RunKeepsLineage(runs, events[..|events| - 1]);
      RunKeepsInv(runs, events[..|events| - 1]);
      StepKeepsLineage(Run(Start(runs), events[..|events| - 1]), events[|events| - 1]);
    }
  }

  // The advisory lock makes the unique-violation handler dead code.
  lemma HandlerIsUnreachable(runs: map<int, Row>, events: seq<Event>, c: nat)
    requires Wellformed(runs) && AllPlain(runs) && OnlyPlainForeigners(events)
    requires c in Run(Start(runs), events).callers
    ensures !Run(Start(runs), events).callers[c].pc.Conflicted?
  {
    RunKeepsLineage(runs, events);
    assert Undisputed(Run(Start(runs), events), Run(Start(runs), events).callers[c]);
  }

  // Each run in the chain is a retry of the one before it.
  ghost predicate IsChain(runs: map<int, Row>, chain: seq<int>) {
    && chain != []
    && (forall i :: 0 <= i < |chain| ==> chain[i] in runs)
    && (forall i :: 0 < i < |chain| ==> runs[chain[i]].key.Retry? && runs[chain[i]].key.run == chain[i - 1])
  }

  lemma {:induction false} GenerationsGrow(s: System, chain: seq<int>)
    requires Lineage(s) && IsChain(s.runs, chain)
    ensures s.runs[chain[|chain| - 1]].born >= s.runs[chain[0]].born + |chain| - 1
    ensures s.runs[chain[|chain| - 1]].maxAttempts == s.runs[chain[0]].maxAttempts
  {
    if |chain| > 1 {
      var init := chain[..|chain| - 1];
      assert forall i :: 0 <= i < |init| ==> init[i] == chain[i];
      GenerationsGrow(s, init);
      assert ChildOk(s.runs, chain[|chain| - 1]);
    }
  }

  // A run can be retried, and its retries retried, at most as often as its limit leaves room for.
  lemma RetryChainIsBounded(runs: map<int, Row>, events: seq<Event>, chain: seq<int>)
    requires Wellformed(runs) && AllPlain(runs) && OnlyPlainForeigners(events)
    requires IsChain(Run(Start(runs), events).runs, chain) && |chain| > 1
    ensures var s := Run(Start(runs), events);
            |chain| - 1 <= s.runs[chain[0]].maxAttempts - s.runs[chain[0]].born
  {
    var s := Run(Start(runs), events);
    RunKeepsLineage(runs, events);
    GenerationsGrow(s, chain);
    assert ChildOk(s.runs, chain[|chain| - 1]);
  }
}
