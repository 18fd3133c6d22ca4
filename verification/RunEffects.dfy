/** What the stable key gives: however often a run is executed, each of its calls has one effect, and everything
    sent under its keys was given the same thing to do. */
module RunEffects {
  import opened Common
  import opened EffectKeys
  import opened RunLease

  function SlotOf(q: Request): Slot {
    Slot(q.provider, q.key)
  }

  // --- what the providers have seen ---

  ghost predicate Served(applied: map<Slot, string>, q: Request) {
    && InRange(q.call) && q.key == CallKey(q.run, q.call)
    && SlotOf(q) in applied && applied[SlotOf(q)] == q.eventId
  }

  // The log and the providers' memories agree: every request carried its call's key and was answered with
  // what that key is remembered for, and nothing else is remembered.
  ghost predicate Agree(requests: seq<Request>, applied: map<Slot, string>) {
    && (forall q :: q in requests ==> Served(applied, q))
    && (forall slot :: slot in applied ==> exists q :: q in requests && SlotOf(q) == slot)
  }

  lemma OneMoreRequest(requests: seq<Request>, applied: map<Slot, string>, q: Request)
    requires Agree(requests, applied) && InRange(q.call) && q.key == CallKey(q.run, q.call)
    requires SlotOf(q) in applied ==> applied[SlotOf(q)] == q.eventId
    ensures Agree(requests + [q], applied[SlotOf(q) := q.eventId])
  {
    var more, after := requests + [q], applied[SlotOf(q) := q.eventId];
    forall p | p in more ensures Served(after, p) {
      if p in requests { assert Served(applied, p); }
    }
    forall slot | slot in after ensures exists p :: p in more && SlotOf(p) == slot {
      if slot == SlotOf(q) {
        assert q in more;
      } else {
        var p :| p in requests && SlotOf(p) == slot;
        assert p in more;
      }
    }
  }

  ghost predicate LedgerIsOwn(ledger: map<string, Entry>) {
    forall key :: key in ledger ==> key == RunKey(ledger[key].run)
  }

  lemma OtherStepsKeepLog(s: System, e: Event)
    ensures !e.CallProvider? ==> Step(s, e).requests == s.requests && Step(s, e).applied == s.applied
    ensures !e.Register? ==> Step(s, e).ledger == s.ledger
  {
    if !e.CallProvider? { OtherStepsSendNothing(s, e); }
    if !e.Register? { OtherStepsRegisterNothing(s, e); }
  }

  lemma OtherStepsSendNothing(s: System, e: Event)
    requires !e.CallProvider?
    ensures Step(s, e).requests == s.requests && Step(s, e).applied == s.applied
  {
  }

  lemma OtherStepsRegisterNothing(s: System, e: Event)
    requires !e.Register?
    ensures Step(s, e).ledger == s.ledger
  {
  }

  lemma StepKeepsAgreement(s: System, e: Event)
    requires Agree(s.requests, s.applied)
    ensures Agree(Step(s, e).requests, Step(s, e).applied)
  {
    OtherStepsKeepLog(s, e);
    if e.CallProvider? && Active(s, e.x) && MayCall(s, e.x, e.call) {
      OneMoreRequest(s.requests, s.applied, RequestOf(s, e.x, e.provider, e.call, e.freshId));
    }
  }

  lemma StepKeepsLedger(s: System, e: Event)
    requires LedgerIsOwn(s.ledger)
    ensures LedgerIsOwn(Step(s, e).ledger)
  {
    OtherStepsKeepLog(s, e);
  }

  lemma {:induction false} RunKeepsAgreement(start: System, events: seq<Event>)
    requires Starting(start)
    ensures Agree(Run(start, events).requests, Run(start, events).applied) && LedgerIsOwn(Run(start, events).ledger)
  {
    if events != [] {
      RunKeepsAgreement(start, events[..|events| - 1]);
      StepKeepsAgreement(Run(start, events[..|events| - 1]), events[|events| - 1]);
      StepKeepsLedger(Run(start, events[..|events| - 1]), events[|events| - 1]);
    }
  }

  // Requests carry the same key exactly when they are the same call of the same run, whatever their attempts;
  // and then a provider gives them the same answer.
  lemma SameKeyIffSameCall(start: System, events: seq<Event>, p: Request, q: Request)
    requires Starting(start) && p in Run(start, events).requests && q in Run(start, events).requests
    ensures p.key == q.key <==> p.run == q.run && p.call == q.call
    ensures p.run == q.run && p.call == q.call && p.provider == q.provider ==> p.eventId == q.eventId
  {
    RunKeepsAgreement(start, events);
    assert Served(Run(start, events).applied, p) && Served(Run(start, events).applied, q);
    KeysNeverCollide(p.run, p.call, q.run, q.call);
  }

  // --- registration comes first ---

  // Whoever may call has registered its run's key with its fingerprint, and so had whoever has called.
  ghost predicate LedgerFirst(s: System) {
    && (forall q :: q in s.requests ==> IsRegistered(s, Entry(q.run, q.fingerprint)))
    && (forall x :: x in s.executions && (s.executions[x].phase.Registered? || s.executions[x].phase.Answered?)
          ==> IsRegistered(s, EntryOf(s.executions[x])))
  }

  ghost predicate IsRegistered(s: System, entry: Entry) {
    RunKey(entry.run) in s.ledger && s.ledger[RunKey(entry.run)] == entry
  }

  lemma RegisteredStays(s: System, e: Event, entry: Entry)
    requires LedgerIsOwn(s.ledger) && IsRegistered(s, entry)
    ensures IsRegistered(Step(s, e), entry)
  {
    if e.Register? && Active(s, e.x) && Registers(s, e.x) {
      if RunKey(s.executions[e.x].run) == RunKey(entry.run) { RunKeyIsInjective(s.executions[e.x].run, entry.run); }
    } else if !e.Register? {
      OtherStepsKeepLog(s, e);
    }
  }

  // A step that lets an execution call either registers or finds it could call before.
  lemma WhoMayCall(s: System, e: Event, x: nat)
    requires LedgerFirst(s) && x in Step(s, e).executions
    requires Step(s, e).executions[x].phase.Registered? || Step(s, e).executions[x].phase.Answered?
    ensures x in s.executions && EntryOf(Step(s, e).executions[x]) == EntryOf(s.executions[x])
    ensures IsRegistered(s, EntryOf(s.executions[x])) || IsRegistered(Step(s, e), EntryOf(s.executions[x]))
  {
    StepsExecutions(s, e, x);
  }

  lemma NewRequest(s: System, e: Event, q: Request)
    requires LedgerFirst(s) && q in Step(s, e).requests && q !in s.requests
    ensures IsRegistered(s, Entry(q.run, q.fingerprint))
  {
    OtherStepsKeepLog(s, e);
  }

  lemma StepKeepsLedgerFirst(s: System, e: Event)
    requires LedgerFirst(s) && LedgerIsOwn(s.ledger)
    ensures LedgerFirst(Step(s, e))
  {
    var t := Step(s, e);
    forall q | q in t.requests ensures IsRegistered(t, Entry(q.run, q.fingerprint)) {
      if q !in s.requests { NewRequest(s, e, q); }
      RegisteredStays(s, e, Entry(q.run, q.fingerprint));
    }
    forall x | x in t.executions && (t.executions[x].phase.Registered? || t.executions[x].phase.Answered?)
      ensures IsRegistered(t, EntryOf(t.executions[x]))
    {
      WhoMayCall(s, e, x);
      if IsRegistered(s, EntryOf(s.executions[x])) { RegisteredStays(s, e, EntryOf(s.executions[x])); }
    }
  }

  // No provider is called for a run before its key is in the ledger, with the fingerprint of the caller.
  lemma {:induction false} RegisteredBeforeCalls(start: System, events: seq<Event>)
    requires Starting(start)
    ensures LedgerFirst(Run(start, events))
  {
    if events != [] {
      RegisteredBeforeCalls(start, events[..|events| - 1]);
      RunKeepsAgreement(start, events[..|events| - 1]);
      StepKeepsLedgerFirst(Run(start, events[..|events| - 1]), events[|events| - 1]);
    }
  }

  // So a completion never fails for want of the registration.
  lemma AnswersAreRegistered(start: System, events: seq<Event>, x: nat)
    requires Starting(start)
    requires var s := Run(start, events); x in s.executions && s.executions[x].phase.Answered?
    ensures HasRegistered(Run(start, events), Run(start, events).executions[x].run)
  {
    RegisteredBeforeCalls(start, events);
    var s := Run(start, events);
    assert IsRegistered(s, EntryOf(s.executions[x]));
  }

  // So whatever was ever sent under a run's keys came from executions that were given the same thing to do.
  lemma OneFingerprintPerRun(start: System, events: seq<Event>, p: Request, q: Request)
    requires Starting(start) && p in Run(start, events).requests && q in Run(start, events).requests
    requires p.run == q.run || p.key == q.key
    ensures p.run == q.run && p.fingerprint == q.fingerprint
  {
    RegisteredBeforeCalls(start, events);
    SameKeyIffSameCall(start, events, p, q);
    var s := Run(start, events);
    assert IsRegistered(s, Entry(p.run, p.fingerprint)) && IsRegistered(s, Entry(q.run, q.fingerprint));
  }

  // An execution that holds the lease gets through exactly if its run has not registered yet, or has with the
  // same fingerprint; keys of other runs never stand in its way.
  lemma RegistersIffUnchanged(start: System, events: seq<Event>, x: nat)
    requires Starting(start)
    requires var s := Run(start, events); Active(s, x) && s.executions[x].phase.Claimed? && Holder(s, x)
    ensures var s := Run(start, events);
            var key := RunKey(s.executions[x].run);
            Step(s, Register(x)).executions[x].phase.Registered? <==>
            (key in s.ledger ==> s.ledger[key].fingerprint == s.executions[x].fingerprint)
  {
    RunKeepsAgreement(start, events);
    var s := Run(start, events);
    var run := s.executions[x].run;
    if RunKey(run) in s.ledger { RunKeyIsInjective(run, s.ledger[RunKey(run)].run); }
  }

  lemma {:induction false} EntryStays(s: System, more: seq<Event>, entry: Entry)
    requires LedgerIsOwn(s.ledger) && IsRegistered(s, entry)
    ensures LedgerIsOwn(Run(s, more).ledger) && IsRegistered(Run(s, more), entry)
  {
    if more != [] {
      var t := Run(s, more[..|more| - 1]);
      EntryStays(s, more[..|more| - 1], entry);
      StepKeepsLedger(t, more[|more| - 1]);
      RegisteredStays(t, more[|more| - 1], entry);
    }
  }

  // What a run registered first it keeps for good.
  lemma FirstFingerprintStays(start: System, past: seq<Event>, more: seq<Event>, entry: Entry)
    requires Starting(start) && IsRegistered(Run(start, past), entry)
    ensures IsRegistered(Run(start, past + more), entry)
  {
    RunKeepsAgreement(start, past);
    EntryStays(Run(start, past), more, entry);
    RunConcat(start, past, more);
  }

  const QUEUED := Row(Queued, false, 1, 3, 60, "", 0, 0, 0, 0, None)
  const ONE_RUN := System(map["r" := QUEUED], 0, map[], map[], [], map[], map[])

  // A run is claimed and registered with fingerprint f; then it fails, and after its delay it is claimed again.
  function FailedOnce(f: string, g: string): seq<Event> {
    [Claim(0, "r", f, "w", 60), Register(0), Fail(0), Tick(60), Claim(1, "r", g, "w", 60)]
  }

  // If what it is given to do has changed in between, as when one of its skills was disabled, the second attempt
  // holds the lease and cannot register.
  lemma AChangedRunCannotRegister(f: string, g: string)
    requires f != g
    ensures Starting(ONE_RUN)
    ensures var s := Run(ONE_RUN, FailedOnce(f, g));
            && Active(s, 1) && s.executions[1].phase.Claimed? && Holder(s, 1)
            && Step(s, Register(1)).executions[1].phase.Broken?
  {
    AfterFailing(f);
    var events := FailedOnce(f, g);
    assert events[..4] == [Claim(0, "r", f, "w", 60), Register(0), Fail(0), Tick(60)];
  }

  lemma AfterFailing(f: string)
    ensures var s := Run(ONE_RUN, [Claim(0, "r", f, "w", 60), Register(0), Fail(0), Tick(60)]);
            && s.now == 60 && s.executions.Keys == {0} && s.rows.Keys == {"r"}
            && s.ledger == map[RunKey("r") := Entry("r", f)]
            && s.rows["r"].status.Queued? && s.rows["r"].retryScheduled && s.rows["r"].availableAt == 60
            && s.rows["r"].attempt == 1 && s.rows["r"].maxAttempts == 3
  {
    RunFour(ONE_RUN, Claim(0, "r", f, "w", 60), Register(0), Fail(0), Tick(60));
    Registering(f);
    Failing(f);
  }

  lemma Registering(f: string)
    ensures var s := Step(Step(ONE_RUN, Claim(0, "r", f, "w", 60)), Register(0));
            && s.executions == map[0 := Execution("r", 1, f, "w", Registered)] && s.now == 0
            && s.rows == map["r" := ClaimedRow(QUEUED, "w", 60, 0)] && s.ledger == map[RunKey("r") := Entry("r", f)]
  {
    assert GiveUpAll(ONE_RUN.rows, 0) == ONE_RUN.rows;
    assert Step(ONE_RUN, Claim(0, "r", f, "w", 60)).rows == map["r" := ClaimedRow(QUEUED, "w", 60, 0)];
  }

  lemma Failing(f: string)
    requires var s := Step(Step(ONE_RUN, Claim(0, "r", f, "w", 60)), Register(0));
             && s.executions == map[0 := Execution("r", 1, f, "w", Registered)] && s.now == 0
             && s.rows == map["r" := ClaimedRow(QUEUED, "w", 60, 0)]
    ensures var s := Step(Step(ONE_RUN, Claim(0, "r", f, "w", 60)), Register(0));
            var t := Step(s, Fail(0));
            && t.rows == map["r" := FailedRow(ClaimedRow(QUEUED, "w", 60, 0), 0)]
            && t.executions.Keys == {0} && t.now == 0 && t.ledger == s.ledger
            && RetryDelay(ClaimedRow(QUEUED, "w", 60, 0)) == 60
  {
    var s := Step(Step(ONE_RUN, Claim(0, "r", f, "w", 60)), Register(0));
    assert Holder(s, 0) && Active(s, 0);
  }

  // --- how many effects a run has ---

  ghost function CallsOf(s: System, provider: string, run: string): set<Call> {
    set q | q in s.requests && q.provider == provider && q.run == run :: q.call
  }

  // The effects that a provider has applied for requests of the run.
  ghost function EffectsOf(s: System, provider: string, run: string): set<Slot> {
    set q | q in s.requests && q.provider == provider && q.run == run :: SlotOf(q)
  }

  ghost predicate AllInRange(calls: set<Call>) {
    forall c :: c in calls ==> InRange(c)
  }

  ghost function SlotsOf(provider: string, run: string, calls: set<Call>): set<Slot>
    requires AllInRange(calls)
  {
    set c | c in calls :: Slot(provider, CallKey(run, c))
  }

  lemma {:induction false} AsManySlots(provider: string, run: string, calls: set<Call>)
    requires AllInRange(calls)
    ensures |SlotsOf(provider, run, calls)| == |calls|
  {
    if calls != {} {
      var c :| c in calls;
      var fewer := calls - {c};
      AsManySlots(provider, run, fewer);
      var slot := Slot(provider, CallKey(run, c));
      forall d | d in fewer ensures Slot(provider, CallKey(run, d)) != slot {
        KeysNeverCollide(run, c, run, d);
      }
      assert SlotsOf(provider, run, calls) == SlotsOf(provider, run, fewer) + {slot};
    }
  }

  lemma EffectsAreSlots(s: System, provider: string, run: string)
    requires Agree(s.requests, s.applied)
    ensures AllInRange(CallsOf(s, provider, run))
    ensures EffectsOf(s, provider, run) == SlotsOf(provider, run, CallsOf(s, provider, run))
    ensures forall slot :: slot in EffectsOf(s, provider, run) ==> slot in s.applied
  {
    forall q | q in s.requests && q.provider == provider && q.run == run
      ensures InRange(q.call) && SlotOf(q) == Slot(provider, CallKey(run, q.call)) && SlotOf(q) in s.applied
    {
      assert Served(s.applied, q);
    }
    var calls := CallsOf(s, provider, run);
    forall c | c in calls ensures InRange(c) && Slot(provider, CallKey(run, c)) in EffectsOf(s, provider, run) {
      var q :| q in s.requests && q.provider == provider && q.run == run && q.call == c;
      assert SlotOf(q) in EffectsOf(s, provider, run);
    }
  }

  // A run has exactly one effect at a provider for each of its calls there, however many attempts made them.
  lemma OneEffectPerCall(start: System, events: seq<Event>, provider: string, run: string)
    requires Starting(start)
    ensures var s := Run(start, events);
            |EffectsOf(s, provider, run)| == |CallsOf(s, provider, run)|
  {
    RunKeepsAgreement(start, events);
    EffectsAreSlots(Run(start, events), provider, run);
    AsManySlots(provider, run, CallsOf(Run(start, events), provider, run));
  }

  // Every effect belongs to one run: it was applied for it, and for no other.
  lemma EffectsBelongToOneRun(start: System, events: seq<Event>, slot: Slot)
    requires Starting(start) && slot in Run(start, events).applied
    ensures var s := Run(start, events);
            exists run :: slot in EffectsOf(s, slot.provider, run)
              && forall other :: slot in EffectsOf(s, slot.provider, other) ==> other == run
  {
    RunKeepsAgreement(start, events);
    var s := Run(start, events);
    var q :| q in s.requests && SlotOf(q) == slot;
    assert slot in EffectsOf(s, slot.provider, q.run);
    forall other | slot in EffectsOf(s, slot.provider, other) ensures other == q.run {
      var p :| p in s.requests && p.provider == slot.provider && p.run == other && SlotOf(p) == slot;
      SameKeyIffSameCall(start, events, p, q);
    }
  }

  // An executor with one call has one effect in all, and one with rounds at most one for each.
  lemma EffectsAreBounded(start: System, events: seq<Event>, provider: string, run: string)
    requires Starting(start)
    ensures var s := Run(start, events);
            && (CallsOf(s, provider, run) <= {Whole} ==> |EffectsOf(s, provider, run)| <= 1)
            && (Whole !in CallsOf(s, provider, run) ==> |EffectsOf(s, provider, run)| <= MAX_ROUNDS)
  {
    OneEffectPerCall(start, events, provider, run);
    RunKeepsAgreement(start, events);
    var calls := CallsOf(Run(start, events), provider, run);
    EffectsAreSlots(Run(start, events), provider, run);
    if calls <= {Whole} { Fewer(calls, {Whole}); }
    if Whole !in calls { RoundsOnly(calls); }
  }

  lemma RoundsOnly(calls: set<Call>)
    requires AllInRange(calls) && Whole !in calls
    ensures |calls| <= MAX_ROUNDS
  {
    var rounds := {Round(0), Round(1), Round(2), Round(3), Round(4)};
    forall c | c in calls ensures c in rounds {
      assert c == Round(c.index);
    }
    Fewer(calls, rounds);
  }

  lemma {:induction false} Fewer(a: set<Call>, b: set<Call>)
    requires a <= b
    ensures |a| <= |b|
  {
    assert b == a + (b - a);
  }
}
