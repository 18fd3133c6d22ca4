/** One dispatch: the loop of a worker over the runs it has claimed, one after the other, while other
    executions, the clock and the providers go on. */
module RunDispatch {
  import opened Common
  import opened EffectKeys
  import opened RunLease
  import opened RunCharges

  // The policy snapshot of a run; None when one of its values is not an integer.
  datatype Policy = Policy(timeout: int, maxAttempts: int, backoff: int)

  // How a job goes, as far as the worker does not decide it. `before`, `during` and `after` are what happens
  // up to the registration, from there to the end of the execution, and up to the completion; `finishes` is
  // false if the execution raises, is cancelled by its timeout or by a heartbeat that failed. A reply that is
  // lost raises in the worker, although the store may have done its part.
  datatype Job = Job(x: nat, policy: Option<Policy>, before: seq<Event>, registerReplyLost: bool, during: seq<Event>,
                     finishes: bool, after: seq<Event>, completeReplyLost: bool, failReaches: bool)

  predicate PolicyFits(policy: Option<Policy>, row: Row) {
    && policy.Some?
    && 1 <= policy.value.timeout <= 3600 && 1 <= policy.value.maxAttempts <= 11 && 1 <= policy.value.backoff <= 3600
    && policy.value.maxAttempts == row.maxAttempts && policy.value.backoff == row.backoff
  }

  // Others do not act on x.
  ghost predicate Elsewhere(events: seq<Event>, x: nat) {
    forall i :: 0 <= i < |events| ==> events[i].Tick? || events[i].x != x
  }

  // During its execution x calls providers and sends heartbeats.
  ghost predicate Executing(events: seq<Event>, x: nat) {
    forall i :: 0 <= i < |events| ==>
      events[i].Tick? || events[i].x != x || events[i].CallProvider? || events[i].Heartbeat?
  }

  ghost predicate OwnJob(job: Job) {
    Elsewhere(job.before, job.x) && Executing(job.during, job.x) && Elsewhere(job.after, job.x)
  }

  // No job of a dispatch is touched by what happens during the others.
  ghost predicate Apart(jobs: seq<Job>) {
    && (forall k :: 0 <= k < |jobs| ==> OwnJob(jobs[k]))
    && (forall k, l :: 0 <= k < |jobs| && 0 <= l < |jobs| && k != l ==>
          && jobs[k].x != jobs[l].x
          && Elsewhere(jobs[k].before, jobs[l].x) && Elsewhere(jobs[k].during, jobs[l].x)
          && Elsewhere(jobs[k].after, jobs[l].x))
  }

  ghost predicate Started(s: System, job: Job) {
    job.x in s.executions && s.executions[job.x].phase.Claimed? && s.executions[job.x].run in s.rows
  }

  lemma RunOne(s: System, a: seq<Event>, e: Event)
    ensures Run(s, a + [e]) == Step(Run(s, a), e)
  {
    assert (a + [e])[..|a + [e]| - 1] == a;
  }

  lemma {:induction false} ElsewhereKeeps(s: System, events: seq<Event>, x: nat)
    requires x in s.executions && Elsewhere(events, x)
    ensures x in Run(s, events).executions && Run(s, events).executions[x] == s.executions[x]
  {
    if events != [] {
      var init := events[..|events| - 1];
      assert forall i :: 0 <= i < |init| ==> init[i] == events[i];
      ElsewhereKeeps(s, init, x);
      StepsExecutions(Run(s, init), events[|events| - 1], x);
    }
  }

  // An execution that only calls and sends heartbeats neither ends nor is completed.
  lemma {:induction false} ExecutingKeeps(s: System, events: seq<Event>, x: nat)
    requires Active(s, x) && Executing(events, x)
    ensures Active(Run(s, events), x) && Run(s, events).executions[x].run == s.executions[x].run
  {
    if events != [] {
      var init := events[..|events| - 1];
      assert forall i :: 0 <= i < |init| ==> init[i] == events[i];
      ExecutingKeeps(s, init, x);
      StepsExecutions(Run(s, init), events[|events| - 1], x);
      OneOfItsOwn(Run(s, init), events[|events| - 1], x);
    }
  }

  lemma OneOfItsOwn(s: System, e: Event, x: nat)
    requires Active(s, x) && (e.Tick? || e.x != x || e.CallProvider? || e.Heartbeat?)
    ensures Active(Step(s, e), x)
  {
  }

  // Runs stay, with the limits of their policy.
  lemma {:induction false} RunsStay(s: System, events: seq<Event>, run: string)
    requires run in s.rows
    ensures run in Run(s, events).rows
    ensures Run(s, events).rows[run].maxAttempts == s.rows[run].maxAttempts
    ensures Run(s, events).rows[run].backoff == s.rows[run].backoff
  {
    if events != [] {
      var before := Run(s, events[..|events| - 1]);
      RunsStay(s, events[..|events| - 1], run);
      LimitsStay(before, events[|events| - 1], run);
    }
  }

  lemma LimitsStay(s: System, e: Event, run: string)
    requires run in s.rows
    ensures run in Step(s, e).rows && Step(s, e).rows[run].maxAttempts == s.rows[run].maxAttempts
    ensures Step(s, e).rows[run].backoff == s.rows[run].backoff
  {
    StepsRows(s, e, run);
  }

  // --- one job ---

  ghost predicate Untouched(job: Job, y: nat) {
    y != job.x && Elsewhere(job.before, y) && Elsewhere(job.during, y) && Elsewhere(job.after, y)
  }

  // The events act on no execution that the job leaves alone.
  ghost predicate Within(trace: seq<Event>, job: Job) {
    forall y :: Untouched(job, y) ==> Elsewhere(trace, y)
  }

  lemma WithinConcat(a: seq<Event>, b: seq<Event>, job: Job)
    requires Within(a, job) && Within(b, job)
    ensures Within(a + b, job)
  {
    forall y | Untouched(job, y) ensures Elsewhere(a + b, y) {
      assert Elsewhere(a, y) && Elsewhere(b, y);
    }
  }

  // What others do, and then a step of the job's own.
  lemma OthersThenStep(s: System, trace: seq<Event>, others: seq<Event>, e: Event, job: Job)
    requires OwnJob(job) && Within(trace, job) && job.x in Run(s, trace).executions
    requires (others == job.before || others == job.after) && !e.Tick? && e.x == job.x
    ensures var t := Run(Run(s, trace), others);
            && Run(s, trace + (others + [e])) == Step(t, e) && Within(trace + (others + [e]), job)
            && job.x in t.executions && t.executions[job.x] == Run(s, trace).executions[job.x]
            && job.x in Step(t, e).executions && Step(t, e).executions[job.x].run == t.executions[job.x].run
  {
    ElsewhereKeeps(Run(s, trace), others, job.x);
    RunConcat(s, trace, others + [e]);
    RunOne(Run(s, trace), others, e);
    WithinConcat(trace, others + [e], job);
    StepsExecutions(Run(Run(s, trace), others), e, job.x);
  }

  lemma ThenExecution(s: System, trace: seq<Event>, job: Job)
    requires OwnJob(job) && Within(trace, job) && Active(Run(s, trace), job.x)
    ensures Run(s, trace + job.during) == Run(Run(s, trace), job.during) && Within(trace + job.during, job)
    ensures Active(Run(Run(s, trace), job.during), job.x)
    ensures Run(Run(s, trace), job.during).executions[job.x].run == Run(s, trace).executions[job.x].run
  {
    RunConcat(s, trace, job.during);
    WithinConcat(trace, job.during, job);
    ExecutingKeeps(Run(s, trace), job.during, job.x);
  }

  lemma RegistrationDoesNotEnd(s: System, x: nat)
    requires Active(s, x)
    ensures Active(Step(s, Register(x)), x)
  {
  }

  lemma CompletionMayEnd(s: System, x: nat)
    requires Active(s, x)
    ensures x in Step(s, Complete(x)).executions && !Step(s, Complete(x)).executions[x].phase.Gone?
  {
  }

  ghost predicate Done(s: System, job: Job) {
    job.x in s.executions && s.executions[job.x].phase.Done?
  }

  ghost predicate Answering(s: System, job: Job) {
    job.x in s.executions && s.executions[job.x].phase.Answered?
  }

  // The system when the job registers, when its execution is over, and when it completes.
  ghost function AtRegistration(s: System, job: Job): System {
    Run(s, job.before)
  }

  ghost function AtEnd(s: System, job: Job): System {
    Run(Step(AtRegistration(s, job), Register(job.x)), job.during)
  }

  ghost function AtCompletion(s: System, job: Job): System {
    Run(AtEnd(s, job), job.after)
  }

  // The job succeeds from s: its policy fits its run, its registration is accepted and it hears so, its execution
  // comes back with an answer, and the lease is still its worker's when it completes.
  ghost predicate Succeeds(s: System, job: Job) {
    && job.x in s.executions && s.executions[job.x].run in s.rows
    && PolicyFits(job.policy, s.rows[s.executions[job.x].run])
    && Registers(AtRegistration(s, job), job.x) && !job.registerReplyLost
    && job.finishes && Answering(AtEnd(s, job), job)
    && Completes(AtCompletion(s, job), job.x)
  }

  // The events of the try block, as far as it gets.
  ghost function TryEvents(s: System, job: Job): seq<Event> {
    if !(Started(s, job) && PolicyFits(job.policy, s.rows[s.executions[job.x].run])) then []
    else if !Registers(AtRegistration(s, job), job.x) || job.registerReplyLost then job.before + [Register(job.x)]
    else if !job.finishes || !Answering(AtEnd(s, job), job) then job.before + [Register(job.x)] + job.during
    else job.before + [Register(job.x)] + job.during + (job.after + [Complete(job.x)])
  }

  // And with the report of a failure, which may not reach the store.
  ghost function JobEvents(s: System, job: Job): seq<Event> {
    var tried := TryEvents(s, job);
    if Done(Run(s, tried), job) && !job.completeReplyLost then tried
    else tried + [if job.failReaches then Fail(job.x) else Crash(job.x)]
  }

  lemma RegistersMeans(s: System, x: nat)
    requires Active(s, x) && s.executions[x].phase.Claimed?
    ensures Step(s, Register(x)).executions[x].phase.Registered? <==> Registers(s, x)
  {
  }

  lemma CompletesMeans(s: System, x: nat)
    requires Active(s, x) && s.executions[x].phase.Answered?
    ensures x in Step(s, Complete(x)).executions
    ensures Step(s, Complete(x)).executions[x].phase.Done? <==> Completes(s, x)
  {
  }

  // How far the try block gets decides how it ends.
  lemma TryEnds(s: System, job: Job)
    requires OwnJob(job) && Started(s, job)
    ensures var t := Run(s, TryEvents(s, job));
            && Within(TryEvents(s, job), job)
            && job.x in t.executions && t.executions[job.x].run == s.executions[job.x].run
            && !t.executions[job.x].phase.Gone? && (Done(t, job) <==> Succeeds(s, job))
  {
    if PolicyFits(job.policy, s.rows[s.executions[job.x].run]) {
      RegistrationOf(s, job);
      var registering := job.before + [Register(job.x)];
      if Registers(AtRegistration(s, job), job.x) && !job.registerReplyLost {
        ThenExecution(s, registering, job);
        if job.finishes && Answering(AtEnd(s, job), job) {
          OthersThenStep(s, registering + job.during, job.after, Complete(job.x), job);
          CompletesMeans(AtCompletion(s, job), job.x);
          CompletionMayEnd(AtCompletion(s, job), job.x);
        }
      }
    }
  }

  lemma RegistrationOf(s: System, job: Job)
    requires OwnJob(job) && Started(s, job)
    ensures var registering := job.before + [Register(job.x)];
            var t := Step(AtRegistration(s, job), Register(job.x));
            && Run(s, registering) == t && Within(registering, job) && Active(t, job.x)
            && t.executions[job.x].run == s.executions[job.x].run
            && (t.executions[job.x].phase.Registered? <==> Registers(AtRegistration(s, job), job.x))
  {
    OthersThenStep(s, [], job.before, Register(job.x), job);
    assert [] + (job.before + [Register(job.x)]) == job.before + [Register(job.x)];
    RegistrationDoesNotEnd(AtRegistration(s, job), job.x);
    RegistersMeans(AtRegistration(s, job), job.x);
  }

  // A snapshot that is out of range or differs from its run sends nothing and registers nothing.
  lemma MisfitSendsNothing(s: System, job: Job)
    requires OwnJob(job) && Started(s, job)
    requires var row := s.rows[s.executions[job.x].run];
             || job.policy.None?
             || !(1 <= job.policy.value.timeout <= 3600) || !(1 <= job.policy.value.maxAttempts <= 11)
             || !(1 <= job.policy.value.backoff <= 3600)
             || job.policy.value.maxAttempts != row.maxAttempts || job.policy.value.backoff != row.backoff
    ensures var t := AfterJob(s, job);
            t.requests == s.requests && t.ledger == s.ledger && t.costs == s.costs && !Done(t, job)
  {
    JobSettles(s, job);
    var e := if job.failReaches then Fail(job.x) else Crash(job.x);
    assert JobEvents(s, job) == [e];
    RunOne(s, [], e);
    assert [] + [e] == [e];
    OnlyTheRowChanges(s, e, job.x);
  }

  lemma OnlyTheRowChanges(s: System, e: Event, x: nat)
    requires e == Fail(x) || e == Crash(x)
    ensures Step(s, e).requests == s.requests && Step(s, e).ledger == s.ledger && Step(s, e).costs == s.costs
  {
  }

  // Every job ends its execution, and done exactly if it succeeds.
  lemma JobSettles(s: System, job: Job)
    requires OwnJob(job) && Started(s, job)
    ensures Within(JobEvents(s, job), job)
    ensures var t := Run(s, JobEvents(s, job));
            && Settled(t, job) && t.executions[job.x].run == s.executions[job.x].run
            && (Done(t, job) <==> Succeeds(s, job))
  {
    TryEnds(s, job);
    var e := if job.failReaches then Fail(job.x) else Crash(job.x);
    RunOne(s, TryEvents(s, job), e);
    WithinConcat(TryEvents(s, job), [e], job);
    StepsExecutions(Run(s, TryEvents(s, job)), e, job.x);
    EndsIt(Run(s, TryEvents(s, job)), e, job.x);
  }

  lemma EndsIt(s: System, e: Event, x: nat)
    requires x in s.executions && (e == Fail(x) || e == Crash(x))
    ensures x in Step(s, e).executions
    ensures Step(s, e).executions[x].phase == if s.executions[x].phase.Done? then Phase.Done else Phase.Gone
  {
  }

  // The try block: whether it gets to the end, and what it leaves.
  method TryJob(s: System, job: Job) returns (t: System, ok: bool)
    requires OwnJob(job) && Started(s, job)
    ensures t == Run(s, TryEvents(s, job)) && (ok <==> Succeeds(s, job) && !job.completeReplyLost)
  {
    TryEnds(s, job);
    t := s;
    if !PolicyFits(job.policy, s.rows[s.executions[job.x].run]) { return t, false; }

    RegistrationOf(s, job);
    t := Step(Run(t, job.before), Register(job.x));
    if !t.executions[job.x].phase.Registered? || job.registerReplyLost { return t, false; }

    ThenExecution(s, job.before + [Register(job.x)], job);
    t := Run(t, job.during);
    if !job.finishes || !t.executions[job.x].phase.Answered? { return t, false; }

    OthersThenStep(s, job.before + [Register(job.x)] + job.during, job.after, Complete(job.x), job);
    t := Step(Run(t, job.after), Complete(job.x));
    ok := t.executions[job.x].phase.Done? && !job.completeReplyLost;
  }

  // A failure is reported to the store; when the report itself fails that is only logged.
  method DispatchOne(s: System, job: Job) returns (t: System, ok: bool)
    requires OwnJob(job) && Started(s, job)
    ensures t == AfterJob(s, job) && (ok <==> Done(t, job) && !job.completeReplyLost)
  {
    TryEnds(s, job);
    JobSettles(s, job);
    t, ok := TryJob(s, job);
    if !ok {
      var e := if job.failReaches then Fail(job.x) else Crash(job.x);
      RunOne(s, TryEvents(s, job), e);
      t := Step(t, e);
    }
  }

  ghost predicate Settled(s: System, job: Job) {
    job.x in s.executions && (s.executions[job.x].phase.Done? || s.executions[job.x].phase.Gone?)
  }

  // A failed job whose report reaches the store while its worker holds the lease leaves a row that failed: one
  // that waits for its retry, or is given up.
  lemma ReportedFailure(s: System, job: Job)
    requires Started(s, job) && OwnJob(job) && !Done(Run(s, TryEvents(s, job)), job) && job.failReaches
    requires Active(Run(s, TryEvents(s, job)), job.x) && Holder(Run(s, TryEvents(s, job)), job.x)
    ensures var u, run := Run(s, TryEvents(s, job)), Run(s, TryEvents(s, job)).executions[job.x].run;
            var row := Run(s, JobEvents(s, job)).rows[run];
            if u.rows[run].attempt >= u.rows[run].maxAttempts then row.status.DeadLetter? && !row.retryScheduled
            else row.status.Queued? && row.retryScheduled && row.availableAt == u.now + RetryDelay(u.rows[run])
  {
    RunOne(s, TryEvents(s, job), Fail(job.x));
  }

  // --- the loop ---

  // The jobs whose Complete step succeeded, and of which the worker learnt it.
  ghost function CompletedJobs(s: System, jobs: seq<Job>): nat {
    if jobs == [] then 0
    else
      var last := jobs[|jobs| - 1];
      CompletedJobs(s, jobs[..|jobs| - 1]) + if Done(s, last) && !last.completeReplyLost then 1 else 0
  }

  // The execution of a job that has not had its turn.
  ghost predicate Waiting(start: System, s: System, job: Job) {
    job.x in start.executions && job.x in s.executions && s.executions[job.x] == start.executions[job.x]
  }

  // The jobs that had their turn are settled, with the given outcomes; the others wait.
  ghost predicate Halfway(start: System, s: System, jobs: seq<Job>, outcomes: seq<bool>)
    requires |outcomes| <= |jobs|
  {
    && (forall l :: 0 <= l < |jobs| ==> jobs[l].x in s.executions)
    && (forall l :: 0 <= l < |outcomes| ==> Settled(s, jobs[l]) && (Done(s, jobs[l]) <==> outcomes[l]))
    && (forall l :: |outcomes| <= l < |jobs| ==> Waiting(start, s, jobs[l]))
  }

  lemma OneJobKeepsTheOthers(s: System, jobs: seq<Job>, k: nat, trace: seq<Event>)
    requires k < |jobs| && Apart(jobs) && forall l :: 0 <= l < |jobs| ==> jobs[l].x in s.executions
    requires Within(trace, jobs[k])
    ensures forall l :: 0 <= l < |jobs| && l != k ==>
              && jobs[l].x in Run(s, trace).executions
              && Run(s, trace).executions[jobs[l].x] == s.executions[jobs[l].x]
  {
    forall l | 0 <= l < |jobs| && l != k
      ensures jobs[l].x in Run(s, trace).executions
      ensures Run(s, trace).executions[jobs[l].x] == s.executions[jobs[l].x]
    {
      assert Untouched(jobs[k], jobs[l].x);
      ElsewhereKeeps(s, trace, jobs[l].x);
    }
  }

  lemma OneMoreJob(start: System, s: System, t: System, jobs: seq<Job>, outcomes: seq<bool>, more: seq<Event>)
    requires |outcomes| < |jobs| && Apart(jobs) && Halfway(start, s, jobs, outcomes)
    requires t == Run(s, more) && Within(more, jobs[|outcomes|]) && Settled(t, jobs[|outcomes|])
    ensures Halfway(start, t, jobs, outcomes + [Done(t, jobs[|outcomes|])])
  {
    OneJobKeepsTheOthers(s, jobs, |outcomes|, more);
  }

  lemma StillStarted(start: System, trace: seq<Event>, job: Job)
    requires Started(start, job) && Waiting(start, Run(start, trace), job)
    ensures Started(Run(start, trace), job)
  {
    RunsStay(start, trace, start.executions[job.x].run);
  }

  // The system when it is the turn of job k, and how the jobs before it end there.
  ghost function Turn(start: System, jobs: seq<Job>, k: nat): System
    requires k <= |jobs|
  {
    if k == 0 then start else AfterJob(Turn(start, jobs, k - 1), jobs[k - 1])
  }

  ghost function AfterJob(s: System, job: Job): System {
    Run(s, JobEvents(s, job))
  }

  ghost function Outcomes(start: System, jobs: seq<Job>, k: nat): (outcomes: seq<bool>)
    requires k <= |jobs|
    ensures |outcomes| == k
  {
    Tabulate(TurnsDone(start, jobs), k)
  }

  ghost function TurnsDone(start: System, jobs: seq<Job>): nat -> bool {
    (l: nat) => l < |jobs| && DoneAfter(start, jobs, l, l + 1)
  }

  function Tabulate(f: nat -> bool, k: nat): (values: seq<bool>)
    ensures |values| == k && forall l: nat :: l < k ==> values[l] == f(l)
  {
    if k == 0 then [] else Tabulate(f, k - 1) + [f(k - 1)]
  }

  ghost predicate DoneAfter(start: System, jobs: seq<Job>, l: nat, turns: nat)
    requires l < |jobs| && turns <= |jobs|
  {
    Done(Turn(start, jobs, turns), jobs[l])
  }

  lemma OutcomeAt(start: System, jobs: seq<Job>, k: nat, l: nat)
    requires l < k <= |jobs|
    ensures Outcomes(start, jobs, k)[l] == DoneAfter(start, jobs, l, l + 1)
  {
  }

  lemma OutcomesSnoc(start: System, jobs: seq<Job>, k: nat)
    requires k < |jobs|
    ensures Outcomes(start, jobs, k + 1) == Outcomes(start, jobs, k) + [DoneAfter(start, jobs, k, k + 1)]
  {
    forall l | 0 <= l < k ensures Outcomes(start, jobs, k + 1)[l] == Outcomes(start, jobs, k)[l] {
      OutcomeAt(start, jobs, k + 1, l);
      OutcomeAt(start, jobs, k, l);
    }
    OutcomeAt(start, jobs, k + 1, k);
  }

  lemma {:induction false} TurnIs(start: System, jobs: seq<Job>, k: nat) returns (trace: seq<Event>)
    requires k <= |jobs| && Apart(jobs) && forall l :: 0 <= l < |jobs| ==> Started(start, jobs[l])
    ensures Turn(start, jobs, k) == Run(start, trace)
    ensures Halfway(start, Turn(start, jobs, k), jobs, Outcomes(start, jobs, k))
    ensures k < |jobs| ==> Started(Turn(start, jobs, k), jobs[k])
  {
    if k == 0 {
      trace := [];
    } else {
      var before := TurnIs(start, jobs, k - 1);
      trace := NextTurn(start, Turn(start, jobs, k - 1), jobs, Outcomes(start, jobs, k - 1), before);
      OutcomesSnoc(start, jobs, k - 1);
    }
    if k < |jobs| { StillStarted(start, trace, jobs[k]); }
  }

  lemma NextTurn(start: System, s: System, jobs: seq<Job>, outcomes: seq<bool>, before: seq<Event>)
    returns (trace: seq<Event>)
    requires |outcomes| < |jobs| && Apart(jobs) && s == Run(start, before) && Halfway(start, s, jobs, outcomes)
    requires Started(s, jobs[|outcomes|])
    ensures var t := AfterJob(s, jobs[|outcomes|]);
            t == Run(start, trace) && Halfway(start, t, jobs, outcomes + [Done(t, jobs[|outcomes|])])
  {
    var job := jobs[|outcomes|];
    JobSettles(s, job);
    OneMoreJob(start, s, AfterJob(s, job), jobs, outcomes, JobEvents(s, job));
    RunConcat(start, before, JobEvents(s, job));
    trace := before + JobEvents(s, job);
  }

  function Learnt(outcomes: seq<bool>, jobs: seq<Job>): nat
    requires |outcomes| <= |jobs|
  {
    if outcomes == [] then 0
    else
      var k := |outcomes| - 1;
      Learnt(outcomes[..k], jobs) + if outcomes[k] && !jobs[k].completeReplyLost then 1 else 0
  }

  lemma LearntSnoc(outcomes: seq<bool>, done: bool, jobs: seq<Job>)
    requires |outcomes| < |jobs|
    ensures Learnt(outcomes + [done], jobs)
         == Learnt(outcomes, jobs) + if done && !jobs[|outcomes|].completeReplyLost then 1 else 0
  {
    assert (outcomes + [done])[..|outcomes|] == outcomes;
  }

  lemma {:induction false} LearntIsCompleted(s: System, jobs: seq<Job>, outcomes: seq<bool>, k: nat)
    requires k <= |outcomes| == |jobs|
    requires forall l :: 0 <= l < |jobs| ==> (Done(s, jobs[l]) <==> outcomes[l])
    ensures Learnt(outcomes[..k], jobs) == CompletedJobs(s, jobs[..k])
  {
    if k > 0 {
      LearntIsCompleted(s, jobs, outcomes, k - 1);
      assert outcomes[..k][..k - 1] == outcomes[..k - 1] && jobs[..k][..k - 1] == jobs[..k - 1];
    }
  }

  ghost predicate AllStarted(start: System, jobs: seq<Job>) {
    Apart(jobs) && forall k :: 0 <= k < |jobs| ==> Started(start, jobs[k])
  }

  lemma TurnIsReady(start: System, jobs: seq<Job>, k: nat)
    requires k < |jobs| && AllStarted(start, jobs)
    ensures OwnJob(jobs[k]) && Started(Turn(start, jobs, k), jobs[k])
  {
    var trace := TurnIs(start, jobs, k);
  }

  lemma OneMoreLearnt(start: System, jobs: seq<Job>, k: nat)
    requires k < |jobs|
    ensures Learnt(Outcomes(start, jobs, k + 1), jobs)
         == Learnt(Outcomes(start, jobs, k), jobs)
            + if Done(Turn(start, jobs, k + 1), jobs[k]) && !jobs[k].completeReplyLost then 1 else 0
  {
    OutcomesSnoc(start, jobs, k);
    LearntSnoc(Outcomes(start, jobs, k), Done(Turn(start, jobs, k + 1), jobs[k]), jobs);
  }

  lemma DispatchEnds(start: System, jobs: seq<Job>) returns (trace: seq<Event>)
    requires AllStarted(start, jobs)
    ensures var s := Turn(start, jobs, |jobs|);
            && s == Run(start, trace) && (forall k :: 0 <= k < |jobs| ==> Settled(s, jobs[k]))
            && Learnt(Outcomes(start, jobs, |jobs|), jobs) == CompletedJobs(s, jobs)
  {
    trace := TurnIs(start, jobs, |jobs|);
    var outcomes := Outcomes(start, jobs, |jobs|);
    LearntIsCompleted(Turn(start, jobs, |jobs|), jobs, outcomes, |jobs|);
    assert jobs[..|jobs|] == jobs && outcomes[..|jobs|] == outcomes;
  }

  // Whatever goes wrong, every claimed run is counted once, no execution is left over, and `completed` counts
  // exactly the jobs that are done and whose worker learnt it.
  method DispatchRuns(start: System, jobs: seq<Job>) returns (s: System, completed: nat, failed: nat,
                                                               ghost trace: seq<Event>)
    requires AllStarted(start, jobs)
    ensures s == Turn(start, jobs, |jobs|) == Run(start, trace)
    ensures forall k :: 0 <= k < |jobs| ==> Settled(s, jobs[k])
    ensures completed + failed == |jobs| && completed == CompletedJobs(s, jobs)
  {
    s, completed, failed := start, 0, 0;
    for k := 0 to |jobs|
      invariant s == Turn(start, jobs, k) && completed + failed == k
      invariant completed == Learnt(Outcomes(start, jobs, k), jobs)
    {
      TurnIsReady(start, jobs, k);
      OneMoreLearnt(start, jobs, k);
      var t, ok := DispatchOne(s, jobs[k]);
      s := t;
      if ok {
        completed := completed + 1;
      } else {
        failed := failed + 1;
      }
    }
    trace := DispatchEnds(start, jobs);
  }

  lemma OutcomeStays(start: System, s: System, jobs: seq<Job>, outcomes: seq<bool>, k: nat)
    requires k < |outcomes| <= |jobs| && Halfway(start, s, jobs, outcomes)
    ensures Done(s, jobs[k]) <==> outcomes[k]
  {
  }

  lemma DoneAtItsTurn(start: System, jobs: seq<Job>, k: nat)
    requires k < |jobs| && AllStarted(start, jobs)
    ensures DoneAfter(start, jobs, k, |jobs|) <==> DoneAfter(start, jobs, k, k + 1)
  {
    var n := |jobs|;
    var trace := TurnIs(start, jobs, n);
    OutcomeStays(start, Turn(start, jobs, n), jobs, Outcomes(start, jobs, n), k);
    OutcomeAt(start, jobs, n, k);
  }

  lemma SucceedsAtItsTurn(start: System, jobs: seq<Job>, k: nat)
    requires k < |jobs| && AllStarted(start, jobs)
    ensures DoneAfter(start, jobs, k, k + 1) <==> Succeeds(Turn(start, jobs, k), jobs[k])
  {
    TurnIsReady(start, jobs, k);
    JobSettles(Turn(start, jobs, k), jobs[k]);
  }

  // A job is done after the dispatch exactly if it succeeds from the state that its turn finds.
  lemma CompletedIffSucceeds(start: System, jobs: seq<Job>, k: nat)
    requires k < |jobs| && AllStarted(start, jobs)
    ensures Done(Turn(start, jobs, |jobs|), jobs[k]) <==> Succeeds(Turn(start, jobs, k), jobs[k])
  {
    DoneAtItsTurn(start, jobs, k);
    SucceedsAtItsTurn(start, jobs, k);
  }

  // The runs of the jobs counted as completed have succeeded, each with one completion.
  lemma CompletedJobsSucceeded(origin: System, past: seq<Event>, trace: seq<Event>, job: Job)
    requires Starting(origin)
    requires var s := Run(Run(origin, past), trace); job.x in s.executions && s.executions[job.x].phase.Done?
    ensures var s := Run(Run(origin, past), trace);
            var run := s.executions[job.x].run;
            run in s.rows && s.rows[run].status.Succeeded? && s.rows[run].completions == 1
  {
    RunConcat(origin, past, trace);
    RunCharges.RunKeepsInv(origin, past + trace);
    CompletedOnce(origin, past + trace, Run(origin, past + trace).executions[job.x].run);
  }

  // --- a dispatch that nothing disturbs ---

  ghost predicate AnsweredCalls(events: seq<Event>, x: nat) {
    forall i :: 0 <= i < |events| ==>
      events[i].CallProvider? && events[i].x == x && InRange(events[i].call) && !events[i].replyLost
  }

  // Nobody else acts and no reply is lost; the execution calls at least once and comes back.
  ghost predicate Undisturbed(job: Job) {
    && job.before == [] && job.after == [] && job.during != [] && AnsweredCalls(job.during, job.x)
    && job.finishes && !job.registerReplyLost && !job.completeReplyLost
  }

  // The worker still holds the lease, and the run has registered nothing or the same before.
  ghost predicate CanRun(s: System, job: Job) {
    && Started(s, job) && Holder(s, job.x)
    && PolicyFits(job.policy, s.rows[s.executions[job.x].run])
    && var key := RunKey(s.executions[job.x].run); key in s.ledger ==> s.ledger[key] == EntryOf(s.executions[job.x])
  }

  // What a job of another run finds as it was.
  ghost predicate SameFor(s: System, t: System, run: string) {
    && t.now == s.now && t.rows.Keys == s.rows.Keys
    && (forall r :: r in s.rows && r != run ==> t.rows[r] == s.rows[r])
    && (forall key :: key != RunKey(run) ==>
          (key in t.ledger <==> key in s.ledger) && (key in s.ledger ==> t.ledger[key] == s.ledger[key]))
  }

  lemma OneCall(s: System, e: Event, x: nat)
    requires x in s.executions && (s.executions[x].phase.Registered? || s.executions[x].phase.Answered?)
    requires AnsweredCalls([e], x)
    ensures var t := Step(s, e);
            && t.rows == s.rows && t.ledger == s.ledger && t.now == s.now && x in t.executions
            && t.executions[x].phase.Answered? && EntryOf(t.executions[x]) == EntryOf(s.executions[x])
            && t.executions[x].worker == s.executions[x].worker
  {
    assert [e][0] == e;
  }

  lemma {:induction false} CallsAnswer(s: System, events: seq<Event>, x: nat)
    requires x in s.executions && s.executions[x].phase.Registered? && AnsweredCalls(events, x)
    ensures var t := Run(s, events);
            && t.rows == s.rows && t.ledger == s.ledger && t.now == s.now && x in t.executions
            && (if events == [] then t.executions[x].phase.Registered? else t.executions[x].phase.Answered?)
            && EntryOf(t.executions[x]) == EntryOf(s.executions[x])
            && t.executions[x].worker == s.executions[x].worker
  {
    if events != [] {
      var init, last := events[..|events| - 1], events[|events| - 1];
      assert forall i :: 0 <= i < |init| ==> init[i] == events[i];
      CallsAnswer(s, init, x);
      OneCall(Run(s, init), last, x);
    }
  }

  lemma RegistersWhenItCan(s: System, x: nat)
    requires Active(s, x) && Registers(s, x)
    ensures var t := Step(s, Register(x));
            && t.rows == s.rows && t.now == s.now && x in t.executions && t.executions[x].phase.Registered?
            && t.ledger == s.ledger[RunKey(s.executions[x].run) := EntryOf(s.executions[x])]
            && EntryOf(t.executions[x]) == EntryOf(s.executions[x]) && t.executions[x].worker == s.executions[x].worker
  {
  }

  lemma AtEndOfUndisturbed(s: System, job: Job)
    requires CanRun(s, job) && Undisturbed(job)
    ensures Registers(AtRegistration(s, job), job.x) && AtCompletion(s, job) == AtEnd(s, job)
    ensures var t := AtEnd(s, job);
            && t.rows == s.rows && t.now == s.now && Answering(t, job)
            && t.ledger == s.ledger[RunKey(s.executions[job.x].run) := EntryOf(s.executions[job.x])]
            && EntryOf(t.executions[job.x]) == EntryOf(s.executions[job.x])
            && t.executions[job.x].worker == s.executions[job.x].worker
  {
    assert AtRegistration(s, job) == s;
    RegistersWhenItCan(s, job.x);
    CallsAnswer(Step(s, Register(job.x)), job.during, job.x);
  }

  lemma UndisturbedSucceeds(s: System, job: Job)
    requires CanRun(s, job) && Undisturbed(job)
    ensures Succeeds(s, job)
  {
    AtEndOfUndisturbed(s, job);
  }

  lemma CompletionKeepsOthers(t: System, x: nat)
    requires Active(t, x) && Completes(t, x)
    ensures SameFor(t, Step(t, Complete(x)), t.executions[x].run)
  {
  }

  lemma UndisturbedKeepsOthers(s: System, job: Job)
    requires OwnJob(job) && CanRun(s, job) && Undisturbed(job)
    ensures SameFor(s, AfterJob(s, job), s.executions[job.x].run)
  {
    AtEndOfUndisturbed(s, job);
    UndisturbedSucceeds(s, job);
    TryEnds(s, job);
    RegistrationOf(s, job);
    ThenExecution(s, job.before + [Register(job.x)], job);
    OthersThenStep(s, job.before + [Register(job.x)] + job.during, job.after, Complete(job.x), job);
    assert AfterJob(s, job) == Step(AtEnd(s, job), Complete(job.x));
    CompletionKeepsOthers(AtEnd(s, job), job.x);
  }

  lemma StillCanRun(s: System, t: System, run: string, job: Job)
    requires CanRun(s, job) && SameFor(s, t, run) && s.executions[job.x].run != run
    requires job.x in t.executions && t.executions[job.x] == s.executions[job.x]
    ensures CanRun(t, job)
  {
    if RunKey(s.executions[job.x].run) == RunKey(run) { RunKeyIsInjective(s.executions[job.x].run, run); }
  }

  ghost predicate DifferentRuns(start: System, jobs: seq<Job>) {
    forall k, l :: 0 <= k < l < |jobs| && jobs[k].x in start.executions && jobs[l].x in start.executions ==>
      start.executions[jobs[k].x].run != start.executions[jobs[l].x].run
  }

  ghost predicate AllUndisturbed(start: System, jobs: seq<Job>) {
    && AllStarted(start, jobs) && DifferentRuns(start, jobs)
    && forall k :: 0 <= k < |jobs| ==> CanRun(start, jobs[k]) && Undisturbed(jobs[k])
  }

  lemma StillCanRunAfter(start: System, s: System, jobs: seq<Job>, outcomes: seq<bool>, l: nat)
    requires |outcomes| < l < |jobs| && AllUndisturbed(start, jobs) && Halfway(start, s, jobs, outcomes)
    requires CanRun(s, jobs[|outcomes|]) && CanRun(s, jobs[l])
    ensures CanRun(AfterJob(s, jobs[|outcomes|]), jobs[l])
  {
    var k := |outcomes|;
    var t := AfterJob(s, jobs[k]);
    assert Undisturbed(jobs[k]) && OwnJob(jobs[k]);
    UndisturbedKeepsOthers(s, jobs[k]);
    JobSettles(s, jobs[k]);
    OneJobKeepsTheOthers(s, jobs, k, JobEvents(s, jobs[k]));
    assert Waiting(start, s, jobs[l]) && Waiting(start, s, jobs[k]);
    StillCanRun(s, t, s.executions[jobs[k].x].run, jobs[l]);
  }

  // The jobs from k on can all run.
  ghost predicate RestCanRun(s: System, jobs: seq<Job>, k: nat) {
    forall l :: k <= l < |jobs| ==> CanRun(s, jobs[l])
  }

  lemma NextCanRun(start: System, s: System, jobs: seq<Job>, k: nat)
    requires k < |jobs| && AllUndisturbed(start, jobs) && s == Turn(start, jobs, k) && RestCanRun(s, jobs, k)
    ensures RestCanRun(AfterJob(s, jobs[k]), jobs, k + 1)
  {
    var trace := TurnIs(start, jobs, k);
    forall l | k < l < |jobs| ensures CanRun(AfterJob(s, jobs[k]), jobs[l]) {
      StillCanRunAfter(start, s, jobs, Outcomes(start, jobs, k), l);
    }
  }

  lemma EachCanRun(start: System, jobs: seq<Job>, k: nat)
    requires k < |jobs| && AllUndisturbed(start, jobs)
    ensures CanRun(Turn(start, jobs, k), jobs[k])
  {
    var s := start;
    for j := 0 to k
      invariant s == Turn(start, jobs, j) && RestCanRun(s, jobs, j)
    {
      NextCanRun(start, s, jobs, j);
      s := AfterJob(s, jobs[j]);
    }
  }

  lemma {:induction false} AllCounted(s: System, jobs: seq<Job>, k: nat)
    requires k <= |jobs| && forall l :: 0 <= l < |jobs| ==> Done(s, jobs[l]) && !jobs[l].completeReplyLost
    ensures CompletedJobs(s, jobs[..k]) == k
  {
    if k > 0 {
      AllCounted(s, jobs, k - 1);
      assert jobs[..k][..k - 1] == jobs[..k - 1];
    }
  }

  // An undisturbed dispatch completes all its jobs.
  lemma UndisturbedDispatch(start: System, jobs: seq<Job>)
    requires AllUndisturbed(start, jobs)
    ensures CompletedJobs(Turn(start, jobs, |jobs|), jobs) == |jobs|
  {
    forall k | 0 <= k < |jobs| ensures DoneAfter(start, jobs, k, |jobs|) {
      EachCanRun(start, jobs, k);
      UndisturbedSucceeds(Turn(start, jobs, k), jobs[k]);
      CompletedIffSucceeds(start, jobs, k);
    }
    assert forall k :: 0 <= k < |jobs| ==> DoneAfter(start, jobs, k, |jobs|) && Undisturbed(jobs[k]);
    AllCounted(Turn(start, jobs, |jobs|), jobs, |jobs|);
    assert jobs[..|jobs|] == jobs;
  }
}
