/** Many runs and the executions that work on them: leases, recovery after a crash or an expired lease,
    retries, and providers that deduplicate by the idempotency key they receive. The transitions of a row are
    those of claim_runs, heartbeat_run, register_run_effect, complete_run and fail_run. */
module RunLease {
  import opened Common
  import opened EffectKeys

  datatype Status = Queued | Running | Succeeded | DeadLetter

  // What a provider received and answered. `attempt` and `fingerprint` are those of the execution that sent it.
  datatype Request = Request(provider: string, run: string, attempt: nat, fingerprint: string, call: Call,
                             key: string, eventId: string)

  // Beside its columns a row counts its claims and completions, and keeps the reply it was completed with.
  datatype Row = Row(status: Status, retryScheduled: bool, attempt: nat, maxAttempts: nat, backoff: nat,
                     lockedBy: string, lockedUntil: int, availableAt: int,
                     claims: nat, completions: nat, result: Option<Request>)

  // How far one execution has come; it is Broken when something raised, and Gone when nobody works on it.
  datatype Phase = Claimed | Registered | Answered(reply: Request) | Done | Broken | Gone
  // Its fingerprint is the hash of what it was given to do, which a claim puts together anew.
  datatype Execution = Execution(run: string, attempt: nat, fingerprint: string, worker: string, phase: Phase)

  // A registered effect key: the run that registered it, and the fingerprint of its first registration.
  datatype Entry = Entry(run: string, fingerprint: string)

  // A provider's memory: the first result for each key.
  datatype Slot = Slot(provider: string, key: string)

  datatype System = System(
    rows: map<string, Row>,
    now: int,
    ledger: map<string, Entry>,       // by effect key
    applied: map<Slot, string>,       // the provider events, by the key that caused them
    requests: seq<Request>,
    costs: map<string, string>,       // cost events by provider event, and the run that is charged
    executions: map<nat, Execution>)

  datatype Event =
    | Tick(seconds: nat)
    | Claim(x: nat, run: string, fingerprint: string, worker: string, lease: int)
    | Heartbeat(x: nat, lease: int)
    | Register(x: nat)
    | CallProvider(x: nat, provider: string, call: Call, freshId: string, replyLost: bool)
    | Complete(x: nat)
    | Fail(x: nat)
    | Crash(x: nat)

  function Clamp(lease: int): int {
    if lease < 10 then 10 else if lease > 900 then 900 else lease
  }

  function Pow2(n: nat): nat {
    if n == 0 then 1 else 2 * Pow2(n - 1)
  }

  function RetryDelay(row: Row): int {
    var delay := row.backoff * Pow2(if row.attempt > 1 then row.attempt - 1 else 0);
    if delay > 86400 then 86400 else delay
  }

  predicate Expired(row: Row, now: int) {
    row.status.Running? && row.lockedUntil < now
  }

  predicate HoldsLease(row: Row, worker: string, now: int) {
    row.status.Running? && row.lockedBy == worker && row.lockedUntil >= now
  }

  // The first statement of claim_runs: every expired run without attempts left is given up.
  function GiveUp(row: Row, now: int): Row {
    if Expired(row, now) && row.attempt >= row.maxAttempts then row.(status := DeadLetter, retryScheduled := false)
    else row
  }

  function GiveUpAll(rows: map<string, Row>, now: int): map<string, Row> {
    map run | run in rows :: GiveUp(rows[run], now)
  }

  predicate Claimable(row: Row, now: int) {
    && ((row.status.Queued? && row.availableAt <= now) || Expired(row, now))
    && (row.retryScheduled ==> row.attempt < row.maxAttempts)
    && (row.status.Running? ==> row.attempt < row.maxAttempts)
  }

  function ClaimedRow(row: Row, worker: string, lease: int, now: int): Row {
    row.(status := Running, attempt := row.attempt + if row.status.Running? || row.retryScheduled then 1 else 0,
         lockedBy := worker, lockedUntil := now + Clamp(lease), retryScheduled := false, claims := row.claims + 1)
  }

  function FailedRow(row: Row, now: int): Row {
    if row.attempt >= row.maxAttempts then row.(status := DeadLetter, retryScheduled := false)
    else row.(status := Queued, retryScheduled := true, availableAt := now + RetryDelay(row))
  }

  function CompletedRow(row: Row, reply: Request): Row {
    row.(status := Succeeded, completions := row.completions + 1, result := Some(reply))
  }

  predicate Active(s: System, x: nat) {
    x in s.executions && !s.executions[x].phase.Done? && !s.executions[x].phase.Gone?
  }

  predicate Holder(s: System, x: nat) {
    x in s.executions && s.executions[x].run in s.rows
    && HoldsLease(s.rows[s.executions[x].run], s.executions[x].worker, s.now)
  }

  predicate HasRegistered(s: System, run: string) {
    RunKey(run) in s.ledger && s.ledger[RunKey(run)].run == run
  }

  function EntryOf(e: Execution): Entry {
    Entry(e.run, e.fingerprint)
  }

  // A key that another run has registered, or the same run with another fingerprint, is an idempotency conflict.
  predicate Registers(s: System, x: nat) {
    Holder(s, x) && s.executions[x].phase.Claimed?
    && var key := RunKey(s.executions[x].run); key in s.ledger ==> s.ledger[key] == EntryOf(s.executions[x])
  }

  predicate MayCall(s: System, x: nat, call: Call) {
    x in s.executions && InRange(call) && (s.executions[x].phase.Registered? || s.executions[x].phase.Answered?)
  }

  predicate Completes(s: System, x: nat) {
    Holder(s, x) && s.executions[x].phase.Answered? && HasRegistered(s, s.executions[x].run)
  }

  // What an execution sends: its run's key, with the round if there are rounds. A provider answers a key it
  // knows with the first result.
  function RequestOf(s: System, x: nat, provider: string, call: Call, freshId: string): Request
    requires MayCall(s, x, call)
  {
    var e := s.executions[x];
    var key := CallKey(e.run, call);
    var slot := Slot(provider, key);
    Request(provider, e.run, e.attempt, e.fingerprint, call, key,
            if slot in s.applied then s.applied[slot] else freshId)
  }

  function DoClaim(s: System, x: nat, run: string, fingerprint: string, worker: string, lease: int): System {
    var rows := GiveUpAll(s.rows, s.now);
    if x in s.executions || run !in rows || !Claimable(rows[run], s.now) then s.(rows := rows)
    else
      var row := ClaimedRow(rows[run], worker, lease, s.now);
      s.(rows := rows[run := row],
         executions := s.executions[x := Execution(run, row.attempt, fingerprint, worker, Claimed)])
  }

  function PhaseAfter(s: System, x: nat, e: Event): Phase
    requires Active(s, x)
  {
    var phase := s.executions[x].phase;
    match e
    case Heartbeat(_, _) => if Holder(s, x) then phase else Broken
    case Register(_) => if !phase.Claimed? then phase else if Registers(s, x) then Registered else Broken
    case CallProvider(_, provider, call, freshId, replyLost) =>
      if !MayCall(s, x, call) then phase
      else if replyLost then Broken else Answered(RequestOf(s, x, provider, call, freshId))
    case Complete(_) => if !phase.Answered? then phase else if Completes(s, x) then Done else Broken
    case Fail(_) => Gone
    case Crash(_) => Gone
    case _ => phase
  }

  function RowAfter(s: System, x: nat, e: Event): Row
    requires Active(s, x) && s.executions[x].run in s.rows
  {
    var row := s.rows[s.executions[x].run];
    match e
    case Heartbeat(_, lease) => if Holder(s, x) then row.(lockedUntil := s.now + Clamp(lease)) else row
    case Complete(_) => if Completes(s, x) then CompletedRow(row, s.executions[x].phase.reply) else row
    case Fail(_) => if Holder(s, x) then FailedRow(row, s.now) else row
    case _ => row
  }

  // One execution acts: its phase and the row of its run may change, a registration goes to the ledger, a call
  // to the provider, and a completion is charged unless its provider event already is.
  function Act(s: System, x: nat, e: Event): System
    requires Active(s, x)
  {
    var run := s.executions[x].run;
    var t := s.(executions := s.executions[x := s.executions[x].(phase := PhaseAfter(s, x, e))],
                rows := if run in s.rows then s.rows[run := RowAfter(s, x, e)] else s.rows);
    if e.Register? && Registers(s, x) then t.(ledger := s.ledger[RunKey(run) := EntryOf(s.executions[x])])
    else if e.CallProvider? && MayCall(s, x, e.call) then
      var q := RequestOf(s, x, e.provider, e.call, e.freshId);
      t.(requests := s.requests + [q], applied := s.applied[Slot(q.provider, q.key) := q.eventId])
    else if e.Complete? && Completes(s, x) && s.executions[x].phase.reply.eventId !in s.costs then
      t.(costs := s.costs[s.executions[x].phase.reply.eventId := run])
    else t
  }

  function Step(s: System, e: Event): System {
    match e
    case Tick(seconds) => s.(now := s.now + seconds)
    case Claim(x, run, fingerprint, worker, lease) => DoClaim(s, x, run, fingerprint, worker, lease)
    case _ => if Active(s, e.x) then Act(s, e.x, e) else s
  }

  function Run(s: System, events: seq<Event>): System {
    if events == [] then s else Step(Run(s, events[..|events| - 1]), events[|events| - 1])
  }

  lemma {:induction false} RunConcat(s: System, a: seq<Event>, b: seq<Event>)
    ensures Run(s, a + b) == Run(Run(s, a), b)
  {
    if b == [] {
      assert a + b == a;
    } else {
      RunConcat(s, a, b[..|b| - 1]);
      assert (a + b)[..|a + b| - 1] == a + b[..|b| - 1];
    }
  }

  lemma RunFour(s: System, a: Event, b: Event, c: Event, d: Event)
    ensures Run(s, [a, b, c, d]) == Step(Step(Step(Step(s, a), b), c), d)
  {
    assert [a, b, c, d][..3] == [a, b, c] && [a, b, c][..2] == [a, b] && [a, b][..1] == [a] && [a][..0] == [];
    assert Run(s, [a]) == Step(s, a);
    assert Run(s, [a, b]) == Step(Step(s, a), b);
  }

  predicate Fresh(row: Row) {
    && row.status.Queued? && !row.retryScheduled && row.claims == 0 && row.completions == 0 && row.result.None?
    && row.attempt <= row.maxAttempts
  }

  // Runs as they are enqueued, before anyone has worked on them.
  ghost predicate Starting(s: System) {
    && (forall run :: run in s.rows ==> Fresh(s.rows[run]))
    && s.ledger == map[] && s.applied == map[] && s.requests == [] && s.costs == map[] && s.executions == map[]
  }

  // --- one execution ---

  // A step starts or changes no execution but its own, and an execution keeps its run, attempt and worker.
  lemma StepsExecutions(s: System, e: Event, x: nat)
    ensures x in s.executions ==> x in Step(s, e).executions
    ensures x in s.executions ==>
              Step(s, e).executions[x] == s.executions[x].(phase := Step(s, e).executions[x].phase)
    ensures x in Step(s, e).executions && x !in s.executions ==> e.Claim? && Step(s, e).executions[x].phase.Claimed?
    ensures e.Tick? || e.x != x ==> (x in Step(s, e).executions <==> x in s.executions)
    ensures (e.Tick? || e.x != x) && x in s.executions ==> Step(s, e).executions[x] == s.executions[x]
  {
    if !e.Tick? && !e.Claim? && Active(s, e.x) { ActsOnItself(s, e.x, e); }
  }

  lemma ActsOnItself(s: System, x: nat, e: Event)
    requires Active(s, x)
    ensures Act(s, x, e).executions == s.executions[x := s.executions[x].(phase := PhaseAfter(s, x, e))]
  {
  }

  // --- the row of one run ---

  // What one step can do to one row.
  ghost predicate RowStep(before: Row, after: Row, now: int) {
    || after == before
    || after == GiveUp(before, now)
    || (exists worker, lease :: Claimable(GiveUp(before, now), now)
          && after == ClaimedRow(GiveUp(before, now), worker, lease, now))
    || (before.status.Running? && before.lockedUntil >= now
        && (|| after == FailedRow(before, now)
            || (exists reply :: after == CompletedRow(before, reply))
            || (exists lease :: after == before.(lockedUntil := now + Clamp(lease)))))
  }

  lemma ActStepsRows(s: System, x: nat, e: Event, r: string)
    requires Active(s, x) && r in s.rows
    ensures r in Act(s, x, e).rows && RowStep(s.rows[r], Act(s, x, e).rows[r], s.now)
  {
    if s.executions[x].run == r {
      match e
      case Heartbeat(_, lease) =>
        assert Holder(s, x) ==> RowAfter(s, x, e) == s.rows[r].(lockedUntil := s.now + Clamp(lease));
      case Complete(_) =>
        assert Completes(s, x) ==> RowAfter(s, x, e) == CompletedRow(s.rows[r], s.executions[x].phase.reply);
      case _ =>
    }
  }

  lemma StepsRows(s: System, e: Event, r: string)
    requires r in s.rows
    ensures r in Step(s, e).rows && RowStep(s.rows[r], Step(s, e).rows[r], s.now)
  {
    if !e.Tick? && !e.Claim? && Active(s, e.x) { ActStepsRows(s, e.x, e, r); }
  }

  // Every claim but the first uses up an attempt.
  ghost predicate AttemptsCounted(row: Row, start: Row) {
    && row.maxAttempts == start.maxAttempts && row.attempt <= row.maxAttempts
    && (row.claims == 0 ==> row.attempt == start.attempt && row.status.Queued? && !row.retryScheduled)
    && (row.claims > 0 ==> row.attempt == start.attempt + row.claims - 1 && (row.status.Queued? ==> row.retryScheduled))
  }

  ghost predicate RowInv(row: Row, start: Row) {
    && AttemptsCounted(row, start)
    && row.completions == (if row.status.Succeeded? then 1 else 0)
    && (row.result.Some? <==> row.status.Succeeded?)
  }

  lemma RowStepKeepsInv(before: Row, after: Row, now: int, start: Row)
    requires RowInv(before, start) && RowStep(before, after, now)
    ensures RowInv(after, start)
  {
  }

  lemma {:induction false} RunKeepsRow(start: System, events: seq<Event>, r: string)
    requires Starting(start) && r in start.rows
    ensures r in Run(start, events).rows && RowInv(Run(start, events).rows[r], start.rows[r])
  {
    if events != [] {
      var s := Run(start, events[..|events| - 1]);
      RunKeepsRow(start, events[..|events| - 1], r);
      StepsRows(s, events[|events| - 1], r);
      RowStepKeepsInv(s.rows[r], Run(start, events).rows[r], s.now, start.rows[r]);
    }
  }

  // Whatever crashes, expires or races: a run is executed at most maxAttempts - attempt + 1 times.
  lemma ExecutionsAreBounded(start: System, events: seq<Event>, r: string)
    requires Starting(start) && r in start.rows
    ensures r in Run(start, events).rows
    ensures Run(start, events).rows[r].claims <= start.rows[r].maxAttempts - start.rows[r].attempt + 1
  {
    RunKeepsRow(start, events, r);
  }

  predicate Terminal(row: Row) {
    row.status.Succeeded? || row.status.DeadLetter?
  }

  // A finished run stays finished, with the claims, the completion and the result it has.
  lemma {:induction false} TerminalIsFinal(s: System, events: seq<Event>, r: string)
    requires r in s.rows && Terminal(s.rows[r])
    ensures r in Run(s, events).rows && Run(s, events).rows[r] == s.rows[r]
  {
    if events != [] {
      TerminalIsFinal(s, events[..|events| - 1], r);
      StepsRows(Run(s, events[..|events| - 1]), events[|events| - 1], r);
    }
  }

  lemma TimePasses(s: System, e: Event)
    ensures s.now <= Step(s, e).now
  {
  }

  lemma WaitingRowStays(before: Row, after: Row, now: int)
    requires RowStep(before, after, now) && before.status.Queued? && now < before.availableAt
    ensures after == before
  {
  }

  // A run waiting for its retry is left alone by everyone until its delay is over.
  lemma {:induction false} RetryWaits(s: System, events: seq<Event>, r: string)
    requires r in s.rows && s.rows[r].status.Queued? && Run(s, events).now < s.rows[r].availableAt
    ensures r in Run(s, events).rows && Run(s, events).rows[r] == s.rows[r]
  {
    if events != [] {
      var before, e := Run(s, events[..|events| - 1]), events[|events| - 1];
      TimePasses(before, e);
      RetryWaits(s, events[..|events| - 1], r);
      StepsRows(before, e, r);
      WaitingRowStays(before.rows[r], Step(before, e).rows[r], before.now);
    }
  }

  // A claim that succeeds found no live lease and no pending delay, and gives its worker the lease for
  // 10 to 900 seconds.
  lemma ClaimTakesFreeRun(s: System, x: nat, r: string, fingerprint: string, worker: string, lease: int,
                          holder: string)
    requires x !in s.executions && x in Step(s, Claim(x, r, fingerprint, worker, lease)).executions
    ensures r in s.rows && !HoldsLease(s.rows[r], holder, s.now)
    ensures s.rows[r].status.Queued? ==> s.rows[r].availableAt <= s.now
    ensures var t := Step(s, Claim(x, r, fingerprint, worker, lease));
            && HoldsLease(t.rows[r], worker, t.now) && 10 <= t.rows[r].lockedUntil - t.now <= 900
            && (10 <= lease <= 900 ==> t.rows[r].lockedUntil == t.now + lease)
            && t.rows[r].claims == s.rows[r].claims + 1
            && t.executions[x] == Execution(r, t.rows[r].attempt, fingerprint, worker, Claimed)
  {
  }

  // A run can be claimed exactly if it is due, or its lease has run out; but no retry goes beyond the limit.
  lemma ClaimedIffFree(s: System, x: nat, r: string, fingerprint: string, worker: string, lease: int)
    requires x !in s.executions
    ensures x in Step(s, Claim(x, r, fingerprint, worker, lease)).executions <==>
            && r in s.rows
            && (|| (s.rows[r].status == Queued && s.rows[r].availableAt <= s.now)
                || (s.rows[r].status == Running && s.rows[r].lockedUntil < s.now))
            && (s.rows[r].status == Running || s.rows[r].retryScheduled ==> s.rows[r].attempt < s.rows[r].maxAttempts)
    ensures var t := Step(s, Claim(x, r, fingerprint, worker, lease));
            x in t.executions ==>
              (t.rows[r].attempt == s.rows[r].attempt <==> s.rows[r].status == Queued && !s.rows[r].retryScheduled)
              && s.rows[r].attempt <= t.rows[r].attempt <= s.rows[r].attempt + 1
  {
  }

  // Whoever claims next gives up the other runs that expired on their last attempt, and touches no more of them.
  lemma ClaimGivesUpExhausted(s: System, x: nat, r: string, fingerprint: string, worker: string, lease: int,
                              other: string)
    requires other in s.rows && other != r
    ensures var row, t := s.rows[other], Step(s, Claim(x, r, fingerprint, worker, lease));
            && other in t.rows
            && t.rows[other] == if row.status == Running && row.lockedUntil < s.now && row.attempt >= row.maxAttempts
                                then row.(status := DeadLetter, retryScheduled := false) else row
  {
  }

  // A run whose worker crashed waits for its lease to run out; then anyone can claim its next attempt, or it is
  // given up if there is none.
  lemma CrashedRunIsRecovered(s: System, x: nat, seconds: nat, y: nat, fingerprint: string, worker: string, lease: int)
    requires Active(s, x) && Holder(s, x) && y !in s.executions
    ensures var run := s.executions[x].run;
            var row := s.rows[run];
            var t := Step(Step(Step(s, Crash(x)), Tick(seconds)), Claim(y, run, fingerprint, worker, lease));
            && (y in t.executions <==> row.lockedUntil < s.now + seconds && row.attempt < row.maxAttempts)
            && (y in t.executions ==>
                  && t.executions[y] == Execution(run, row.attempt + 1, fingerprint, worker, Claimed)
                  && Holder(t, y) && t.ledger == s.ledger)
            && (y !in t.executions ==>
                  t.rows[run] == if row.lockedUntil < s.now + seconds
                                 then row.(status := DeadLetter, retryScheduled := false) else row)
  {
    var run := s.executions[x].run;
    var crashed := Step(s, Crash(x));
    assert crashed.rows == s.rows && crashed.executions.Keys == s.executions.Keys;
    ClaimedIffFree(Step(crashed, Tick(seconds)), y, run, fingerprint, worker, lease);
  }

  // A heartbeat in time extends the lease from now on, and does nothing else; one that is late breaks the execution.
  lemma HeartbeatExtends(s: System, x: nat, lease: int)
    requires Active(s, x)
    ensures var t, run := Step(s, Heartbeat(x, lease)), s.executions[x].run;
            if Holder(s, x) then
              && t.executions == s.executions && t.rows.Keys == s.rows.Keys
              && (forall r :: r in s.rows && r != run ==> t.rows[r] == s.rows[r])
              && t.rows[run] == s.rows[run].(lockedUntil := t.rows[run].lockedUntil)
              && 10 <= t.rows[run].lockedUntil - s.now <= 900
              && (10 <= lease <= 900 ==> t.rows[run].lockedUntil == s.now + lease)
            else t.rows == s.rows && t.executions == s.executions[x := s.executions[x].(phase := Broken)]
  {
    var e := s.executions[x];
    assert e.(phase := e.phase) == e && s.executions[x := e] == s.executions;
  }

  // The delay starts at the configured backoff and doubles with every attempt, up to a day.
  lemma DelayDoubles(row: Row)
    ensures row.attempt <= 1 ==> RetryDelay(row) == if row.backoff > 86400 then 86400 else row.backoff
    ensures var next := RetryDelay(row.(attempt := row.attempt + 1));
            row.attempt >= 1 ==> next == if 2 * RetryDelay(row) > 86400 then 86400 else 2 * RetryDelay(row)
  {
    if row.attempt >= 1 {
      var p := Pow2(row.attempt - 1);
      assert Pow2(row.attempt) == 2 * p;
      assert row.backoff * (2 * p) == 2 * (row.backoff * p);
    }
  }

  // --- the lease ---

  // A run is in one worker's hands: who claims it takes it from every other worker's executions.
  lemma ClaimTakesOver(s: System, x: nat, y: nat, r: string, fingerprint: string, worker: string, lease: int)
    requires x in s.executions && s.executions[x].run == r && s.executions[x].worker != worker
    requires y !in s.executions && y in Step(s, Claim(y, r, fingerprint, worker, lease)).executions
    ensures var t := Step(s, Claim(y, r, fingerprint, worker, lease));
            && t.rows[r].lockedBy == worker
            && Step(t, Heartbeat(x, lease)).rows == t.rows && Step(t, Complete(x)).rows == t.rows
            && Step(t, Complete(x)).costs == t.costs && Step(t, Fail(x)).rows == t.rows
  {
    var t := Step(s, Claim(y, r, fingerprint, worker, lease));
    assert x in t.executions && t.executions[x] == s.executions[x];
    LosersChangeNothing(t, x, lease);
  }

  // A call reaches the provider whether or not its reply comes back; without the reply the execution breaks.
  lemma CallReachesProvider(s: System, x: nat, provider: string, call: Call, freshId: string, replyLost: bool)
    requires Active(s, x) && MayCall(s, x, call)
    ensures var e, t := s.executions[x], Step(s, CallProvider(x, provider, call, freshId, replyLost));
            var slot := Slot(provider, CallKey(e.run, call));
            var id := if slot in s.applied then s.applied[slot] else freshId;
            var q := Request(provider, e.run, e.attempt, e.fingerprint, call, slot.key, id);
            && t.requests == s.requests + [q] && t.applied == s.applied[slot := id]
            && t.rows == s.rows && t.ledger == s.ledger && t.costs == s.costs
            && t.executions[x].phase == if replyLost then Broken else Answered(q)
  {
  }

  // Without the live lease, an execution cannot touch any row: not extend it, not complete it, not fail it.
  lemma LosersChangeNothing(s: System, x: nat, lease: int)
    requires x in s.executions && !Holder(s, x)
    ensures Step(s, Heartbeat(x, lease)).rows == s.rows
    ensures Step(s, Complete(x)).rows == s.rows && Step(s, Complete(x)).costs == s.costs
    ensures Step(s, Fail(x)).rows == s.rows
  {
  }

  // Completion is decided by the worker's name and the clock alone.
  lemma CompletesIffWorkerHoldsLease(s: System, x: nat)
    requires Active(s, x) && s.executions[x].phase.Answered? && HasRegistered(s, s.executions[x].run)
    ensures var run := s.executions[x].run;
            Step(s, Complete(x)).executions[x].phase ==
            if run in s.rows && s.rows[run].status == Running && s.rows[run].lockedBy == s.executions[x].worker
               && s.now <= s.rows[run].lockedUntil
            then Phase.Done else Broken
  {
  }

  // So an execution that lost the run cannot complete it, but can once its own worker has claimed it again.
  lemma LeaseIsPerWorker(s: System, x: nat, y: nat, fingerprint: string, lease: int)
    requires Active(s, x) && s.executions[x].phase.Answered? && HasRegistered(s, s.executions[x].run)
    requires y !in s.executions && s.executions[x].run in s.rows
    requires Claimable(GiveUp(s.rows[s.executions[x].run], s.now), s.now)
    ensures Step(s, Complete(x)).rows == s.rows
    ensures var t := Step(s, Claim(y, s.executions[x].run, fingerprint, s.executions[x].worker, lease));
            var u := Step(t, Complete(x));
            u.executions[x].phase.Done? && u.rows[s.executions[x].run].status.Succeeded?
  {
    LosersChangeNothing(s, x, lease);
    var t := Step(s, Claim(y, s.executions[x].run, fingerprint, s.executions[x].worker, lease));
    assert t.executions[x] == s.executions[x];
    CompletesIffWorkerHoldsLease(t, x);
  }
}
