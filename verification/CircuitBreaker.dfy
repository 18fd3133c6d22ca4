/** The circuit breaker of one provider name, and the histories of calls it sees. */
module CircuitBreaker {
  import opened Common

  datatype Breaker = Breaker(threshold: int, recovery: real, failures: int, openedAt: Option<real>)

  const FRESH := Breaker(3, 30.0, 0, None)

  predicate Recovered(b: Breaker, now: real) {
    b.openedAt.None? || now - b.openedAt.value >= b.recovery
  }

  function Reset(b: Breaker): Breaker {
    b.(failures := 0, openedAt := None)
  }

  // allow(): an open breaker whose recovery time is over is closed again.
  function AfterAllow(b: Breaker, now: real): Breaker {
    if b.openedAt.Some? && Recovered(b, now) then Reset(b) else b
  }

  // failure(): also while open, which postpones the recovery.
  function AfterFailure(b: Breaker, now: real): Breaker {
    b.(failures := b.failures + 1, openedAt := if b.failures + 1 >= b.threshold then Some(now) else b.openedAt)
  }

  /** The breaker object, shared by all requests that use its provider name. */
  class Cell {
    const threshold: int
    const recovery: real
    var failures: int
    var openedAt: Option<real>

    constructor (threshold: int, recovery: real)
      ensures View() == Breaker(threshold, recovery, 0, None)
    {
      this.threshold, this.recovery := threshold, recovery;
      failures, openedAt := 0, None;
    }

    function View(): Breaker
      reads this
    {
      Breaker(threshold, recovery, failures, openedAt)
    }

    // An allowed caller finds the breaker closed; a refused one leaves it as it was.
    method Allow(now: real) returns (allowed: bool)
      modifies this
      ensures allowed <==> old(openedAt).None? || now - old(openedAt).value >= recovery
      ensures allowed ==> openedAt.None? && (old(openedAt).Some? ==> failures == 0)
      ensures !allowed || old(openedAt).None? ==> View() == old(View())
      ensures View() == AfterAllow(old(View()), now)
    {
      if openedAt.None? { return true; }
      if now - openedAt.value >= recovery {
        failures := 0;
        openedAt := None;
        return true;
      }
      return false;
    }

    method Success()
      modifies this
      ensures failures == 0 && openedAt.None? && View() == Reset(old(View()))
    {
      failures := 0;
      openedAt := None;
    }

    method Failure(now: real)
      modifies this
      ensures failures == old(failures) + 1
      ensures openedAt == if failures >= threshold then Some(now) else old(openedAt)
      ensures View() == AfterFailure(old(View()), now)
    {
      failures := failures + 1;
      if failures >= threshold { openedAt := Some(now); }
    }
  }

  function AfterFailures(b: Breaker, times: seq<real>): Breaker {
    if times == [] then b else AfterFailure(AfterFailures(b, times[..|times| - 1]), times[|times| - 1])
  }

  // A closed breaker opens at exactly the threshold's number of failures in a row, at the time of the last.
  lemma {:induction false} OpensAtThreshold(b: Breaker, times: seq<real>)
    requires b.threshold >= 1
    ensures var after := AfterFailures(Reset(b), times);
            && after.failures == |times|
            && (after.openedAt.Some? <==> |times| >= b.threshold)
            && (|times| >= b.threshold ==> after.openedAt == Some(times[|times| - 1]))
            && after.threshold == b.threshold
  {
    if times != [] { OpensAtThreshold(b, times[..|times| - 1]); }
  }

  // What happens to one provider name. A request asks to call it; a call ends in failure, in success, or is
  // abandoned: a cancelled call passes the breaker by, because a cancellation is not an Exception.
  // Calls may overlap, since several requests can be awaiting the same provider.
  datatype Event = Ask(at: real) | Fail(at: real) | Succeed(at: real) | Abandon(at: real)
  datatype Trace = Trace(breaker: Breaker, inFlight: nat, calls: nat, abandoned: nat)

  function Step(t: Trace, e: Event): Trace {
    match e
    case Ask(now) =>
      if Recovered(t.breaker, now)
      then t.(breaker := AfterAllow(t.breaker, now), inFlight := t.inFlight + 1, calls := t.calls + 1) else t
    case Fail(now) =>
      if t.inFlight == 0 then t else t.(breaker := AfterFailure(t.breaker, now), inFlight := t.inFlight - 1)
    case Succeed(now) =>
      if t.inFlight == 0 then t else t.(breaker := Reset(t.breaker), inFlight := t.inFlight - 1)
    case Abandon(now) =>
      if t.inFlight == 0 then t else t.(inFlight := t.inFlight - 1, abandoned := t.abandoned + 1)
  }

  function Run(t: Trace, events: seq<Event>): Trace {
    if events == [] then t else Step(Run(t, events[..|events| - 1]), events[|events| - 1])
  }

  ghost predicate InOrder(start: real, events: seq<Event>) {
    && (forall i :: 0 <= i < |events| ==> start <= events[i].at)
    && (forall i, j :: 0 <= i < j < |events| ==> events[i].at <= events[j].at)
  }

  ghost predicate NoSuccess(events: seq<Event>) {
    forall i :: 0 <= i < |events| ==> !events[i].Succeed?
  }

  ghost predicate NoneAbandoned(events: seq<Event>) {
    forall i :: 0 <= i < |events| ==> !events[i].Abandon?
  }

  // At no moment are more than `limit` calls under way.
  ghost predicate AtMostInFlight(t: Trace, events: seq<Event>, limit: nat) {
    forall i :: 0 <= i <= |events| ==> Run(t, events[..i]).inFlight <= limit
  }

  // A breaker as it can be when a stretch of time begins.
  predicate Plausible(t: Trace, start: real) {
    && t.breaker.threshold >= 1 && t.breaker.recovery > 0.0 && t.breaker.failures >= 0
    && t.calls == 0 && t.abandoned == 0
    && (t.breaker.openedAt.None? ==> t.breaker.failures < t.breaker.threshold)
    && (t.breaker.openedAt.Some? ==> t.breaker.openedAt.value <= start)
  }

  // A stretch of time without success, with a limit on overlapping calls.
  ghost predicate Failing(t: Trace, start: real, events: seq<Event>, limit: nat) {
    Plausible(t, start) && InOrder(start, events) && NoSuccess(events) && AtMostInFlight(t, events, limit)
  }

  function Last(start: real, events: seq<Event>): real {
    if events == [] then start else events[|events| - 1].at
  }

  lemma {:induction false} ParametersStay(t: Trace, events: seq<Event>)
    ensures Run(t, events).breaker.threshold == t.breaker.threshold
    ensures Run(t, events).breaker.recovery == t.breaker.recovery
  {
    if events != [] { ParametersStay(t, events[..|events| - 1]); }
  }

  lemma FinalInFlight(t: Trace, events: seq<Event>, limit: nat)
    requires AtMostInFlight(t, events, limit)
    ensures Run(t, events).inFlight <= limit
  {
    assert events[..|events|] == events;
    assert Run(t, events[..|events|]).inFlight <= limit;
  }

  lemma {:induction false} NoneAbandonedCounts(t: Trace, events: seq<Event>)
    requires NoneAbandoned(events)
    ensures Run(t, events).abandoned == t.abandoned
  {
    if events != [] {
      var init := events[..|events| - 1];
      assert forall i :: 0 <= i < |init| ==> init[i] == events[i];
      NoneAbandonedCounts(t, init);
    }
  }

  // A call is only ever started while the breaker is closed or has recovered.
  lemma NoCallWhileOpen(t: Trace, now: real)
    ensures Step(t, Ask(now)).calls > t.calls <==>
            t.breaker.openedAt.None? || now - t.breaker.openedAt.value >= t.breaker.recovery
  {
  }

  // --- histories put together ---

  lemma {:induction false} RunConcat(t: Trace, a: seq<Event>, b: seq<Event>)
    ensures Run(t, a + b) == Run(Run(t, a), b)
  {
    if b == [] {
      assert a + b == a;
    } else {
      RunConcat(t, a, b[..|b| - 1]);
      assert (a + b)[..|a + b| - 1] == a + b[..|b| - 1];
    }
  }

  lemma InFlightConcat(t: Trace, a: seq<Event>, b: seq<Event>, limit: nat)
    requires AtMostInFlight(t, a, limit) && AtMostInFlight(Run(t, a), b, limit)
    ensures AtMostInFlight(t, a + b, limit)
  {
    forall i | 0 <= i <= |a + b| ensures Run(t, (a + b)[..i]).inFlight <= limit {
      if i <= |a| {
        assert (a + b)[..i] == a[..i];
        assert Run(t, a[..i]).inFlight <= limit;
      } else {
        assert (a + b)[..i] == a + b[..i - |a|];
        RunConcat(t, a, b[..i - |a|]);
        assert Run(Run(t, a), b[..i - |a|]).inFlight <= limit;
      }
    }
  }

  // The events lead from t to u and never have more than `limit` calls under way.
  ghost predicate Leads(t: Trace, events: seq<Event>, u: Trace, limit: nat) {
    Run(t, events) == u && AtMostInFlight(t, events, limit)
  }

  lemma LeadsNowhere(t: Trace, limit: nat)
    requires t.inFlight <= limit
    ensures Leads(t, [], t, limit)
  {
    var none: seq<Event> := [];
    assert none[..0] == none;
  }

  lemma LeadsOn(t: Trace, a: seq<Event>, u: Trace, b: seq<Event>, v: Trace, limit: nat)
    requires Leads(t, a, u, limit) && Leads(u, b, v, limit)
    ensures Leads(t, a + b, v, limit)
  {
    RunConcat(t, a, b);
    InFlightConcat(t, a, b, limit);
  }

  lemma OneEvent(t: Trace, e: Event, limit: nat)
    requires t.inFlight <= limit && Step(t, e).inFlight <= limit
    ensures Leads(t, [e], Step(t, e), limit)
  {
    assert [e][..0] == [] && [e][..1] == [e];
    assert Run(t, [e]) == Step(Run(t, []), e);
    forall i | 0 <= i <= 1 ensures Run(t, [e][..i]).inFlight <= limit {}
  }

  lemma LeadsByOne(t: Trace, a: seq<Event>, u: Trace, e: Event, limit: nat)
    requires Leads(t, a, u, limit) && u.inFlight <= limit && Step(u, e).inFlight <= limit
    ensures Leads(t, a + [e], Step(u, e), limit)
  {
    OneEvent(u, e, limit);
    LeadsOn(t, a, u, [e], Step(u, e), limit);
  }
}
