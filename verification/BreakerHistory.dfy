/** When a breaker refuses, in terms of the calls that have ended. */
module BreakerHistory {
  import opened CircuitBreaker

  predicate Ends(t: Trace, e: Event) {
    t.inFlight > 0 && (e.Fail? || e.Succeed?)
  }

  // The calls that ended, well or badly; cancelled ones are left out.
  ghost function Endings(t: Trace, events: seq<Event>): seq<Event> {
    if events == [] then []
    else
      var init, last := events[..|events| - 1], events[|events| - 1];
      Endings(t, init) + if Ends(Run(t, init), last) then [last] else []
  }

  ghost predicate LastFailed(endings: seq<Event>, n: int) {
    n <= |endings| && forall i :: |endings| - n <= i < |endings| && 0 <= i ==> endings[i].Fail?
  }

  // The failures counted are the last endings, and an open breaker was opened by the last of them.
  ghost predicate Counted(b: Breaker, endings: seq<Event>) {
    && 0 <= b.failures && LastFailed(endings, b.failures)
    && (b.openedAt.Some? <==> b.failures >= b.threshold)
    && (b.openedAt.Some? ==> endings != [] && b.openedAt.value == endings[|endings| - 1].at)
  }

  lemma StepStaysCounted(t: Trace, e: Event, endings: seq<Event>)
    requires t.breaker.threshold >= 1 && Counted(t.breaker, endings)
    ensures Counted(Step(t, e).breaker, endings + if Ends(t, e) then [e] else [])
  {
    if !Ends(t, e) { assert endings + [] == endings; }
  }

  lemma {:induction false} RunStaysCounted(t: Trace, events: seq<Event>)
    requires t.breaker.threshold >= 1 && t.breaker.failures == 0 && t.breaker.openedAt.None?
    ensures Counted(Run(t, events).breaker, Endings(t, events))
  {
    if events != [] {
      var init := events[..|events| - 1];
      RunStaysCounted(t, init);
      ParametersStay(t, init);
      StepStaysCounted(Run(t, init), events[|events| - 1], Endings(t, init));
    }
  }

  // The last `threshold` calls that ended have failed, the last one less than the recovery time ago.
  ghost predicate KeepsFailing(endings: seq<Event>, threshold: int, recovery: real, now: real) {
    && 1 <= threshold <= |endings| && (forall i :: |endings| - threshold <= i < |endings| ==> endings[i].Fail?)
    && now - endings[|endings| - 1].at < recovery
  }

  lemma RefusesMeans(b: Breaker, endings: seq<Event>, now: real)
    requires b.threshold >= 1 && Counted(b, endings) && !Recovered(b, now)
    ensures KeepsFailing(endings, b.threshold, b.recovery, now)
  {
  }

  // A provider is refused only if the last `threshold` calls that ended have failed, the last one less than the
  // recovery time ago: one success closes the breaker and starts the count anew.
  lemma RefusedOnlyAfterFailures(t: Trace, events: seq<Event>, now: real)
    requires t.breaker.threshold >= 1 && t.breaker.failures == 0 && t.breaker.openedAt.None?
    requires !Recovered(Run(t, events).breaker, now)
    ensures KeepsFailing(Endings(t, events), t.breaker.threshold, t.breaker.recovery, now)
  {
    RunStaysCounted(t, events);
    ParametersStay(t, events);
    RefusesMeans(Run(t, events).breaker, Endings(t, events), now);
  }

  // --- and when it must refuse ---

  ghost predicate Ordered(endings: seq<Event>, latest: real) {
    && (forall i :: 0 <= i < |endings| ==> endings[i].at <= latest)
    && (forall i, j :: 0 <= i < j < |endings| ==> endings[i].at <= endings[j].at)
  }

  lemma InOrderPrefix(start: real, events: seq<Event>)
    requires InOrder(start, events) && events != []
    ensures InOrder(start, events[..|events| - 1])
    ensures Last(start, events[..|events| - 1]) <= events[|events| - 1].at
  {
  }

  lemma {:induction false} EndingsAreOrdered(t: Trace, start: real, events: seq<Event>)
    requires InOrder(start, events)
    ensures Ordered(Endings(t, events), Last(start, events))
  {
    if events != [] {
      InOrderPrefix(start, events);
      EndingsAreOrdered(t, start, events[..|events| - 1]);
    }
  }

  // The last n endings have failed, the first of them less than the recovery time before `now`.
  ghost predicate RecentFailures(endings: seq<Event>, n: nat, now: real, recovery: real) {
    LastFailed(endings, n) && (0 < n <= |endings| ==> now - endings[|endings| - n].at < recovery)
  }

  lemma StepCountsRecent(t: Trace, e: Event, endings: seq<Event>, n: nat)
    requires Counted(t.breaker, endings) && Ordered(endings, e.at)
    requires RecentFailures(endings + if Ends(t, e) then [e] else [], n, e.at, t.breaker.recovery)
    requires forall m: nat :: RecentFailures(endings, m, e.at, t.breaker.recovery) ==> m <= t.breaker.failures
    ensures n <= Step(t, e).breaker.failures
  {
    if Ends(t, e) {
      if n > 0 {
        var more := endings + [e];
        assert forall i :: 0 <= i < |endings| ==> more[i] == endings[i];
        assert more[|endings|] == e;
        assert RecentFailures(endings, n - 1, e.at, t.breaker.recovery);
      }
    } else {
      assert endings + [] == endings;
    }
  }

  lemma {:induction false} RunCountsRecent(t: Trace, start: real, events: seq<Event>, n: nat, now: real)
    requires t.breaker.threshold >= 1 && t.breaker.failures == 0 && t.breaker.openedAt.None?
    requires InOrder(start, events) && Last(start, events) <= now
    requires RecentFailures(Endings(t, events), n, now, t.breaker.recovery)
    ensures n <= Run(t, events).breaker.failures
  {
    if events != [] {
      var init, last := events[..|events| - 1], events[|events| - 1];
      var before, b := Endings(t, init), Run(t, init).breaker;
      InOrderPrefix(start, events);
      RunStaysCounted(t, init);
      ParametersStay(t, init);
      EndingsAreOrdered(t, start, init);
      forall m: nat | RecentFailures(before, m, last.at, t.breaker.recovery) ensures m <= b.failures {
        RunCountsRecent(t, start, init, m, last.at);
      }
      StepCountsRecent(Run(t, init), last, before, n);
    }
  }

  // As many failures in a row within the recovery time leave no way through.
  lemma RefusedAfterRecentFailures(t: Trace, start: real, events: seq<Event>, now: real)
    requires t.breaker.threshold >= 1 && t.breaker.failures == 0 && t.breaker.openedAt.None?
    requires InOrder(start, events) && Last(start, events) <= now
    requires RecentFailures(Endings(t, events), t.breaker.threshold, now, t.breaker.recovery)
    ensures !Recovered(Run(t, events).breaker, now)
  {
    RunCountsRecent(t, start, events, t.breaker.threshold, now);
    RunStaysCounted(t, events);
    ParametersStay(t, events);
    EndingsAreOrdered(t, start, events);
    OpenIsRefused(Run(t, events).breaker, Endings(t, events), Last(start, events), now);
  }

  lemma OpenIsRefused(b: Breaker, endings: seq<Event>, latest: real, now: real)
    requires b.threshold >= 1 && Counted(b, endings) && b.failures >= b.threshold && Ordered(endings, latest)
    requires RecentFailures(endings, b.threshold, now, b.recovery)
    ensures !Recovered(b, now)
  {
  }
}
