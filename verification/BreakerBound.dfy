/** How often a breaker lets a failing provider be called: the bound, that it is reached, and what it needs. */
module BreakerBound {
  import opened Common
  import opened CircuitBreaker

  // How many calls one closed period can start: all but the last find fewer than `threshold` failures.
  function PerPeriod(b: Breaker, limit: nat): int {
    b.threshold - 1 + limit
  }

  // How many closed periods are over, how many calls they may have started, and the earliest time
  // at which the current one can have begun.
  datatype Account = Account(periods: int, credit: int, due: real)

  function NextPeriod(a: Account, per: int, recovery: real): Account {
    Account(a.periods + 1, a.credit + per, a.due + recovery)
  }

  ghost predicate Bounded(t: Trace, start: real, now: real, limit: nat, a: Account) {
    && a.periods >= -1 && t.breaker.failures >= 0 && (a.periods == -1 ==> a.due == start - t.breaker.recovery)
    && match t.breaker.openedAt
       case None =>
         && a.periods >= 0 && a.due <= now && t.breaker.failures < t.breaker.threshold
         && t.calls <= a.credit + t.breaker.failures + t.inFlight + t.abandoned
       case Some(at) =>
         && at <= now && (a.periods >= 0 ==> a.due <= at)
         && t.calls <= a.credit + PerPeriod(t.breaker, limit) + t.abandoned
  }

  function AccountAfter(t: Trace, e: Event, limit: nat, a: Account): Account {
    if e.Ask? && t.breaker.openedAt.Some? && Recovered(t.breaker, e.at)
    then NextPeriod(a, PerPeriod(t.breaker, limit), t.breaker.recovery) else a
  }

  lemma StepStaysBounded(t: Trace, e: Event, start: real, now: real, limit: nat, a: Account)
    requires t.breaker.threshold >= 1 && t.breaker.recovery > 0.0 && start <= now <= e.at && !e.Succeed?
    requires Bounded(t, start, now, limit, a) && t.inFlight <= limit && Step(t, e).inFlight <= limit
    ensures Bounded(Step(t, e), start, e.at, limit, AccountAfter(t, e, limit, a))
  {
  }

  // The account is what its number of periods says.
  ghost predicate Balanced(a: Account, per: int, start: real, recovery: real) {
    a.credit == a.periods * per && a.due == start + a.periods as real * recovery
  }

  lemma NextIsBalanced(a: Account, per: int, start: real, recovery: real)
    requires Balanced(a, per, start, recovery)
    ensures Balanced(NextPeriod(a, per, recovery), per, start, recovery)
  {
    assert (a.periods + 1) * per == a.periods * per + per;
    assert (a.periods + 1) as real * recovery == a.periods as real * recovery + recovery;
  }

  lemma PrefixFails(t: Trace, start: real, events: seq<Event>, limit: nat)
    requires Failing(t, start, events, limit) && events != []
    ensures Failing(t, start, events[..|events| - 1], limit)
  {
    var init := events[..|events| - 1];
    forall i | 0 <= i <= |init| ensures Run(t, init[..i]).inFlight <= limit {
      assert init[..i] == events[..i];
      assert Run(t, events[..i]).inFlight <= limit;
    }
  }

  lemma {:induction false} RunStaysBounded(t: Trace, start: real, events: seq<Event>, limit: nat) returns (a: Account)
    requires Failing(t, start, events, limit)
    ensures Bounded(Run(t, events), start, Last(start, events), limit, a)
    ensures Balanced(a, PerPeriod(t.breaker, limit), start, t.breaker.recovery)
  {
    var per := PerPeriod(t.breaker, limit);
    if events == [] {
      a := if t.breaker.openedAt.Some? then Account(-1, -per, start - t.breaker.recovery) else Account(0, 0, start);
    } else {
      var init, last := events[..|events| - 1], events[|events| - 1];
      PrefixFails(t, start, events, limit);
      var b := RunStaysBounded(t, start, init, limit);
      FinalInFlight(t, init, limit);
      FinalInFlight(t, events, limit);
      ParametersStay(t, init);
      StepStaysBounded(Run(t, init), last, start, Last(start, init), limit, b);
      NextIsBalanced(b, per, start, t.breaker.recovery);
      a := AccountAfter(Run(t, init), last, limit, b);
    }
  }

  lemma DivideBound(periods: int, elapsed: real, recovery: real)
    requires recovery > 0.0 && periods as real * recovery <= elapsed
    ensures periods <= (elapsed / recovery).Floor
  {
    assert periods as real == periods as real * recovery / recovery <= elapsed / recovery;
  }

  lemma TimesGrows(a: int, b: int, per: int)
    requires a <= b && per >= 0
    ensures a * per <= per * b
  {
    assert (b - a) * per >= 0;
  }

  // With one call at a time this is threshold * (floor(elapsed / recovery) + 1).
  function CallBudget(b: Breaker, limit: nat, elapsed: real): int
    requires b.recovery > 0.0
  {
    PerPeriod(b, limit) * ((elapsed / b.recovery).Floor + 1)
  }

  lemma BalancedWithinBudget(b: Breaker, limit: nat, a: Account, start: real, elapsed: real)
    requires b.recovery > 0.0 && b.threshold >= 1 && elapsed >= 0.0 && a.periods >= -1
    requires Balanced(a, PerPeriod(b, limit), start, b.recovery) && (a.periods >= 0 ==> a.due - start <= elapsed)
    ensures a.credit + PerPeriod(b, limit) <= CallBudget(b, limit, elapsed)
  {
    var per, n := PerPeriod(b, limit), if a.periods >= 0 then a.periods else 0;
    assert (a.periods + 1) * per == a.periods * per + per;
    assert n as real * b.recovery <= elapsed;
    DivideBound(n, elapsed, b.recovery);
    TimesGrows(a.periods + 1, (elapsed / b.recovery).Floor + 1, per);
  }

  // In a stretch without success the number of calls grows with elapsed time divided by the recovery time,
  // and with the number of calls that were abandoned, which no breaker counts.
  lemma CallRateBound(t: Trace, start: real, events: seq<Event>, limit: nat)
    requires Failing(t, start, events, limit)
    ensures Run(t, events).calls <= CallBudget(t.breaker, limit, Last(start, events) - start) + Run(t, events).abandoned
  {
    var a := RunStaysBounded(t, start, events, limit);
    ParametersStay(t, events);
    FinalInFlight(t, events, limit);
    assert Run(t, events).calls <= a.credit + PerPeriod(t.breaker, limit) + Run(t, events).abandoned;
    BalancedWithinBudget(t.breaker, limit, a, start, Last(start, events) - start);
  }

  lemma CallRateBoundWithoutAbandons(t: Trace, start: real, events: seq<Event>, limit: nat)
    requires Failing(t, start, events, limit) && NoneAbandoned(events)
    ensures Run(t, events).calls <= CallBudget(t.breaker, limit, Last(start, events) - start)
  {
    CallRateBound(t, start, events, limit);
    NoneAbandonedCounts(t, events);
  }

  // The time after n steps of the same length.
  function StartOf(n: nat, step: real): real {
    if n == 0 then 0.0 else StartOf(n - 1, step) + step
  }

  lemma {:induction false} StartIsProduct(n: nat, step: real)
    requires step >= 0.0
    ensures StartOf(n, step) == n as real * step && StartOf(n, step) >= 0.0
  {
    if n > 0 {
      StartIsProduct(n - 1, step);
      assert n as real * step == (n - 1) as real * step + step;
    }
  }

  // --- abandoned calls are not bounded ---

  // One request after another, each cancelled `pause` after it asked.
  function Abandons(n: nat, pause: real): seq<Event> {
    if n == 0 then []
    else Abandons(n - 1, pause) + [Ask(StartOf(n - 1, pause))] + [Abandon(StartOf(n, pause))]
  }

  lemma {:induction false} AbandonsLead(b: Breaker, n: nat, pause: real, limit: nat)
    requires b.openedAt.None? && limit >= 1
    ensures Leads(Trace(b, 0, 0, 0), Abandons(n, pause), Trace(b, 0, n, n), limit)
  {
    var t := Trace(b, 0, 0, 0);
    if n == 0 {
      LeadsNowhere(t, limit);
    } else {
      AbandonsLead(b, n - 1, pause, limit);
      var before, ask, end := Abandons(n - 1, pause), Ask(StartOf(n - 1, pause)), Abandon(StartOf(n, pause));
      LeadsByOne(t, before, Trace(b, 0, n - 1, n - 1), ask, limit);
      LeadsByOne(t, before + [ask], Trace(b, 1, n, n - 1), end, limit);
    }
  }

  lemma {:induction false} AbandonsInOrder(n: nat, pause: real)
    requires pause >= 0.0
    ensures InOrder(0.0, Abandons(n, pause)) && NoSuccess(Abandons(n, pause))
    ensures Last(0.0, Abandons(n, pause)) == StartOf(n, pause) >= 0.0
  {
    if n > 0 {
      AbandonsInOrder(n - 1, pause);
      OneLater(Abandons(n - 1, pause), Ask(StartOf(n - 1, pause)));
      OneLater(Abandons(n - 1, pause) + [Ask(StartOf(n - 1, pause))], Abandon(StartOf(n, pause)));
    }
  }

  lemma OneLater(events: seq<Event>, e: Event)
    requires InOrder(0.0, events) && NoSuccess(events) && Last(0.0, events) <= e.at && !e.Succeed?
    ensures InOrder(0.0, events + [e]) && NoSuccess(events + [e]) && Last(0.0, events + [e]) == e.at
  {
  }

  // All n of them call the failing provider, and a closed breaker notices nothing.
  lemma AbandonsAreUnlimited(b: Breaker, n: nat, pause: real)
    requires b.threshold >= 1 && b.recovery > 0.0 && 0 <= b.failures < b.threshold && b.openedAt.None? && pause >= 0.0
    ensures var t, events := Trace(b, 0, 0, 0), Abandons(n, pause);
            && Failing(t, 0.0, events, 1) && Last(0.0, events) == n as real * pause
            && Run(t, events) == Trace(b, 0, n, n)
  {
    AbandonsLead(b, n, pause, 1);
    AbandonsInOrder(n, pause);
    StartIsProduct(n, pause);
  }

  // --- the bound is reached ---

  function Pairs(at: real, n: nat): seq<Event> {
    if n == 0 then [] else Pairs(at, n - 1) + [Ask(at)] + [Fail(at)]
  }

  function Asks(at: real, n: nat): seq<Event> {
    if n == 0 then [] else Asks(at, n - 1) + [Ask(at)]
  }

  function Fails(at: real, n: nat): seq<Event> {
    if n == 0 then [] else Fails(at, n - 1) + [Fail(at)]
  }

  // All but one failure, one call after the other; then `limit` calls at once, which all fail.
  function Period(threshold: nat, limit: nat, at: real): seq<Event>
    requires threshold >= 1
  {
    Pairs(at, threshold - 1) + Asks(at, limit) + Fails(at, limit)
  }

  function Periods(threshold: nat, limit: nat, recovery: real, n: nat): seq<Event>
    requires threshold >= 1
  {
    if n == 0 then Period(threshold, limit, 0.0)
    else Periods(threshold, limit, recovery, n - 1) + Period(threshold, limit, StartOf(n, recovery))
  }

  ghost predicate AllAt(events: seq<Event>, at: real) {
    forall i :: 0 <= i < |events| ==> events[i].at == at && !events[i].Succeed? && !events[i].Abandon?
  }

  lemma {:induction false} PartsAreAt(at: real, n: nat)
    ensures AllAt(Pairs(at, n), at) && AllAt(Asks(at, n), at) && AllAt(Fails(at, n), at)
  {
    if n > 0 { PartsAreAt(at, n - 1); }
  }

  function WithFailures(t: Trace, failures: int, openedAt: Option<real>): Trace {
    t.(breaker := t.breaker.(failures := failures, openedAt := openedAt))
  }

  lemma {:induction false} RunPairs(t: Trace, at: real, n: nat, limit: nat)
    requires t.breaker.openedAt.None? && t.breaker.failures + n < t.breaker.threshold && t.inFlight == 0 && limit >= 1
    ensures Leads(t, Pairs(at, n), WithFailures(t, t.breaker.failures + n, None).(calls := t.calls + n), limit)
  {
    if n == 0 {
      LeadsNowhere(t, limit);
    } else {
      RunPairs(t, at, n - 1, limit);
      var s := WithFailures(t, t.breaker.failures + n - 1, None).(calls := t.calls + n - 1);
      LeadsByOne(t, Pairs(at, n - 1), s, Ask(at), limit);
      LeadsByOne(t, Pairs(at, n - 1) + [Ask(at)], Step(s, Ask(at)), Fail(at), limit);
    }
  }

  lemma {:induction false} RunAsks(t: Trace, at: real, n: nat, limit: nat)
    requires t.breaker.openedAt.None? && t.inFlight + n <= limit
    ensures Leads(t, Asks(at, n), t.(inFlight := t.inFlight + n, calls := t.calls + n), limit)
  {
    if n == 0 {
      LeadsNowhere(t, limit);
    } else {
      RunAsks(t, at, n - 1, limit);
      LeadsByOne(t, Asks(at, n - 1), t.(inFlight := t.inFlight + n - 1, calls := t.calls + n - 1), Ask(at), limit);
    }
  }

  lemma {:induction false} RunFails(t: Trace, at: real, n: nat, limit: nat)
    requires n <= t.inFlight <= limit && t.breaker.failures + 1 >= t.breaker.threshold
    ensures var openedAt := if n > 0 then Some(at) else t.breaker.openedAt;
            Leads(t, Fails(at, n),
                  WithFailures(t, t.breaker.failures + n, openedAt).(inFlight := t.inFlight - n), limit)
  {
    if n == 0 {
      LeadsNowhere(t, limit);
    } else {
      RunFails(t, at, n - 1, limit);
      var openedAt := if n > 1 then Some(at) else t.breaker.openedAt;
      var s := WithFailures(t, t.breaker.failures + n - 1, openedAt).(inFlight := t.inFlight - (n - 1));
      OneMoreFailure(t, n, openedAt, at);
      LeadsByOne(t, Fails(at, n - 1), s, Fail(at), limit);
    }
  }

  lemma OneMoreFailure(t: Trace, n: nat, openedAt: Option<real>, at: real)
    requires 0 < n <= t.inFlight && t.breaker.failures + 1 >= t.breaker.threshold
    ensures Step(WithFailures(t, t.breaker.failures + n - 1, openedAt).(inFlight := t.inFlight - (n - 1)), Fail(at))
         == WithFailures(t, t.breaker.failures + n, Some(at)).(inFlight := t.inFlight - n)
  {
  }

  // A breaker that has recovered behaves like one that was reset.
  lemma StartsFresh(t: Trace, events: seq<Event>, v: Trace, limit: nat)
    requires events != [] && events[0].Ask? && Recovered(t.breaker, events[0].at) && t.inFlight == 0
    requires t.breaker.openedAt.None? ==> t.breaker.failures == 0
    requires Leads(t.(breaker := Reset(t.breaker)), events, v, limit)
    ensures Leads(t, events, v, limit)
  {
    var u := t.(breaker := Reset(t.breaker));
    assert Step(t, events[0]) == Step(u, events[0]);
    SameFromSecond(t, u, events);
    forall i | 0 <= i <= |events| ensures Run(t, events[..i]).inFlight <= limit {
      assert Run(u, events[..i]).inFlight <= limit;
      if i > 0 { SameFromSecond(t, u, events[..i]); }
    }
  }

  lemma {:induction false} SameFromSecond(t: Trace, u: Trace, events: seq<Event>)
    requires events != [] && Step(t, events[0]) == Step(u, events[0])
    ensures Run(t, events) == Run(u, events)
  {
    var init := events[..|events| - 1];
    if init == [] {
      assert Run(t, init) == t && Run(u, init) == u;
    } else {
      SameFromSecond(t, u, init);
    }
  }

  lemma PeriodStartsWithAsk(threshold: nat, limit: nat, at: real)
    requires threshold >= 1 && limit >= 1
    ensures Period(threshold, limit, at) != [] && Period(threshold, limit, at)[0] == Ask(at)
  {
    FirstIsAsk(at, threshold - 1);
    FirstIsAsk(at, limit);
  }

  lemma {:induction false} FirstIsAsk(at: real, n: nat)
    ensures n > 0 ==> Pairs(at, n) != [] && Pairs(at, n)[0] == Ask(at) && Asks(at, n) != [] && Asks(at, n)[0] == Ask(at)
  {
    if n > 0 { FirstIsAsk(at, n - 1); }
  }

  function PeriodEnd(t: Trace, limit: nat, at: real): Trace
    requires t.breaker.threshold >= 1
  {
    WithFailures(t, PerPeriod(t.breaker, limit), Some(at)).(calls := t.calls + PerPeriod(t.breaker, limit))
  }

  lemma RunFreshPeriod(t: Trace, limit: nat, at: real)
    requires t.breaker.threshold >= 1 && limit >= 1 && t.inFlight == 0
    requires t.breaker.openedAt.None? && t.breaker.failures == 0
    ensures Leads(t, Period(t.breaker.threshold, limit, at), PeriodEnd(t, limit, at), limit)
  {
    var k := t.breaker.threshold;
    RunPairs(t, at, k - 1, limit);
    var u := WithFailures(t, k - 1, None).(calls := t.calls + k - 1);
    RunAsks(u, at, limit, limit);
    var v := u.(inFlight := limit, calls := t.calls + k - 1 + limit);
    LeadsOn(t, Pairs(at, k - 1), u, Asks(at, limit), v, limit);
    RunFails(v, at, limit, limit);
    LeadsOn(t, Pairs(at, k - 1) + Asks(at, limit), v, Fails(at, limit), PeriodEnd(t, limit, at), limit);
  }

  lemma RunPeriod(t: Trace, limit: nat, at: real)
    requires t.breaker.threshold >= 1 && limit >= 1 && t.inFlight == 0 && Recovered(t.breaker, at)
    requires t.breaker.openedAt.None? ==> t.breaker.failures == 0
    ensures Leads(t, Period(t.breaker.threshold, limit, at), PeriodEnd(t, limit, at), limit)
  {
    RunFreshPeriod(t.(breaker := Reset(t.breaker)), limit, at);
    PeriodStartsWithAsk(t.breaker.threshold, limit, at);
    StartsFresh(t, Period(t.breaker.threshold, limit, at), PeriodEnd(t, limit, at), limit);
  }

  function CallsAfter(n: nat, per: nat): nat {
    if n == 0 then per else CallsAfter(n - 1, per) + per
  }

  lemma {:induction false} CallsAreProduct(n: nat, per: nat)
    ensures CallsAfter(n, per) == per * (n + 1)
  {
    if n > 0 { CallsAreProduct(n - 1, per); }
  }

  // The trace after period n.
  function After(threshold: nat, limit: nat, recovery: real, n: nat): Trace
    requires threshold >= 1
  {
    var per: nat := threshold - 1 + limit;
    Trace(Breaker(threshold, recovery, per, Some(StartOf(n, recovery))), 0, CallsAfter(n, per), 0)
  }

  lemma AddPeriod(t: Trace, before: seq<Event>, s: Trace, limit: nat, at: real)
    requires s.breaker.threshold >= 1 && limit >= 1 && s.inFlight == 0 && Leads(t, before, s, limit)
    requires s.breaker.openedAt.Some? && at == s.breaker.openedAt.value + s.breaker.recovery
    ensures Leads(t, before + Period(s.breaker.threshold, limit, at), PeriodEnd(s, limit, at), limit)
  {
    RunPeriod(s, limit, at);
    LeadsOn(t, before, s, Period(s.breaker.threshold, limit, at), PeriodEnd(s, limit, at), limit);
  }

  lemma {:induction false} RunPeriods(threshold: nat, limit: nat, recovery: real, n: nat)
    requires threshold >= 1 && limit >= 1 && recovery > 0.0
    ensures Leads(Trace(Breaker(threshold, recovery, 0, None), 0, 0, 0), Periods(threshold, limit, recovery, n),
                  After(threshold, limit, recovery, n), limit)
  {
    var t := Trace(Breaker(threshold, recovery, 0, None), 0, 0, 0);
    if n == 0 {
      RunPeriod(t, limit, 0.0);
    } else {
      RunPeriods(threshold, limit, recovery, n - 1);
      AddPeriod(t, Periods(threshold, limit, recovery, n - 1), After(threshold, limit, recovery, n - 1), limit,
                StartOf(n, recovery));
    }
  }

  ghost predicate QuietUntil(events: seq<Event>, end: real) {
    && InOrder(0.0, events) && NoSuccess(events) && NoneAbandoned(events)
    && (forall i :: 0 <= i < |events| ==> events[i].at <= end)
    && events != [] && events[|events| - 1].at == end
  }

  lemma QuietConcat(a: seq<Event>, b: seq<Event>, end: real, at: real)
    requires QuietUntil(a, end) && AllAt(b, at) && b != [] && 0.0 <= end <= at
    ensures QuietUntil(a + b, at)
  {
  }

  lemma AllAtIsQuiet(events: seq<Event>, at: real)
    requires AllAt(events, at) && events != [] && at == 0.0
    ensures QuietUntil(events, at)
  {
  }

  lemma PeriodIsAt(threshold: nat, limit: nat, at: real)
    requires threshold >= 1 && limit >= 1
    ensures AllAt(Period(threshold, limit, at), at) && Period(threshold, limit, at) != []
  {
    PartsAreAt(at, threshold - 1);
    PartsAreAt(at, limit);
    PeriodStartsWithAsk(threshold, limit, at);
  }

  lemma {:induction false} PeriodsAreQuiet(threshold: nat, limit: nat, recovery: real, n: nat)
    requires threshold >= 1 && limit >= 1 && recovery > 0.0
    ensures QuietUntil(Periods(threshold, limit, recovery, n), StartOf(n, recovery)) && StartOf(n, recovery) >= 0.0
  {
    var start := StartOf(n, recovery);
    PeriodIsAt(threshold, limit, start);
    if n > 0 {
      var before, earlier := Periods(threshold, limit, recovery, n - 1), StartOf(n - 1, recovery);
      PeriodsAreQuiet(threshold, limit, recovery, n - 1);
      assert start == earlier + recovery;
      QuietConcat(before, Period(threshold, limit, start), earlier, start);
    } else {
      AllAtIsQuiet(Period(threshold, limit, start), start);
    }
  }

  lemma DivideExactly(n: nat, recovery: real)
    requires recovery > 0.0
    ensures (n as real * recovery / recovery).Floor == n
  {
    assert n as real * recovery / recovery == n as real;
  }

  // For every threshold, recovery time, limit and number of periods some history without any abandoned call
  // starts exactly as many calls as the bound allows.
  lemma BudgetIsReached(threshold: nat, recovery: real, limit: nat, n: nat) returns (events: seq<Event>)
    requires threshold >= 1 && limit >= 1 && recovery > 0.0
    ensures var t := Trace(Breaker(threshold, recovery, 0, None), 0, 0, 0);
            && Failing(t, 0.0, events, limit) && NoneAbandoned(events)
            && Last(0.0, events) == n as real * recovery
            && Run(t, events).calls == CallBudget(t.breaker, limit, Last(0.0, events))
               == (threshold - 1 + limit) * (n + 1)
  {
    events := Periods(threshold, limit, recovery, n);
    RunPeriods(threshold, limit, recovery, n);
    PeriodsAreQuiet(threshold, limit, recovery, n);
    StartIsProduct(n, recovery);
    CallsAreProduct(n, threshold - 1 + limit);
    DivideExactly(n, recovery);
  }

  // --- with abandoned calls ---

  function Shifted(t: Trace, m: nat): Trace {
    t.(calls := t.calls + m, abandoned := t.abandoned + m)
  }

  lemma {:induction false} RunShifted(t: Trace, m: nat, events: seq<Event>)
    ensures Run(Shifted(t, m), events) == Shifted(Run(t, events), m)
  {
    if events != [] { RunShifted(t, m, events[..|events| - 1]); }
  }

  lemma LeadsShifted(t: Trace, m: nat, events: seq<Event>, u: Trace, limit: nat)
    requires Leads(t, events, u, limit)
    ensures Leads(Shifted(t, m), events, Shifted(u, m), limit)
  {
    RunShifted(t, m, events);
    forall i | 0 <= i <= |events| ensures Run(Shifted(t, m), events[..i]).inFlight <= limit {
      RunShifted(t, m, events[..i]);
      assert Run(t, events[..i]).inFlight <= limit;
    }
  }

  lemma {:induction false} AbandonsAtZero(m: nat)
    ensures StartOf(m, 0.0) == 0.0
    ensures forall i :: 0 <= i < |Abandons(m, 0.0)| ==>
              Abandons(m, 0.0)[i].at == 0.0 && !Abandons(m, 0.0)[i].Succeed?
  {
    if m > 0 { AbandonsAtZero(m - 1); }
  }

  lemma AfterZero(a: seq<Event>, b: seq<Event>, end: real)
    requires (forall i :: 0 <= i < |a| ==> a[i].at == 0.0 && !a[i].Succeed?) && QuietUntil(b, end)
    ensures InOrder(0.0, a + b) && NoSuccess(a + b) && Last(0.0, a + b) == end
  {
  }

  lemma AbandonsThenPeriods(threshold: nat, recovery: real, limit: nat, n: nat, m: nat)
    requires threshold >= 1 && limit >= 1 && recovery > 0.0
    ensures Leads(Trace(Breaker(threshold, recovery, 0, None), 0, 0, 0),
                  Abandons(m, 0.0) + Periods(threshold, limit, recovery, n),
                  Shifted(After(threshold, limit, recovery, n), m), limit)
  {
    var t, periods := Trace(Breaker(threshold, recovery, 0, None), 0, 0, 0), Periods(threshold, limit, recovery, n);
    AbandonsLead(t.breaker, m, 0.0, limit);
    RunPeriods(threshold, limit, recovery, n);
    LeadsShifted(t, m, periods, After(threshold, limit, recovery, n), limit);
    LeadsOn(t, Abandons(m, 0.0), Shifted(t, m), periods, Shifted(After(threshold, limit, recovery, n), m), limit);
  }

  // The term for abandoned calls is tight as well: with m of them the history starts m calls more.
  lemma BudgetAndAbandonsAreReached(threshold: nat, recovery: real, limit: nat, n: nat, m: nat)
    returns (events: seq<Event>)
    requires threshold >= 1 && limit >= 1 && recovery > 0.0
    ensures var t := Trace(Breaker(threshold, recovery, 0, None), 0, 0, 0);
            && Failing(t, 0.0, events, limit) && Last(0.0, events) == n as real * recovery
            && Run(t, events).abandoned == m
            && Run(t, events).calls == CallBudget(t.breaker, limit, Last(0.0, events)) + m
               == (threshold - 1 + limit) * (n + 1) + m
  {
    events := Abandons(m, 0.0) + Periods(threshold, limit, recovery, n);
    AbandonsThenPeriods(threshold, recovery, limit, n, m);
    AbandonsAtZero(m);
    PeriodsAreQuiet(threshold, limit, recovery, n);
    AfterZero(Abandons(m, 0.0), Periods(threshold, limit, recovery, n), StartOf(n, recovery));
    StartIsProduct(n, recovery);
    CallsAreProduct(n, threshold - 1 + limit);
    DivideExactly(n, recovery);
  }

  // threshold * (floor(elapsed / recovery) + 1).
  function ThresholdBudget(b: Breaker, elapsed: real): int
    requires b.recovery > 0.0
  {
    b.threshold * ((elapsed / b.recovery).Floor + 1)
  }

  // It bounds every stretch without success and with at most m abandoned calls.
  ghost predicate ThresholdBound(threshold: int, recovery: real, limit: nat, m: nat)
    requires recovery > 0.0
  {
    forall t, start, events :: Failing(t, start, events, limit) && Run(t, events).abandoned <= m
      && t.breaker.threshold == threshold && t.breaker.recovery == recovery
      ==> Run(t, events).calls <= ThresholdBudget(t.breaker, Last(start, events) - start)
  }

  // No call can start where none may be under way.
  lemma {:induction false} NothingStarts(t: Trace, start: real, events: seq<Event>)
    requires Failing(t, start, events, 0)
    ensures Run(t, events).calls == 0
  {
    if events != [] {
      var init, e := events[..|events| - 1], events[|events| - 1];
      PrefixFails(t, start, events, 0);
      NothingStarts(t, start, init);
      FinalInFlight(t, events, 0);
      if e.Ask? { NoCallWhileOpen(Run(t, init), e.at); }
    }
  }

  lemma BudgetOfOne(b: Breaker, elapsed: real)
    requires b.recovery > 0.0
    ensures CallBudget(b, 1, elapsed) == ThresholdBudget(b, elapsed)
  {
    assert PerPeriod(b, 1) == b.threshold;
  }

  lemma BudgetIsNatural(b: Breaker, elapsed: real)
    requires b.threshold >= 1 && b.recovery > 0.0 && elapsed >= 0.0
    ensures 0 <= ThresholdBudget(b, elapsed)
  {
    assert 0 as real * b.recovery == 0.0;
    DivideBound(0, elapsed, b.recovery);
    TimesGrows(0, (elapsed / b.recovery).Floor + 1, b.threshold);
  }

  lemma TimePasses(t: Trace, start: real, events: seq<Event>, limit: nat)
    requires Failing(t, start, events, limit)
    ensures Last(start, events) - start >= 0.0
  {
  }

  lemma CallsWithoutAny(t: Trace, start: real, events: seq<Event>)
    requires Failing(t, start, events, 0)
    ensures Run(t, events).calls <= ThresholdBudget(t.breaker, Last(start, events) - start)
  {
    NothingStarts(t, start, events);
    TimePasses(t, start, events, 0);
    BudgetIsNatural(t.breaker, Last(start, events) - start);
  }

  lemma CallsWhenAlone(t: Trace, start: real, events: seq<Event>)
    requires Failing(t, start, events, 1) && Run(t, events).abandoned == 0
    ensures Run(t, events).calls <= ThresholdBudget(t.breaker, Last(start, events) - start)
  {
    CallRateBound(t, start, events, 1);
    BudgetOfOne(t.breaker, Last(start, events) - start);
  }

  // It does exactly when no call can start, or when calls never overlap and none is abandoned.
  lemma ThresholdBoundIsExact(threshold: nat, recovery: real, limit: nat, m: nat)
    requires threshold >= 1 && recovery > 0.0
    ensures ThresholdBound(threshold, recovery, limit, m) <==> limit == 0 || (limit == 1 && m == 0)
  {
    if limit == 0 || (limit == 1 && m == 0) {
      forall t, start, events | Failing(t, start, events, limit) && Run(t, events).abandoned <= m
        && t.breaker.threshold == threshold && t.breaker.recovery == recovery
        ensures Run(t, events).calls <= ThresholdBudget(t.breaker, Last(start, events) - start)
      {
        if limit == 0 { CallsWithoutAny(t, start, events); } else { CallsWhenAlone(t, start, events); }
      }
    } else {
      BeyondThreshold(threshold, recovery, limit, m);
    }
  }

  lemma BeyondThreshold(threshold: nat, recovery: real, limit: nat, m: nat)
    requires threshold >= 1 && recovery > 0.0 && limit >= 1 && limit + m >= 2
    ensures !ThresholdBound(threshold, recovery, limit, m)
  {
    var t := Trace(Breaker(threshold, recovery, 0, None), 0, 0, 0);
    var events := BudgetAndAbandonsAreReached(threshold, recovery, limit, 0, m);
    assert 0 as real * recovery == 0.0;
    assert Last(0.0, events) - 0.0 == 0.0;
    assert (0.0 / recovery).Floor == 0;
    assert Run(t, events).calls == threshold - 1 + limit + m;
  }

  // The limit on overlapping calls is needed: n requests that ask at the same moment all get through.
  lemma BurstIsNotLimited(n: nat)
    ensures Run(Trace(FRESH, 0, 0, 0), Asks(0.0, n)) == Trace(FRESH, n, n, 0)
  {
    RunAsks(Trace(FRESH, 0, 0, 0), 0.0, n, n);
  }
}
