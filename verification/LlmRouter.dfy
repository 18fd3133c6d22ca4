/** The multi-provider router: adapters in order, one breaker per provider name. */
module LlmRouter {
  import opened CircuitBreaker
  import opened BreakerBound
  import opened BreakerHistory

  datatype Capability = Capability(structuredOutput: bool, tools: bool, vision: bool)
  datatype Adapter = Adapter(name: string, capability: Capability)

  // How a call to one adapter would go, and the clock around it. An invalid answer is any Exception: an error,
  // the router's own timeout, an output that does not fit the schema. A cancellation from outside is none.
  datatype Ending = Valid | Invalid | Cancelled
  datatype Answer = Answer(ending: Ending, askedAt: real, endedAt: real)

  datatype Note = Incompatible(name: string) | CircuitOpen(name: string) | CallFailed(name: string)

  // A request is still looking for an answer, has one, or was cancelled during the call to adapter k.
  datatype Progress = Going | Chosen(k: nat) | CancelledAt(k: nat)
  datatype Routing = Routing(breakers: map<string, Breaker>, progress: Progress, errors: seq<Note>,
                             history: seq<(string, Event)>)

  predicate Compatible(required: Capability, actual: Capability) {
    && (required.structuredOutput ==> actual.structuredOutput)
    && (required.tools ==> actual.tools)
    && (required.vision ==> actual.vision)
  }

  function BreakerOf(breakers: map<string, Breaker>, name: string): Breaker {
    if name in breakers then breakers[name] else FRESH
  }

  // One adapter's turn: the breakers after it, how it ended for the request, and the events.
  datatype TurnEnd = PassOver(note: Note) | Answered | Interrupted
  datatype Turn = Turn(breakers: map<string, Breaker>, end: TurnEnd, events: seq<(string, Event)>)

  // What the end of a call does to the breaker that allowed it.
  function AfterCall(b: Breaker, answer: Answer): Breaker {
    match answer.ending
    case Valid => Reset(b)
    case Invalid => AfterFailure(b, answer.endedAt)
    case Cancelled => b
  }

  function EndOfCall(answer: Answer): Event {
    match answer.ending
    case Valid => Succeed(answer.endedAt)
    case Invalid => Fail(answer.endedAt)
    case Cancelled => Abandon(answer.endedAt)
  }

  function EndOfTurn(name: string, answer: Answer): TurnEnd {
    match answer.ending
    case Valid => Answered
    case Invalid => PassOver(CallFailed(name))
    case Cancelled => Interrupted
  }

  function TakeTurn(breakers: map<string, Breaker>, required: Capability, adapter: Adapter, answer: Answer): Turn {
    var name := adapter.name;
    var b := BreakerOf(breakers, name);
    if !Compatible(required, adapter.capability) then Turn(breakers, PassOver(Incompatible(name)), [])
    else if !Recovered(b, answer.askedAt) then
      Turn(breakers[name := b], PassOver(CircuitOpen(name)), [(name, Ask(answer.askedAt))])
    else
      Turn(breakers[name := AfterCall(AfterAllow(b, answer.askedAt), answer)], EndOfTurn(name, answer),
           [(name, Ask(answer.askedAt)), (name, EndOfCall(answer))])
  }

  function Extend(r: Routing, t: Turn, k: nat): Routing {
    var progress := match t.end
                    case PassOver(_) => Going
                    case Answered => Chosen(k)
                    case Interrupted => CancelledAt(k);
    Routing(t.breakers, progress, if t.end.PassOver? then r.errors + [t.end.note] else r.errors, r.history + t.events)
  }

  function Route(breakers: map<string, Breaker>, required: Capability, adapters: seq<Adapter>, answers: seq<Answer>,
                 k: nat): Routing
    requires k <= |adapters| == |answers|
  {
    if k == 0 then Routing(breakers, Going, [], [])
    else
      var r := Route(breakers, required, adapters, answers, k - 1);
      if r.progress.Going? then Extend(r, TakeTurn(r.breakers, required, adapters[k - 1], answers[k - 1]), k - 1) else r
  }

  /** The router object, which creates a breaker for a provider name when it first needs one. */
  class Router {
    const adapters: seq<Adapter>
    var cells: map<string, Cell>
    ghost var history: seq<(string, Event)>

    constructor (adapters: seq<Adapter>)
      ensures Valid() && this.adapters == adapters && cells == map[] && Breakers() == map[] && history == []
    {
      this.adapters := adapters;
      cells, history := map[], [];
    }

    // No two names share a breaker.
    ghost predicate Valid()
      reads this`cells
    {
      forall m, n :: m in cells && n in cells && cells[m] == cells[n] ==> m == n
    }

    ghost function Breakers(): map<string, Breaker>
      reads this`cells, cells.Values
    {
      map name | name in cells :: cells[name].View()
    }

    // setdefault(): the breaker of a name, created closed.
    method BreakerFor(name: string) returns (breaker: Cell)
      requires Valid()
      modifies this`cells
      ensures Valid() && fresh(cells.Values - old(cells.Values)) && name in cells && cells[name] == breaker
      ensures Breakers() == old(Breakers())[name := BreakerOf(old(Breakers()), name)]
    {
      if name !in cells {
        breaker := new Cell(3, 30.0);
        cells := cells[name := breaker];
      }
      breaker := cells[name];
    }

    // Cancellation leaves by the call's await: after allow() and before success() or failure().
    method Call(name: string, breaker: Cell, answer: Answer) returns (end: TurnEnd)
      requires Valid() && name in cells && cells[name] == breaker
      modifies breaker
      ensures Breakers() == old(Breakers())[name := AfterCall(old(Breakers()[name]), answer)]
      ensures end == EndOfTurn(name, answer)
    {
      match answer.ending {
        case Valid =>
          breaker.Success();
          end := Answered;
        case Invalid =>
          breaker.Failure(answer.endedAt);
          end := PassOver(CallFailed(name));
        case Cancelled =>
          end := Interrupted;
      }
    }

    method Admit(name: string, breaker: Cell, now: real) returns (allowed: bool)
      requires Valid() && name in cells && cells[name] == breaker
      modifies breaker
      ensures Breakers() == old(Breakers())[name := AfterAllow(old(Breakers()[name]), now)]
      ensures allowed <==> Recovered(old(Breakers()[name]), now)
    {
      allowed := breaker.Allow(now);
    }

    method Attempt(required: Capability, adapter: Adapter, answer: Answer) returns (end: TurnEnd)
      requires Valid()
      modifies this, cells.Values
      ensures Valid() && fresh(cells.Values - old(cells.Values))
      ensures var t := TakeTurn(old(Breakers()), required, adapter, answer);
              Breakers() == t.breakers && end == t.end && history == old(history) + t.events
    {
      ghost var before := Breakers();
      var name := adapter.name;
      if !Compatible(required, adapter.capability) { return PassOver(Incompatible(name)); }
      var breaker := BreakerFor(name);
      assert breaker in cells.Values;
      var allowed := Admit(name, breaker, answer.askedAt);
      ghost var b, admitted := BreakerOf(before, name), AfterAllow(BreakerOf(before, name), answer.askedAt);
      Overwrite(before, name, b, admitted);
      if !allowed {
        history := history + [(name, Ask(answer.askedAt))];
        return PassOver(CircuitOpen(name));
      }
      end := Call(name, breaker, answer);
      Overwrite(before, name, admitted, AfterCall(admitted, answer));
      history := history + [(name, Ask(answer.askedAt)), (name, EndOfCall(answer))];
    }

    // `answers[k]` is what a call to adapter k would meet with; ending as Going stands for the final RuntimeError.
    method Generate(required: Capability, answers: seq<Answer>) returns (progress: Progress, errors: seq<Note>)
      requires Valid() && |answers| == |adapters|
      modifies this, cells.Values
      ensures Valid() && fresh(cells.Values - old(cells.Values))
      ensures var r := Route(old(Breakers()), required, adapters, answers, |adapters|);
              && Breakers() == r.breakers && progress == r.progress && errors == r.errors
              && history == old(history) + r.history
    {
      errors := [];
      ghost var before, r := Breakers(), Routing(Breakers(), Going, [], []);
      for k := 0 to |adapters|
        invariant Valid() && fresh(cells.Values - old(cells.Values))
        invariant r == Route(before, required, adapters, answers, k) && r.progress.Going?
        invariant Breakers() == r.breakers && errors == r.errors && history == old(history) + r.history
      {
        NextAdapter(before, required, adapters, answers, k);
        var end := Attempt(required, adapters[k], answers[k]);
        ghost var t := TakeTurn(r.breakers, required, adapters[k], answers[k]);
        InOneHistory(old(history), r.history, t.events);
        r := Extend(r, t, k);
        if !end.PassOver? {
          return if end.Answered? then Chosen(k) else CancelledAt(k), errors;
        }
        errors := errors + [end.note];
      }
      return Going, errors;
    }
  }

  lemma InOneHistory(past: seq<(string, Event)>, before: seq<(string, Event)>, events: seq<(string, Event)>)
    ensures past + before + events == past + (before + events)
  {
  }

  lemma Overwrite(breakers: map<string, Breaker>, name: string, a: Breaker, b: Breaker)
    ensures breakers[name := a][name := b] == breakers[name := b]
  {
  }

  // The next adapter's turn, which is the last one unless the adapter is passed over.
  lemma NextAdapter(breakers: map<string, Breaker>, required: Capability, adapters: seq<Adapter>, answers: seq<Answer>,
                    k: nat)
    requires k < |adapters| == |answers| && Route(breakers, required, adapters, answers, k).progress.Going?
    ensures var r := Route(breakers, required, adapters, answers, k);
            var t := TakeTurn(r.breakers, required, adapters[k], answers[k]);
            && Route(breakers, required, adapters, answers, k + 1) == Extend(r, t, k)
            && (!t.end.PassOver? ==>
                  Route(breakers, required, adapters, answers, |adapters|) == Extend(r, t, k))
  {
    if !Route(breakers, required, adapters, answers, k + 1).progress.Going? {
      OnceDecided(breakers, required, adapters, answers, k + 1, |adapters|);
    }
  }

  lemma {:induction false} OnceDecided(breakers: map<string, Breaker>, required: Capability, adapters: seq<Adapter>,
                                       answers: seq<Answer>, k: nat, n: nat)
    requires k <= n <= |adapters| == |answers| && !Route(breakers, required, adapters, answers, k).progress.Going?
    ensures Route(breakers, required, adapters, answers, n) == Route(breakers, required, adapters, answers, k)
  {
    if k < n { OnceDecided(breakers, required, adapters, answers, k, n - 1); }
  }

  // The note says why the adapter was passed over.
  ghost predicate PassedOver(breakers: map<string, Breaker>, required: Capability, adapter: Adapter, answer: Answer,
                             note: Note) {
    var callable := && (required.structuredOutput ==> adapter.capability.structuredOutput)
                    && (required.tools ==> adapter.capability.tools)
                    && (required.vision ==> adapter.capability.vision);
    var closed := Recovered(BreakerOf(breakers, adapter.name), answer.askedAt);
    && note.name == adapter.name
    && (note.Incompatible? <==> !callable)
    && (note.CircuitOpen? <==> callable && !closed)
    && (note.CallFailed? <==> callable && closed && answer.ending.Invalid?)
  }

  // Adapter k is really called.
  ghost predicate Called(breakers: map<string, Breaker>, required: Capability, adapters: seq<Adapter>,
                         answers: seq<Answer>, k: nat)
    requires k < |adapters| == |answers|
  {
    var before := Route(breakers, required, adapters, answers, k).breakers;
    Compatible(required, adapters[k].capability) && Recovered(BreakerOf(before, adapters[k].name), answers[k].askedAt)
  }

  ghost predicate PassedOverAt(breakers: map<string, Breaker>, required: Capability, adapters: seq<Adapter>,
                               answers: seq<Answer>, i: nat, note: Note)
    requires i < |adapters| == |answers|
  {
    PassedOver(Route(breakers, required, adapters, answers, i).breakers, required, adapters[i], answers[i], note)
  }

  // The first n adapters were passed over, with one note each.
  ghost predicate AllPassedOver(breakers: map<string, Breaker>, required: Capability, adapters: seq<Adapter>,
                                answers: seq<Answer>, n: nat, errors: seq<Note>)
    requires n <= |adapters| == |answers|
  {
    && |errors| == n
    && forall i :: 0 <= i < n ==> PassedOverAt(breakers, required, adapters, answers, i, errors[i])
  }

  lemma TurnPassesOver(breakers: map<string, Breaker>, required: Capability, adapter: Adapter, answer: Answer)
    requires TakeTurn(breakers, required, adapter, answer).end.PassOver?
    ensures PassedOver(breakers, required, adapter, answer, TakeTurn(breakers, required, adapter, answer).end.note)
  {
  }

  lemma {:induction false} EachPassedOver(breakers: map<string, Breaker>, required: Capability, adapters: seq<Adapter>,
                                          answers: seq<Answer>, n: nat)
    requires n <= |adapters| == |answers| && Route(breakers, required, adapters, answers, n).progress.Going?
    ensures AllPassedOver(breakers, required, adapters, answers, n,
                          Route(breakers, required, adapters, answers, n).errors)
  {
    if n > 0 {
      EachPassedOver(breakers, required, adapters, answers, n - 1);
      var r := Route(breakers, required, adapters, answers, n - 1);
      TurnPassesOver(r.breakers, required, adapters[n - 1], answers[n - 1]);
      OneMorePassedOver(breakers, required, adapters, answers, n - 1, r.errors,
                        TakeTurn(r.breakers, required, adapters[n - 1], answers[n - 1]).end.note);
    }
  }

  lemma OneMorePassedOver(breakers: map<string, Breaker>, required: Capability, adapters: seq<Adapter>,
                          answers: seq<Answer>, k: nat, errors: seq<Note>, note: Note)
    requires k < |adapters| == |answers| && AllPassedOver(breakers, required, adapters, answers, k, errors)
    requires PassedOverAt(breakers, required, adapters, answers, k, note)
    ensures AllPassedOver(breakers, required, adapters, answers, k + 1, errors + [note])
  {
    forall i | 0 <= i < k + 1 ensures PassedOverAt(breakers, required, adapters, answers, i, (errors + [note])[i]) {
      if i < k { assert PassedOverAt(breakers, required, adapters, answers, i, errors[i]); }
    }
  }

  // A request ends at the first adapter that is called without failing: with its answer, or cancelled during
  // its call. Each adapter before it left exactly one note saying why it was passed over.
  lemma {:induction false} FirstGoodAdapterWins(breakers: map<string, Breaker>, required: Capability,
                                                adapters: seq<Adapter>, answers: seq<Answer>, n: nat)
    requires n <= |adapters| == |answers| && !Route(breakers, required, adapters, answers, n).progress.Going?
    ensures var r := Route(breakers, required, adapters, answers, n);
            var j := r.progress.k;
            && j < n && Called(breakers, required, adapters, answers, j)
            && (required.structuredOutput ==> adapters[j].capability.structuredOutput)
            && (required.tools ==> adapters[j].capability.tools)
            && (required.vision ==> adapters[j].capability.vision)
            && (r.progress.Chosen? <==> answers[j].ending.Valid?)
            && (r.progress.CancelledAt? <==> answers[j].ending.Cancelled?)
            && AllPassedOver(breakers, required, adapters, answers, j, r.errors)
  {
    if Route(breakers, required, adapters, answers, n - 1).progress.Going? {
      EachPassedOver(breakers, required, adapters, answers, n - 1);
    } else {
      FirstGoodAdapterWins(breakers, required, adapters, answers, n - 1);
    }
  }

  // --- a session: one request after another on the same router ---

  datatype Request = Request(required: Capability, answers: seq<Answer>)

  ghost predicate Fits(adapters: seq<Adapter>, requests: seq<Request>) {
    forall q :: q in requests ==> |q.answers| == |adapters|
  }

  ghost function Session(adapters: seq<Adapter>, requests: seq<Request>): (map<string, Breaker>, seq<(string, Event)>)
    requires Fits(adapters, requests)
  {
    if requests == [] then (map[], [])
    else
      var before := Session(adapters, requests[..|requests| - 1]);
      var q := requests[|requests| - 1];
      var r := Route(before.0, q.required, adapters, q.answers, |adapters|);
      (r.breakers, before.1 + r.history)
  }

  // The part of a history that concerns one provider name.
  function Of(name: string, history: seq<(string, Event)>): seq<Event> {
    if history == [] then []
    else
      var last := history[|history| - 1];
      Of(name, history[..|history| - 1]) + if last.0 == name then [last.1] else []
  }

  lemma {:induction false} OfConcat(name: string, a: seq<(string, Event)>, b: seq<(string, Event)>)
    ensures Of(name, a + b) == Of(name, a) + Of(name, b)
  {
    if b == [] {
      assert a + b == a;
    } else {
      OfConcat(name, a, b[..|b| - 1]);
      assert (a + b)[..|a + b| - 1] == a + b[..|b| - 1];
    }
  }

  // Calls are the events that end one.
  function CallsIn(events: seq<Event>): nat {
    if events == [] then 0 else CallsIn(events[..|events| - 1]) + if events[|events| - 1].Ask? then 0 else 1
  }

  function AbandonsIn(events: seq<Event>): nat {
    if events == [] then 0 else AbandonsIn(events[..|events| - 1]) + if events[|events| - 1].Abandon? then 1 else 0
  }

  const START := Trace(FRESH, 0, 0, 0)

  // Between two turns nothing is under way, every call has ended, and the stored breaker is the one
  // the provider's history leads to.
  ghost predicate Follows(breaker: Breaker, events: seq<Event>) {
    Leads(START, events, Trace(breaker, 0, CallsIn(events), AbandonsIn(events)), 1)
  }

  lemma CountOne(events: seq<Event>, e: Event)
    ensures CallsIn(events + [e]) == CallsIn(events) + if e.Ask? then 0 else 1
    ensures AbandonsIn(events + [e]) == AbandonsIn(events) + if e.Abandon? then 1 else 0
  {
    assert (events + [e])[..|events + [e]| - 1] == events;
  }

  // A turn of this provider, without and with a call.
  lemma AskFollows(b: Breaker, events: seq<Event>, at: real)
    requires Follows(b, events) && !Recovered(b, at)
    ensures Follows(b, events + [Ask(at)])
  {
    LeadsByOne(START, events, Trace(b, 0, CallsIn(events), AbandonsIn(events)), Ask(at), 1);
    CountOne(events, Ask(at));
  }

  lemma CallFollows(b: Breaker, events: seq<Event>, answer: Answer)
    requires Follows(b, events) && Recovered(b, answer.askedAt)
    ensures Follows(AfterCall(AfterAllow(b, answer.askedAt), answer), events + [Ask(answer.askedAt), EndOfCall(answer)])
  {
    var ask, end := Ask(answer.askedAt), EndOfCall(answer);
    var calls, abandons := CallsIn(events), AbandonsIn(events);
    LeadsByOne(START, events, Trace(b, 0, calls, abandons), ask, 1);
    LeadsByOne(START, events + [ask], Trace(AfterAllow(b, answer.askedAt), 1, calls + 1, abandons), end, 1);
    CountOne(events, ask);
    CountOne(events + [ask], end);
    assert events + [ask] + [end] == events + [ask, end];
  }

  lemma TurnFollows(breakers: map<string, Breaker>, past: seq<(string, Event)>, required: Capability, adapter: Adapter,
                    answer: Answer, name: string)
    requires Follows(BreakerOf(breakers, name), Of(name, past))
    ensures var t := TakeTurn(breakers, required, adapter, answer);
            Follows(BreakerOf(t.breakers, name), Of(name, past + t.events))
  {
    var t, b := TakeTurn(breakers, required, adapter, answer), BreakerOf(breakers, name);
    OfConcat(name, past, t.events);
    if t.events == [] {
      assert Of(name, past) + [] == Of(name, past);
    } else {
      OfTwo(name, t.events);
      if adapter.name != name {
        assert Of(name, past) + [] == Of(name, past);
      } else if !Recovered(b, answer.askedAt) {
        AskFollows(b, Of(name, past), answer.askedAt);
      } else {
        CallFollows(b, Of(name, past), answer);
      }
    }
  }

  lemma OfTwo(name: string, added: seq<(string, Event)>)
    requires 1 <= |added| <= 2 && added[0].0 == added[|added| - 1].0
    ensures Of(name, added) == if added[0].0 != name then []
                               else if |added| == 1 then [added[0].1] else [added[0].1, added[1].1]
  {
    assert added[..1] == [added[0]] && added[..1][..0] == [];
    if |added| == 1 { assert added == added[..1]; }
  }

  lemma ExtendFollows(r: Routing, past: seq<(string, Event)>, required: Capability, adapter: Adapter, answer: Answer,
                      k: nat, name: string)
    requires Follows(BreakerOf(r.breakers, name), Of(name, past + r.history))
    ensures var after := Extend(r, TakeTurn(r.breakers, required, adapter, answer), k);
            Follows(BreakerOf(after.breakers, name), Of(name, past + after.history))
  {
    TurnFollows(r.breakers, past + r.history, required, adapter, answer, name);
    var events := TakeTurn(r.breakers, required, adapter, answer).events;
    assert past + r.history + events == past + (r.history + events);
  }

  lemma {:induction false} RouteFollows(breakers: map<string, Breaker>, past: seq<(string, Event)>, q: Request,
                                        adapters: seq<Adapter>, k: nat, name: string)
    requires k <= |adapters| == |q.answers| && Follows(BreakerOf(breakers, name), Of(name, past))
    ensures var r := Route(breakers, q.required, adapters, q.answers, k);
            Follows(BreakerOf(r.breakers, name), Of(name, past + r.history))
  {
    if k == 0 {
      assert past + [] == past;
    } else {
      RouteFollows(breakers, past, q, adapters, k - 1, name);
      var r := Route(breakers, q.required, adapters, q.answers, k - 1);
      ExtendFollows(r, past, q.required, adapters[k - 1], q.answers[k - 1], k - 1, name);
    }
  }

  // In every session every stored breaker is the one its provider's own history leads to.
  lemma {:induction false} SessionFollows(adapters: seq<Adapter>, requests: seq<Request>, name: string)
    requires Fits(adapters, requests)
    ensures var s := Session(adapters, requests);
            Follows(BreakerOf(s.0, name), Of(name, s.1))
  {
    if requests == [] {
      LeadsNowhere(START, 1);
    } else {
      var before := Session(adapters, requests[..|requests| - 1]);
      SessionFollows(adapters, requests[..|requests| - 1], name);
      RouteFollows(before.0, before.1, requests[|requests| - 1], adapters, |adapters|, name);
    }
  }

  // An adapter is passed over with an open circuit only after its provider's last three calls that ended, in any of
  // the requests so far, have failed, the last of them less than half a minute ago.
  lemma CircuitOpensByFailures(adapters: seq<Adapter>, requests: seq<Request>, q: Request, n: nat, i: nat)
    requires Fits(adapters, requests) && i < n <= |adapters| == |q.answers|
    requires var r := Route(Session(adapters, requests).0, q.required, adapters, q.answers, n);
             r.progress.Going? && |r.errors| == n && r.errors[i].CircuitOpen?
    ensures var s := Session(adapters, requests);
            var past := s.1 + Route(s.0, q.required, adapters, q.answers, i).history;
            KeepsFailing(Endings(START, Of(adapters[i].name, past)), 3, 30.0, q.answers[i].askedAt)
  {
    var s := Session(adapters, requests);
    EachPassedOver(s.0, q.required, adapters, q.answers, n);
    RefusedAt(adapters, requests, q, i, Route(s.0, q.required, adapters, q.answers, n).errors[i]);
  }

  lemma RefusedAt(adapters: seq<Adapter>, requests: seq<Request>, q: Request, i: nat, note: Note)
    requires Fits(adapters, requests) && i < |adapters| == |q.answers| && note.CircuitOpen?
    requires PassedOverAt(Session(adapters, requests).0, q.required, adapters, q.answers, i, note)
    ensures var s := Session(adapters, requests);
            var past := s.1 + Route(s.0, q.required, adapters, q.answers, i).history;
            KeepsFailing(Endings(START, Of(adapters[i].name, past)), 3, 30.0, q.answers[i].askedAt)
  {
    var s := Session(adapters, requests);
    var r := Route(s.0, q.required, adapters, q.answers, i);
    var name := adapters[i].name;
    SessionFollows(adapters, requests, name);
    RouteFollows(s.0, s.1, q, adapters, i, name);
    FollowsRefused(BreakerOf(r.breakers, name), Of(name, s.1 + r.history), q.answers[i].askedAt);
  }

  lemma FollowsRefused(b: Breaker, events: seq<Event>, now: real)
    requires Follows(b, events) && !Recovered(b, now)
    ensures KeepsFailing(Endings(START, events), 3, 30.0, now)
  {
    RefusedOnlyAfterFailures(START, events, now);
  }

  // The calls a provider receives in a session, when none of them succeeds.
  ghost predicate NeverAnswers(events: seq<Event>, start: real) {
    InOrder(start, events) && NoSuccess(events)
  }

  // A provider that never answers well during a session is called at most 3 times per half minute, and 3 more,
  // and once for each call that was cancelled.
  lemma SessionRateBound(adapters: seq<Adapter>, requests: seq<Request>, name: string, start: real)
    requires Fits(adapters, requests) && NeverAnswers(Of(name, Session(adapters, requests).1), start)
    ensures var events := Of(name, Session(adapters, requests).1);
            CallsIn(events) <= 3 * (((Last(start, events) - start) / 30.0).Floor + 1) + AbandonsIn(events)
  {
    SessionFollows(adapters, requests, name);
    CallRateBound(START, start, Of(name, Session(adapters, requests).1), 1);
  }

  lemma SessionRateBoundWithoutCancelling(adapters: seq<Adapter>, requests: seq<Request>, name: string, start: real)
    requires Fits(adapters, requests) && NeverAnswers(Of(name, Session(adapters, requests).1), start)
    requires NoneAbandoned(Of(name, Session(adapters, requests).1))
    ensures var events := Of(name, Session(adapters, requests).1);
            CallsIn(events) <= 3 * (((Last(start, events) - start) / 30.0).Floor + 1)
  {
    SessionRateBound(adapters, requests, name, start);
    SessionFollows(adapters, requests, name);
    NoneAbandonedCounts(START, Of(name, Session(adapters, requests).1));
  }

  // --- a provider that hangs, asked by runs that are cancelled after `pause` ---

  const TEXT := Capability(true, false, false)

  function Hanging(n: nat, pause: real): seq<Request> {
    if n == 0 then []
    else Hanging(n - 1, pause) + [Request(TEXT, [Answer(Cancelled, StartOf(n - 1, pause), StartOf(n, pause))])]
  }

  lemma {:induction false} HangingFits(name: string, n: nat, pause: real)
    ensures Fits([Adapter(name, TEXT)], Hanging(n, pause))
  {
    if n > 0 { HangingFits(name, n - 1, pause); }
  }

  lemma HangingTurn(breakers: map<string, Breaker>, name: string, answer: Answer)
    requires BreakerOf(breakers, name) == FRESH && answer.ending.Cancelled?
    ensures var r := Route(breakers, TEXT, [Adapter(name, TEXT)], [answer], 1);
            && BreakerOf(r.breakers, name) == FRESH
            && Of(name, r.history) == [Ask(answer.askedAt), Abandon(answer.endedAt)]
  {
    var r := Route(breakers, TEXT, [Adapter(name, TEXT)], [answer], 1);
    assert Route(breakers, TEXT, [Adapter(name, TEXT)], [answer], 0) == Routing(breakers, Going, [], []);
    assert r.history == [(name, Ask(answer.askedAt)), (name, Abandon(answer.endedAt))];
    OfTwo(name, r.history);
  }

  lemma {:induction false} HangingSession(name: string, n: nat, pause: real)
    requires Fits([Adapter(name, TEXT)], Hanging(n, pause))
    ensures var s := Session([Adapter(name, TEXT)], Hanging(n, pause));
            BreakerOf(s.0, name) == FRESH && Of(name, s.1) == Abandons(n, pause)
  {
    if n > 0 {
      HangingFits(name, n - 1, pause);
      HangingSession(name, n - 1, pause);
      var adapters, init := [Adapter(name, TEXT)], Hanging(n - 1, pause);
      var answer := Answer(Cancelled, StartOf(n - 1, pause), StartOf(n, pause));
      assert Hanging(n, pause)[..|Hanging(n, pause)| - 1] == init;
      var before := Session(adapters, init);
      HangingTurn(before.0, name, answer);
      OfConcat(name, before.1, Route(before.0, TEXT, adapters, [answer], 1).history);
    }
  }

  // Without the last term the bound is false: every one of the n requests reaches the provider, at any pace.
  lemma CancelledRequestsAllCall(name: string, n: nat, pause: real)
    requires pause >= 0.0
    ensures Fits([Adapter(name, TEXT)], Hanging(n, pause))
    ensures var events := Of(name, Session([Adapter(name, TEXT)], Hanging(n, pause)).1);
            && NeverAnswers(events, 0.0) && Last(0.0, events) == n as real * pause
            && CallsIn(events) == AbandonsIn(events) == n
  {
    HangingFits(name, n, pause);
    HangingSession(name, n, pause);
    AbandonsAreUnlimited(FRESH, n, pause);
    SessionFollows([Adapter(name, TEXT)], Hanging(n, pause), name);
  }

  // A hundred runs with a timeout of five seconds make a hundred calls in 500 seconds, not 51.
  lemma ARunTimeoutOutrunsTheBreaker(name: string)
    ensures Fits([Adapter(name, TEXT)], Hanging(100, 5.0))
    ensures var events := Of(name, Session([Adapter(name, TEXT)], Hanging(100, 5.0)).1);
            && NeverAnswers(events, 0.0) && Last(0.0, events) == 500.0
            && CallsIn(events) == 100 > 51 == 3 * ((500.0 / 30.0).Floor + 1)
  {
    CancelledRequestsAllCall(name, 100, 5.0);
  }
}
