/** The workspace event feed: duplicates and stale versions are dropped, refreshes are debounced. */
module RealtimeFeed {
  import opened Common

  datatype Table = Messages | Tasks | Notifications
  datatype Entity = Entity(table: Table, id: string)
  datatype Event = Event(id: string, entity: Entity, version: Option<nat>)

  // `seen` lists the remembered event ids, oldest first, as a JavaScript Map iterates over its keys.
  datatype Feed = Feed(seen: seq<string>, versions: map<Entity, nat>, timer: bool, closed: bool, refreshes: nat)

  const OPEN := Feed([], map[], false, false, 0)

  datatype Input = Signal | Workspace(event: Event) | TimerFires | Close

  function LastOf<T>(s: seq<T>, n: nat): seq<T> {
    if |s| > n then s[|s| - n..] else s
  }

  predicate Accepts(f: Feed, e: Event) {
    e.id !in f.seen && (e.version.Some? && e.entity in f.versions ==> e.version.value > f.versions[e.entity])
  }

  function AfterAccept(f: Feed, e: Event, maxSeen: nat): Feed {
    f.(seen := LastOf(f.seen + [e.id], maxSeen),
       versions := if e.version.Some? then f.versions[e.entity := e.version.value] else f.versions)
  }

  function Scheduled(f: Feed): Feed {
    if f.closed then f else f.(timer := true)
  }

  function Next(f: Feed, i: Input, maxSeen: nat): Feed {
    match i
    case Signal => Scheduled(f)
    case Workspace(e) => if Accepts(f, e) then Scheduled(AfterAccept(f, e, maxSeen)) else f
    case TimerFires => if f.timer then f.(timer := false, refreshes := f.refreshes + if f.closed then 0 else 1) else f
    case Close => if f.closed then f else f.(closed := true, timer := false)
  }

  class Connection {
    const maxSeen: nat
    var seen: seq<string>
    var versions: map<Entity, nat>
    var timer: bool
    var closed: bool
    ghost var refreshes: nat

    constructor (maxSeen: nat)
      ensures this.maxSeen == maxSeen && View() == OPEN
    {
      this.maxSeen := maxSeen;
      seen, versions, timer, closed, refreshes := [], map[], false, false, 0;
    }

    ghost function View(): Feed
      reads this
    {
      Feed(seen, versions, timer, closed, refreshes)
    }

    method Schedule()
      modifies this
      ensures View() == Scheduled(old(View()))
    {
      if closed || timer { return; }
      timer := true;
    }

    method Accept(event: Event) returns (accepted: bool)
      modifies this
      ensures accepted == Accepts(old(View()), event)
      ensures View() == if accepted then AfterAccept(old(View()), event, maxSeen) else old(View())
    {
      if event.id in seen { return false; }
      if event.version.Some? && event.entity in versions && event.version.value <= versions[event.entity] {
        return false; }
      seen := seen + [event.id];
      if event.version.Some? { versions := versions[event.entity := event.version.value]; }
      ghost var all := seen;
      while |seen| > maxSeen
        invariant |seen| <= |all| && seen == all[|all| - |seen|..]
        invariant |all| <= maxSeen ==> seen == all
        invariant |all| > maxSeen ==> |seen| >= maxSeen
        invariant View() == Feed(seen, versions, timer, closed, refreshes)
        invariant versions == AfterAccept(old(View()), event, maxSeen).versions
        invariant timer == old(timer) && closed == old(closed) && refreshes == old(refreshes)
      {
        seen := seen[1..];
      }
      return true;
    }

    method OnSignal()
      modifies this
      ensures View() == Next(old(View()), Signal, maxSeen)
    {
      Schedule();
    }

    method OnWorkspace(event: Event)
      modifies this
      ensures View() == Next(old(View()), Workspace(event), maxSeen)
    {
      var accepted := Accept(event);
      if accepted { Schedule(); }
    }

    method OnTimer()
      modifies this
      ensures View() == Next(old(View()), TimerFires, maxSeen)
    {
      if !timer { return; }
      timer := false;
      if !closed { refreshes := refreshes + 1; }
    }

    method Disconnect()
      modifies this
      ensures View() == Next(old(View()), Close, maxSeen)
    {
      if closed { return; }
      closed := true;
      if timer { timer := false; }
    }
  }

  // --- whole runs ---

  // A run remembers what it accepted, how often it was asked to refresh while open, and whether a refresh is still
  // owed, which only a refresh settles.
  datatype History = History(feed: Feed, accepted: seq<Event>, triggers: nat, owed: bool)

  predicate Triggers(f: Feed, i: Input) {
    !f.closed && (i.Signal? || (i.Workspace? && Accepts(f, i.event)))
  }

  function Step(h: History, i: Input, maxSeen: nat): History {
    History(Next(h.feed, i, maxSeen),
            if i.Workspace? && Accepts(h.feed, i.event) then h.accepted + [i.event] else h.accepted,
            h.triggers + if Triggers(h.feed, i) then 1 else 0,
            (h.owed && Next(h.feed, i, maxSeen).refreshes == h.feed.refreshes) || Triggers(h.feed, i))
  }

  function Run(inputs: seq<Input>, maxSeen: nat): History {
    if inputs == [] then History(OPEN, [], 0, false)
    else Step(Run(inputs[..|inputs| - 1], maxSeen), inputs[|inputs| - 1], maxSeen)
  }

  function IdsOf(events: seq<Event>): seq<string> {
    seq(|events|, i requires 0 <= i < |events| => events[i].id)
  }

  // Versions of one entity are accepted in strictly increasing order, and the stored version is the greatest.
  ghost predicate VersionsGrow(accepted: seq<Event>) {
    forall i, j :: 0 <= i < j < |accepted| && accepted[i].entity == accepted[j].entity
      && accepted[i].version.Some? && accepted[j].version.Some?
      ==> accepted[i].version.value < accepted[j].version.value
  }

  ghost predicate VersionsAreLatest(versions: map<Entity, nat>, accepted: seq<Event>) {
    && (forall i :: 0 <= i < |accepted| && accepted[i].version.Some? ==>
          accepted[i].entity in versions && accepted[i].version.value <= versions[accepted[i].entity])
    && (forall k :: k in versions ==>
          exists i :: 0 <= i < |accepted| && accepted[i].entity == k && accepted[i].version == Some(versions[k]))
  }

  // Between two acceptances of the same id there are at least maxSeen others.
  ghost predicate RepeatsAreFarApart(accepted: seq<Event>, maxSeen: nat) {
    forall i, j :: 0 <= i < j < |accepted| && accepted[i].id == accepted[j].id ==> j - i > maxSeen
  }

  ghost predicate Inv(h: History, maxSeen: nat) {
    && h.feed.seen == LastOf(IdsOf(h.accepted), maxSeen)
    && VersionsGrow(h.accepted) && VersionsAreLatest(h.feed.versions, h.accepted)
    && RepeatsAreFarApart(h.accepted, maxSeen)
    && (h.feed.closed ==> !h.feed.timer)
    && (!h.feed.closed ==> (h.owed <==> h.feed.timer))
    && h.feed.refreshes + (if h.feed.timer then 1 else 0) <= h.triggers
  }

  // The window slides: remembering the last maxSeen of the window and the new id is remembering the last maxSeen ids.
  lemma WindowSlides(accepted: seq<Event>, e: Event, maxSeen: nat)
    ensures LastOf(LastOf(IdsOf(accepted), maxSeen) + [e.id], maxSeen) == LastOf(IdsOf(accepted + [e]), maxSeen)
  {
    assert IdsOf(accepted + [e]) == IdsOf(accepted) + [e.id];
  }

  // An id outside the window was accepted long ago, if at all.
  lemma OutsideWindow(accepted: seq<Event>, id: string, maxSeen: nat, i: nat)
    requires id !in LastOf(IdsOf(accepted), maxSeen) && i < |accepted| && accepted[i].id == id
    ensures |accepted| - i > maxSeen
  {
    if |accepted| - i <= maxSeen { InWindow(IdsOf(accepted), maxSeen, i); }
  }

  lemma InWindow(ids: seq<string>, n: nat, i: nat)
    requires i < |ids| && |ids| - i <= n
    ensures ids[i] in LastOf(ids, n)
  {
    var last := LastOf(ids, n);
    assert last[i - (|ids| - |last|)] == ids[i];
  }

  lemma NewIsFarApart(accepted: seq<Event>, e: Event, maxSeen: nat)
    requires RepeatsAreFarApart(accepted, maxSeen) && e.id !in LastOf(IdsOf(accepted), maxSeen)
    ensures RepeatsAreFarApart(accepted + [e], maxSeen)
  {
    forall i | 0 <= i < |accepted| && accepted[i].id == e.id ensures |accepted| - i > maxSeen {
      OutsideWindow(accepted, e.id, maxSeen, i);
    }
  }

  lemma NewVersionIsLatest(versions: map<Entity, nat>, accepted: seq<Event>, e: Event)
    requires VersionsGrow(accepted) && VersionsAreLatest(versions, accepted)
    requires e.version.Some? && e.entity in versions ==> e.version.value > versions[e.entity]
    ensures VersionsGrow(accepted + [e])
    ensures VersionsAreLatest(if e.version.Some? then versions[e.entity := e.version.value] else versions,
                              accepted + [e])
  {
    var all := accepted + [e];
    var versions' := if e.version.Some? then versions[e.entity := e.version.value] else versions;
    forall k | k in versions'
      ensures exists i :: 0 <= i < |all| && all[i].entity == k && all[i].version == Some(versions'[k]) {
      if k == e.entity && e.version.Some? {
        assert all[|accepted|] == e;
      } else {
        var i :| 0 <= i < |accepted| && accepted[i].entity == k && accepted[i].version == Some(versions[k]);
        assert all[i] == accepted[i];
      }
    }
  }

  lemma AcceptKeepsInv(h: History, e: Event, maxSeen: nat)
    requires Inv(h, maxSeen) && Accepts(h.feed, e)
    ensures Inv(Step(h, Workspace(e), maxSeen), maxSeen)
  {
    WindowSlides(h.accepted, e, maxSeen);
    NewIsFarApart(h.accepted, e, maxSeen);
    NewVersionIsLatest(h.feed.versions, h.accepted, e);
  }

  lemma {:induction false} RunKeepsInv(inputs: seq<Input>, maxSeen: nat)
    ensures Inv(Run(inputs, maxSeen), maxSeen)
  {
    if inputs != [] {
      RunKeepsInv(inputs[..|inputs| - 1], maxSeen);
      var h, i := Run(inputs[..|inputs| - 1], maxSeen), inputs[|inputs| - 1];
      if i.Workspace? && Accepts(h.feed, i.event) { AcceptKeepsInv(h, i.event, maxSeen); }
    }
  }

  // The decision depends on the accepted history alone: the id must not be among the last maxSeen
  // accepted ones, and the version must be above every version accepted for that entity.
  lemma AcceptedIffNew(inputs: seq<Input>, maxSeen: nat, e: Event)
    ensures var h := Run(inputs, maxSeen);
            Accepts(h.feed, e) <==>
              && e.id !in LastOf(IdsOf(h.accepted), maxSeen)
              && (e.version.Some? ==>
                    forall i :: 0 <= i < |h.accepted| && h.accepted[i].entity == e.entity
                      && h.accepted[i].version.Some?
                      ==> h.accepted[i].version.value < e.version.value)
  {
    RunKeepsInv(inputs, maxSeen);
    var h := Run(inputs, maxSeen);
    if e.entity in h.feed.versions {
      var i :| 0 <= i < |h.accepted| && h.accepted[i].entity == e.entity
               && h.accepted[i].version == Some(h.feed.versions[e.entity]);
    }
  }

  // A versioned event gets through at most once, even long after its id is forgotten.
  lemma VersionedEventOnce(inputs: seq<Input>, maxSeen: nat, i: nat, j: nat)
    requires var a := Run(inputs, maxSeen).accepted; i < |a| && j < |a| && a[i] == a[j] && a[i].version.Some?
    ensures i == j
  {
    RunKeepsInv(inputs, maxSeen);
  }

  lemma MemoryIsBounded(inputs: seq<Input>, maxSeen: nat)
    ensures var h := Run(inputs, maxSeen);
            && |h.feed.seen| <= maxSeen
            && (forall i, j :: 0 <= i < j < |h.accepted| && h.accepted[i].id == h.accepted[j].id ==>
                 j - i - 1 >= maxSeen)
  {
    RunKeepsInv(inputs, maxSeen);
  }

  // While the connection is open, a change that has not been refreshed has a timer running for it,
  // and refreshes never outnumber the changes and signals that asked for one.
  lemma NoChangeIsForgotten(inputs: seq<Input>, maxSeen: nat)
    ensures var h := Run(inputs, maxSeen);
            && (!h.feed.closed ==> (h.owed <==> h.feed.timer))
            && h.feed.refreshes <= h.triggers
  {
    RunKeepsInv(inputs, maxSeen);
  }

  lemma {:induction false} ClosedByClose(inputs: seq<Input>, maxSeen: nat)
    ensures Run(inputs, maxSeen).feed.closed <==> Close in inputs
  {
    if inputs != [] {
      ClosedByClose(inputs[..|inputs| - 1], maxSeen);
      assert inputs == inputs[..|inputs| - 1] + [inputs[|inputs| - 1]];
    }
  }

  // A refresh happens exactly when the timer fires while the connection is open and a refresh is owed.
  lemma RefreshedExactly(inputs: seq<Input>, maxSeen: nat, i: Input)
    ensures Run(inputs + [i], maxSeen).feed.refreshes
         == Run(inputs, maxSeen).feed.refreshes
            + if i.TimerFires? && Close !in inputs && Run(inputs, maxSeen).owed then 1 else 0
  {
    RunKeepsInv(inputs, maxSeen);
    ClosedByClose(inputs, maxSeen);
    assert (inputs + [i])[..|inputs|] == inputs;
  }

  // Input k asked for a refresh that no timer has fired for since.
  ghost predicate AskedSince(inputs: seq<Input>, maxSeen: nat, k: int) {
    && 0 <= k < |inputs| && Triggers(Run(inputs[..k], maxSeen).feed, inputs[k])
    && forall j :: k < j < |inputs| ==> !inputs[j].TimerFires?
  }

  // So a refresh is owed exactly if something asked for one after the timer fired last, however often it asked.
  lemma {:induction false} OwedIffAskedSince(inputs: seq<Input>, maxSeen: nat)
    requires Close !in inputs
    ensures Run(inputs, maxSeen).owed <==> exists k :: AskedSince(inputs, maxSeen, k)
  {
    if inputs != [] {
      var n := |inputs| - 1;
      var init := inputs[..n];
      OwedIffAskedSince(init, maxSeen);
      assert inputs == init + [inputs[n]];
      RefreshedExactly(init, maxSeen, inputs[n]);
      forall k | 0 <= k < n
        ensures AskedSince(inputs, maxSeen, k) <==> AskedSince(init, maxSeen, k) && !inputs[n].TimerFires?
      {
        assert inputs[..k] == init[..k] && inputs[k] == init[k];
      }
      assert AskedSince(inputs, maxSeen, n) <==> Triggers(Run(init, maxSeen).feed, inputs[n]);
    }
  }

  // And it arrives when the timer fires, once.
  lemma OwedRefreshArrives(inputs: seq<Input>, maxSeen: nat)
    requires Close !in inputs && Run(inputs, maxSeen).owed
    ensures var once, twice := inputs + [TimerFires], inputs + [TimerFires] + [TimerFires];
            && Run(once, maxSeen).feed.refreshes == Run(inputs, maxSeen).feed.refreshes + 1
            && !Run(once, maxSeen).owed && Run(twice, maxSeen).feed.refreshes == Run(once, maxSeen).feed.refreshes
  {
    RefreshedExactly(inputs, maxSeen, TimerFires);
    assert (inputs + [TimerFires])[..|inputs|] == inputs;
    RefreshedExactly(inputs + [TimerFires], maxSeen, TimerFires);
  }

  // Nothing refreshes after the connection is closed.
  lemma {:induction false} ClosedStaysQuiet(inputs: seq<Input>, more: seq<Input>, maxSeen: nat)
    requires Run(inputs, maxSeen).feed.closed
    ensures Run(inputs + more, maxSeen).feed.closed
    ensures Run(inputs + more, maxSeen).feed.refreshes == Run(inputs, maxSeen).feed.refreshes
  {
    if more == [] {
      assert inputs + more == inputs;
    } else {
      ClosedStaysQuiet(inputs, more[..|more| - 1], maxSeen);
      assert (inputs + more)[..|inputs + more| - 1] == inputs + more[..|more| - 1];
      RunKeepsInv(inputs + more[..|more| - 1], maxSeen);
    }
  }
}
