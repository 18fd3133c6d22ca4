/** The mutation refresh coordinator: refreshes wait until no mutation is open. */
module RefreshCoordinator {

  datatype State = State(depth: nat, queued: bool, timer: bool, disposed: bool, refreshes: nat)

  const NEW := State(0, false, false, false, 0)

  // `blocked` is what isBlocked() answers if it is asked.
  datatype Input = Begin | Request(blocked: bool) | End(force: bool, blocked: bool)
    | TimerFires(blocked: bool) | Dispose

  function Flush(s: State, blocked: bool): State {
    if s.disposed || s.depth > 0 || blocked || !s.queued || s.timer then s else s.(timer := true)
  }

  function Next(s: State, i: Input): State {
    match i
    case Begin => if s.disposed then s else s.(depth := s.depth + 1)
    case Request(blocked) => if s.disposed then s else Flush(s.(queued := true), blocked)
    case End(force, blocked) =>
      if s.disposed then s
      else Flush(s.(depth := if s.depth > 0 then s.depth - 1 else 0, queued := s.queued || force), blocked)
    case TimerFires(blocked) =>
      if !s.timer then s
      else if s.disposed then s.(timer := false)
      else if s.depth > 0 || blocked then s.(timer := false, queued := true)
      else s.(timer := false, queued := false, refreshes := s.refreshes + 1)
    case Dispose => if s.disposed then s else s.(disposed := true, timer := false)
  }

  class Coordinator {
    var mutationDepth: nat
    var refreshQueued: bool
    var timer: bool
    var disposed: bool
    ghost var refreshes: nat

    constructor ()
      ensures View() == NEW
    {
      mutationDepth, refreshQueued, timer, disposed, refreshes := 0, false, false, false, 0;
    }

    ghost function View(): State
      reads this
    {
      State(mutationDepth, refreshQueued, timer, disposed, refreshes)
    }

    method FlushQueue(blocked: bool)
      modifies this
      ensures View() == Flush(old(View()), blocked)
    {
      if disposed || mutationDepth > 0 || blocked || !refreshQueued || timer { return; }
      timer := true;
    }

    method OnTimer(blocked: bool)
      modifies this
      ensures View() == Next(old(View()), TimerFires(blocked))
    {
      if !timer { return; }
      timer := false;
      if disposed { return; }
      if mutationDepth > 0 || blocked {
        refreshQueued := true;
        return;
      }
      refreshQueued := false;
      refreshes := refreshes + 1;
    }

    method BeginMutation()
      modifies this
      ensures View() == Next(old(View()), Begin)
    {
      if !disposed { mutationDepth := mutationDepth + 1; }
    }

    method RequestRefresh(blocked: bool)
      modifies this
      ensures View() == Next(old(View()), Request(blocked))
    {
      if disposed { return; }
      refreshQueued := true;
      FlushQueue(blocked);
    }

    method EndMutation(force: bool, blocked: bool)
      modifies this
      ensures View() == Next(old(View()), End(force, blocked))
    {
      if disposed { return; }
      mutationDepth := if mutationDepth > 0 then mutationDepth - 1 else 0;
      refreshQueued := refreshQueued || force;
      FlushQueue(blocked);
    }

    method DisposeOf()
      modifies this
      ensures View() == Next(old(View()), Dispose)
    {
      if disposed { return; }
      disposed := true;
      if timer { timer := false; }
    }
  }

  // --- whole runs ---

  // Beside the state: how many refreshes were asked for, whether one is still owed, which only a refresh settles,
  // and whether the last time isBlocked() was asked it said yes and no timer was left running.
  datatype History = History(state: State, asked: nat, owed: bool, stalled: bool)

  predicate Asks(s: State, i: Input) {
    !s.disposed && (i.Request? || (i.End? && i.force))
  }

  // How many mutations are open; an end without a begin closes none.
  function Open(inputs: seq<Input>): nat {
    if inputs == [] then 0
    else
      var before := Open(inputs[..|inputs| - 1]);
      match inputs[|inputs| - 1]
      case Begin => before + 1
      case End(_, _) => if before == 0 then 0 else before - 1
      case _ => before
  }

  predicate Gone(inputs: seq<Input>) {
    Dispose in inputs
  }

  // The step gets as far as calling isBlocked().
  predicate Checks(s: State, i: Input) {
    && !s.disposed
    && ((i.Request? && s.depth == 0) || (i.End? && s.depth <= 1) || (i.TimerFires? && s.timer && s.depth == 0))
  }

  function Step(h: History, i: Input): History {
    History(Next(h.state, i),
            h.asked + if Asks(h.state, i) then 1 else 0,
            (h.owed && Next(h.state, i).refreshes == h.state.refreshes) || Asks(h.state, i),
            if Checks(h.state, i) then i.blocked && !Next(h.state, i).timer else h.stalled)
  }

  function Run(inputs: seq<Input>): History {
    if inputs == [] then History(NEW, 0, false, false) else Step(Run(inputs[..|inputs| - 1]), inputs[|inputs| - 1])
  }

  ghost predicate Inv(h: History) {
    && (h.state.disposed ==> !h.state.timer)
    && (!h.state.disposed ==> (h.owed <==> h.state.queued))
    && (h.state.timer ==> h.state.queued)
    && (!h.state.disposed && h.state.queued && h.state.depth == 0 ==> (!h.state.timer <==> h.stalled))
    && h.state.refreshes + (if h.state.queued then 1 else 0) <= h.asked
  }

  lemma {:induction false} RunKeepsInv(inputs: seq<Input>)
    ensures Inv(Run(inputs))
  {
    if inputs != [] { RunKeepsInv(inputs[..|inputs| - 1]); }
  }

  // The depth counts the open mutations, for as long as the coordinator lives.
  lemma {:induction false} DepthIsOpen(inputs: seq<Input>)
    ensures Run(inputs).state.disposed <==> Gone(inputs)
    ensures !Gone(inputs) ==> Run(inputs).state.depth == Open(inputs)
  {
    if inputs != [] {
      var init, last := inputs[..|inputs| - 1], inputs[|inputs| - 1];
      DepthIsOpen(init);
      assert inputs == init + [last];
    }
  }

  // A refresh happens exactly when the timer fires with the coordinator alive, no mutation open, no block, and a
  // refresh owed that no earlier block has stalled.
  lemma RefreshOnlyWhenIdle(inputs: seq<Input>, i: Input)
    ensures var h, h' := Run(inputs), Run(inputs + [i]);
            h'.state.refreshes == h.state.refreshes
              + if i == TimerFires(false) && !Gone(inputs) && Open(inputs) == 0 && h.owed && !h.stalled then 1 else 0
  {
    RunKeepsInv(inputs);
    DepthIsOpen(inputs);
    assert (inputs + [i])[..|inputs|] == inputs;
  }

  // Each refresh answers a request or a forced end of its own.
  lemma RefreshesAreAskedFor(inputs: seq<Input>)
    ensures Run(inputs).state.refreshes <= Run(inputs).asked
  {
    RunKeepsInv(inputs);
  }

  ghost predicate NeverBlocked(inputs: seq<Input>) {
    forall i :: 0 <= i < |inputs| && !inputs[i].Begin? && !inputs[i].Dispose? ==> !inputs[i].blocked
  }

  lemma {:induction false} NeverStalled(inputs: seq<Input>)
    requires NeverBlocked(inputs)
    ensures !Run(inputs).stalled
  {
    if inputs != [] {
      var init := inputs[..|inputs| - 1];
      assert forall i :: 0 <= i < |init| ==> init[i] == inputs[i];
      NeverStalled(init);
    }
  }

  // With the default isBlocked no request is lost: one that is still owed has a timer, or a mutation is open ...
  lemma OwedRefreshIsUnderWay(inputs: seq<Input>)
    requires NeverBlocked(inputs) && !Gone(inputs) && Run(inputs).owed
    ensures Run(inputs).state.timer || Open(inputs) > 0
  {
    RunKeepsInv(inputs);
    DepthIsOpen(inputs);
    NeverStalled(inputs);
  }

  function Ends(n: nat): seq<Input> {
    if n == 0 then [] else Ends(n - 1) + [End(false, false)]
  }

  lemma RunSnoc(inputs: seq<Input>, i: Input)
    ensures Run(inputs + [i]) == Step(Run(inputs), i)
  {
    assert (inputs + [i])[..|inputs|] == inputs;
  }

  function EndAll(h: History, n: nat): History {
    if n == 0 then h else Step(EndAll(h, n - 1), End(false, false))
  }

  lemma {:induction false} RunEnds(inputs: seq<Input>, n: nat)
    ensures Run(inputs + Ends(n)) == EndAll(Run(inputs), n)
  {
    if n == 0 {
      assert inputs + Ends(0) == inputs;
    } else {
      RunEnds(inputs, n - 1);
      assert inputs + Ends(n) == inputs + Ends(n - 1) + [End(false, false)];
      RunSnoc(inputs + Ends(n - 1), End(false, false));
    }
  }

  lemma {:induction false} EndsNeverBlock(inputs: seq<Input>, n: nat)
    requires NeverBlocked(inputs)
    ensures NeverBlocked(inputs + Ends(n))
  {
    if n == 0 {
      assert inputs + Ends(0) == inputs;
    } else {
      EndsNeverBlock(inputs, n - 1);
      assert inputs + Ends(n) == inputs + Ends(n - 1) + [End(false, false)];
    }
  }

  lemma {:induction false} EndsNotGone(inputs: seq<Input>, n: nat)
    requires !Gone(inputs)
    ensures !Gone(inputs + Ends(n))
  {
    if n > 0 { EndsNotGone(inputs, n - 1); }
  }

  // ... and ending the open mutations keeps it owed ...
  lemma {:induction false} ClosingMutations(h: History, n: nat)
    requires !h.state.disposed && h.owed && n <= h.state.depth
    ensures var t := EndAll(h, n);
            !t.state.disposed && t.owed && t.state.depth == h.state.depth - n && t.state.refreshes == h.state.refreshes
  {
    if n > 0 { ClosingMutations(h, n - 1); }
  }

  // ... until the timer fires and performs it, exactly once.
  lemma OwedRefreshArrives(inputs: seq<Input>)
    requires NeverBlocked(inputs) && !Gone(inputs) && Run(inputs).owed
    ensures var done := Run(inputs + Ends(Open(inputs)) + [TimerFires(false)]);
            done.state.refreshes == Run(inputs).state.refreshes + 1 && !done.owed
  {
    var depth := Open(inputs);
    DepthIsOpen(inputs);
    EndsNotGone(inputs, depth);
    RunEnds(inputs, depth);
    EndsNeverBlock(inputs, depth);
    ClosingMutations(Run(inputs), depth);
    OwedRefreshIsUnderWay(inputs + Ends(depth));
    DepthIsOpen(inputs + Ends(depth));
    RunSnoc(inputs + Ends(depth), TimerFires(false));
  }

  // An owed refresh that nothing will perform: no timer, and no mutation whose end would check again.
  predicate Stranded(s: State) {
    !s.disposed && s.queued && !s.timer && s.depth == 0
  }

  // A refresh is stranded exactly when it is owed, no mutation is open and the last check met a block.
  lemma StrandedIff(inputs: seq<Input>)
    ensures var h := Run(inputs);
            Stranded(h.state) <==> !Gone(inputs) && h.owed && Open(inputs) == 0 && h.stalled
  {
    DepthIsOpen(inputs);
    RunKeepsInv(inputs);
  }

  // It stays so until someone mutates, requests or ends without a block, or disposes: no timer ends it.
  lemma StrandedUntil(s: State, i: Input)
    requires Stranded(s)
    ensures Stranded(Next(s, i)) <==> i.TimerFires? || ((i.Request? || i.End?) && i.blocked)
    ensures Next(s, i).refreshes == s.refreshes
  {
  }

  // A block that is in force when the timer fires leaves the request queued with nothing to wake it up.
  lemma BlockCanStrandARequest()
    ensures var h := Run([Request(false), TimerFires(true)]);
            h.owed && h.state.queued && !h.state.timer && h.state.depth == 0
  {
    assert [Request(false), TimerFires(true)][..1] == [Request(false)];
    assert [Request(false)][..0] == [];
  }
}
