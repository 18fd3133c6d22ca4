/** Concurrent retries of a run: the unlocked check, the advisory lock, the check again under the
    lock, the insert and its commit are separate steps of each caller, and other writers act in between. */
module RetryRun {
  import opened Common

  datatype RunKey = Retry(run: int, attempt: nat) | Plain(text: string)

  // `born` is the attempt number the row was inserted with; `leased` is a running row whose lease is live.
  datatype Row = Row(org: int, key: RunKey, task: int, attempt: nat, maxAttempts: nat, leased: bool, born: nat)

  datatype Refusal = NotFound | ActiveLease | RetryLimit | Failed

  datatype Pc =
    | Entered
    | Checked(attempt: nat)                   // knows the key, has not looked for it
    | Waiting(attempt: nat)                   // found nothing, waits for the lock
    | Locked                                  // inside the transaction, lock held
    | Rechecked(attempt: nat)                 // parent row locked and read again
    | Inserting(attempt: nat)                 // found nothing under the lock
    | Inserted(attempt: nat, id: int, row: Row) // row written, not committed
    | Conflicted(attempt: nat)                // unique violation, savepoint rolled back
    | Returned(attempt: nat, id: int)
    | Refused(why: Refusal)
  datatype Caller = Caller(org: int, run: int, pc: Pc)
  datatype System = System(runs: map<int, Row>, callers: map<nat, Caller>)

  datatype Event =
    | Call(c: nat, org: int, run: int)
    | Advance(c: nat, isMember: bool, newId: int)
    | Abort(c: nat)
    | Foreign(id: int, row: Row)              // another writer commits a run
    | Touch(run: int, attempt: nat, leased: bool) // the dispatcher claims, fails or completes a run

  ghost predicate Holds(runs: map<int, Row>, id: int, org: int, key: RunKey) {
    id in runs && runs[id].org == org && runs[id].key == key
  }

  // The row with this organization and idempotency key, if there is one.
  ghost function Find(runs: map<int, Row>, org: int, key: RunKey): (r: Option<int>)
    ensures r.Some? ==> Holds(runs, r.value, org, key)
    ensures r.None? ==> forall id :: !Holds(runs, id, org, key)
  {
    if exists id :: Holds(runs, id, org, key) then
      var id :| Holds(runs, id, org, key); Some(id)
    else None
  }

  predicate InTransaction(pc: Pc) {
    pc.Locked? || pc.Rechecked? || pc.Inserting? || pc.Inserted?
  }

  predicate HasRowLock(pc: Pc) {
    pc.Rechecked? || pc.Inserting? || pc.Inserted?
  }

  ghost predicate LockFree(s: System, org: int, run: int) {
    forall d :: d in s.callers && InTransaction(s.callers[d].pc) ==> s.callers[d].org != org || s.callers[d].run != run
  }

  ghost predicate NotPending(s: System, org: int, key: RunKey) {
    forall d :: d in s.callers && s.callers[d].pc.Inserted? ==>
      s.callers[d].pc.row.org != org || s.callers[d].pc.row.key != key
  }

  ghost predicate FreshId(s: System, id: int) {
    id !in s.runs && forall d :: d in s.callers && s.callers[d].pc.Inserted? ==> s.callers[d].pc.id != id
  }

  // The checks on the parent row, made once without and once with the lock.
  function Check(s: System, c: Caller, isMember: bool): Result<nat, Refusal> {
    if c.run !in s.runs || s.runs[c.run].org != c.org || !isMember then Err(NotFound)
    else if s.runs[c.run].leased then Err(ActiveLease)
    else if s.runs[c.run].attempt >= s.runs[c.run].maxAttempts then Err(RetryLimit)
    else Ok(s.runs[c.run].attempt)
  }

  function ChildRow(parent: Row, run: int): Row {
    Row(parent.org, Retry(run, parent.attempt + 1), parent.task, parent.attempt + 1, parent.maxAttempts, false,
        parent.attempt + 1)
  }

  ghost function NextPc(s: System, c: Caller, isMember: bool, newId: int): Pc {
    match c.pc
    case Entered => (match Check(s, c, isMember) case Err(e) => Refused(e) case Ok(a) => Checked(a))
    case Checked(a) =>
      (match Find(s.runs, c.org, Retry(c.run, a + 1))
       case Some(id) => Returned(a, id)
       case None => Waiting(a))
    case Waiting(_) => if LockFree(s, c.org, c.run) then Locked else c.pc
    case Locked => (match Check(s, c, isMember) case Err(e) => Refused(e) case Ok(a) => Rechecked(a))
    case Rechecked(a) =>
      (match Find(s.runs, c.org, Retry(c.run, a + 1))
       case Some(id) => Returned(a, id)
       case None => Inserting(a))
    case Inserting(a) =>
      if Find(s.runs, c.org, Retry(c.run, a + 1)).Some? then Conflicted(a)
      else if NotPending(s, c.org, Retry(c.run, a + 1)) && FreshId(s, newId) && c.run in s.runs
      then Inserted(a, newId, ChildRow(s.runs[c.run], c.run))
      else c.pc
    case Inserted(a, id, _) => Returned(a, id)
    case Conflicted(a) =>
      (match Find(s.runs, c.org, Retry(c.run, a + 1))
       case Some(id) => Returned(a, id)
       case None => Refused(Failed))
    case _ => c.pc
  }

  ghost function Step(s: System, e: Event): System {
    match e
    case Call(c, org, run) =>
      if c in s.callers then s else s.(callers := s.callers[c := Caller(org, run, Entered)])
    case Advance(c, isMember, newId) =>
      if c !in s.callers then s
      else
        var caller := s.callers[c];
        System(if caller.pc.Inserted? then s.runs[caller.pc.id := caller.pc.row] else s.runs,
               s.callers[c := caller.(pc := NextPc(s, caller, isMember, newId))])
    case Abort(c) =>
      if c !in s.callers || s.callers[c].pc.Returned? then s
      else s.(callers := s.callers[c := s.callers[c].(pc := Refused(Failed))])
    case Foreign(id, row) =>
      if FreshId(s, id) && row.born == row.attempt && NotPending(s, row.org, row.key)
         && Find(s.runs, row.org, row.key).None?
      then s.(runs := s.runs[id := row]) else s
    case Touch(run, attempt, leased) =>
      if && run in s.runs && s.runs[run].attempt <= attempt
         && (attempt == s.runs[run].attempt || attempt <= s.runs[run].maxAttempts)
         && (forall d :: d in s.callers && HasRowLock(s.callers[d].pc) ==> s.callers[d].run != run)
      then s.(runs := s.runs[run := s.runs[run].(attempt := attempt, leased := leased)]) else s
  }

  ghost function Run(s: System, events: seq<Event>): System {
    if events == [] then s else Step(Run(s, events[..|events| - 1]), events[|events| - 1])
  }

  // --- what every run keeps ---

  ghost predicate KeysUnique(runs: map<int, Row>) {
    forall i, j :: i in runs && j in runs && runs[i].org == runs[j].org && runs[i].key == runs[j].key ==> i == j
  }

  // An uncommitted row clashes neither with a committed one nor with another uncommitted one.
  ghost predicate PendingUnique(s: System) {
    && (forall c, i :: c in s.callers && s.callers[c].pc.Inserted? && i in s.runs ==>
          i != s.callers[c].pc.id
          && !(s.runs[i].org == s.callers[c].pc.row.org && s.runs[i].key == s.callers[c].pc.row.key))
    && (forall c, d ::
          c in s.callers && d in s.callers && c != d && s.callers[c].pc.Inserted? && s.callers[d].pc.Inserted? ==>
            && s.callers[c].pc.id != s.callers[d].pc.id
            && !(s.callers[c].pc.row.org == s.callers[d].pc.row.org
                 && s.callers[c].pc.row.key == s.callers[d].pc.row.key))
  }

  ghost predicate LockExclusive(s: System) {
    forall c, d :: c in s.callers && d in s.callers && c != d && InTransaction(s.callers[c].pc)
      && InTransaction(s.callers[d].pc)
      ==> s.callers[c].org != s.callers[d].org || s.callers[c].run != s.callers[d].run
  }

  // Under the row lock the caller's view of the parent is current, and no lease is live; a written row is the
  // parent's child; a returned row is the one with the caller's key.
  ghost predicate CallerOk(s: System, c: Caller) {
    && (HasRowLock(c.pc) ==>
          && c.run in s.runs && s.runs[c.run].org == c.org
          && s.runs[c.run].attempt == c.pc.attempt < s.runs[c.run].maxAttempts && !s.runs[c.run].leased)
    && (c.pc.Inserted? ==> c.pc.row == ChildRow(s.runs[c.run], c.run))
    && (c.pc.Returned? ==> Holds(s.runs, c.pc.id, c.org, Retry(c.run, c.pc.attempt + 1)))
  }

  ghost predicate Inv(s: System) {
    && KeysUnique(s.runs) && PendingUnique(s) && LockExclusive(s)
    && (forall i :: i in s.runs ==> s.runs[i].born <= s.runs[i].attempt)
    && (forall c :: c in s.callers ==> CallerOk(s, s.callers[c]))
  }

  function WithCaller(s: System, c: nat, caller: Caller): System {
    s.(callers := s.callers[c := caller])
  }

  lemma MoveKeepsPending(s: System, c: nat, caller: Caller)
    requires PendingUnique(s) && !caller.pc.Inserted?
    ensures PendingUnique(WithCaller(s, c, caller))
  {
  }

  ghost predicate MayHoldLock(s: System, c: nat, caller: Caller) {
    InTransaction(caller.pc) ==>
      || LockFree(s, caller.org, caller.run)
      || (c in s.callers && InTransaction(s.callers[c].pc) && s.callers[c].org == caller.org
          && s.callers[c].run == caller.run)
  }

  lemma MoveKeepsLock(s: System, c: nat, caller: Caller)
    requires LockExclusive(s) && MayHoldLock(s, c, caller)
    ensures LockExclusive(WithCaller(s, c, caller))
  {
  }

  lemma MoveKeepsCallers(s: System, c: nat, caller: Caller)
    requires (forall d :: d in s.callers ==> CallerOk(s, s.callers[d])) && CallerOk(s, caller)
    ensures var t := WithCaller(s, c, caller); forall d :: d in t.callers ==> CallerOk(t, t.callers[d])
  {
    var t := WithCaller(s, c, caller);
    forall d | d in t.callers ensures CallerOk(t, t.callers[d]) {
      if d != c { assert CallerOk(s, s.callers[d]); }
    }
  }

  // A caller moves without writing: it may enter the transaction only when the lock is free.
  lemma MoveKeepsInv(s: System, c: nat, caller: Caller)
    requires Inv(s) && !caller.pc.Inserted? && CallerOk(s, caller) && MayHoldLock(s, c, caller)
    ensures Inv(WithCaller(s, c, caller))
  {
    MoveKeepsPending(s, c, caller);
    MoveKeepsLock(s, c, caller);
    MoveKeepsCallers(s, c, caller);
  }

  lemma InsertKeepsPending(s: System, c: nat, caller: Caller)
    requires PendingUnique(s) && caller.pc.Inserted?
    requires FreshId(s, caller.pc.id) && NotPending(s, caller.pc.row.org, caller.pc.row.key)
    requires Find(s.runs, caller.pc.row.org, caller.pc.row.key).None?
    ensures PendingUnique(WithCaller(s, c, caller))
  {
    var row := caller.pc.row;
    forall i | i in s.runs ensures !(s.runs[i].org == row.org && s.runs[i].key == row.key) {
      assert !Holds(s.runs, i, row.org, row.key);
    }
  }

  lemma InsertKeepsInv(s: System, c: nat, newId: int)
    requires Inv(s) && c in s.callers && s.callers[c].pc.Inserting?
    requires var caller := s.callers[c]; var key := Retry(caller.run, caller.pc.attempt + 1);
             Find(s.runs, caller.org, key).None? && NotPending(s, caller.org, key)
             && FreshId(s, newId) && caller.run in s.runs
    ensures Inv(Step(s, Advance(c, true, newId)))
  {
    var caller := s.callers[c];
    assert CallerOk(s, caller);
    var moved := caller.(pc := Inserted(caller.pc.attempt, newId, ChildRow(s.runs[caller.run], caller.run)));
    assert Step(s, Advance(c, true, newId)) == WithCaller(s, c, moved);
    InsertKeepsPending(s, c, moved);
    MoveKeepsLock(s, c, moved);
    MoveKeepsCallers(s, c, moved);
  }

  // Committed rows that others rely on are still there when a new row is added.
  lemma AddedRowKeepsCallers(s: System, id: int, row: Row, c: Caller)
    requires CallerOk(s, c) && id !in s.runs
    ensures CallerOk(s.(runs := s.runs[id := row]), c)
  {
  }

  lemma CommitKeepsKeys(s: System, c: nat)
    requires KeysUnique(s.runs) && PendingUnique(s) && c in s.callers && s.callers[c].pc.Inserted?
    ensures KeysUnique(Step(s, Advance(c, true, 0)).runs)
  {
  }

  lemma CommitKeepsPending(s: System, c: nat)
    requires PendingUnique(s) && c in s.callers && s.callers[c].pc.Inserted?
    ensures PendingUnique(Step(s, Advance(c, true, 0)))
  {
  }

  lemma CommitKeepsCallers(s: System, c: nat)
    requires Inv(s) && c in s.callers && s.callers[c].pc.Inserted?
    ensures var t := Step(s, Advance(c, true, 0)); forall d :: d in t.callers ==> CallerOk(t, t.callers[d])
  {
    var caller := s.callers[c];
    assert CallerOk(s, caller);
    var t := Step(s, Advance(c, true, 0));
    forall d | d in t.callers ensures CallerOk(t, t.callers[d]) {
      if d != c {
        assert CallerOk(s, s.callers[d]);
        AddedRowKeepsCallers(s, caller.pc.id, caller.pc.row, s.callers[d]);
      }
    }
  }

  lemma CommitKeepsInv(s: System, c: nat)
    requires Inv(s) && c in s.callers && s.callers[c].pc.Inserted?
    ensures Inv(Step(s, Advance(c, true, 0)))
  {
    var caller := s.callers[c];
    assert CallerOk(s, caller);
    CommitKeepsKeys(s, c);
    CommitKeepsPending(s, c);
    CommitKeepsCallers(s, c);
    MoveKeepsLock(s, c, caller.(pc := Returned(caller.pc.attempt, caller.pc.id)));
  }

  lemma ForeignKeepsInv(s: System, id: int, row: Row)
    requires Inv(s)
    ensures Inv(Step(s, Foreign(id, row)))
  {
    var t := Step(s, Foreign(id, row));
    if t != s {
      forall i | i in s.runs ensures !(s.runs[i].org == row.org && s.runs[i].key == row.key) {
        assert !Holds(s.runs, i, row.org, row.key);
      }
      forall d | d in t.callers ensures CallerOk(t, t.callers[d]) {
        AddedRowKeepsCallers(s, id, row, s.callers[d]);
      }
    }
  }

  lemma TouchKeepsInv(s: System, run: int, attempt: nat, leased: bool)
    requires Inv(s)
    ensures Inv(Step(s, Touch(run, attempt, leased)))
  {
    var t := Step(s, Touch(run, attempt, leased));
    forall d | d in t.callers ensures CallerOk(t, t.callers[d]) {
      assert CallerOk(s, s.callers[d]);
    }
  }

  lemma AdvanceKeepsInv(s: System, c: nat, isMember: bool, newId: int)
    requires Inv(s) && c in s.callers
    ensures Inv(Step(s, Advance(c, isMember, newId)))
  {
    var caller := s.callers[c];
    assert CallerOk(s, caller);
    var next := NextPc(s, caller, isMember, newId);
    if caller.pc.Inserted? {
      CommitKeepsInv(s, c);
    } else if next.Inserted? {
      InsertKeepsInv(s, c, newId);
    } else {
      assert Step(s, Advance(c, isMember, newId)) == WithCaller(s, c, caller.(pc := next));
      MoveKeepsInv(s, c, caller.(pc := next));
    }
  }

  lemma StepKeepsInv(s: System, e: Event)
    requires Inv(s)
    ensures Inv(Step(s, e))
  {
    match e
    case Call(c, org, run) => if c !in s.callers { MoveKeepsInv(s, c, Caller(org, run, Entered)); }
    case Advance(c, isMember, newId) => if c in s.callers { AdvanceKeepsInv(s, c, isMember, newId); }
    case Abort(c) => if Step(s, e) != s { MoveKeepsInv(s, c, s.callers[c].(pc := Refused(Failed))); }
    case Foreign(id, row) => ForeignKeepsInv(s, id, row);
    case Touch(run, attempt, leased) => TouchKeepsInv(s, run, attempt, leased);
  }
}
