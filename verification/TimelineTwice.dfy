/** Reconciling the same incoming messages twice. A message can take over, by its client id, a row that an earlier
    incoming message has renewed, and the second time that earlier message no longer finds its row. Without such
    a takeover twice is the same as once; `TimelineExact` shows that the condition is exact. */
module TimelineTwice {
  import opened Common
  import opened MessageReconciliation
  import opened TimelineTheorems

  // Linked by the client id alone.
  predicate Collide(a: Message, b: Message) {
    Same(a, b) && a.id != b.id
  }

  function Ids(ms: seq<Message>): set<string> {
    set m | m in ms :: m.id
  }

  // One client id, one id.
  ghost predicate Coherent(ms: seq<Message>) {
    forall m, n :: m in ms && n in ms ==> !Collide(m, n)
  }

  // One of the messages took r over already, or gave it another client id.
  ghost predicate Freed(r: Message, ms: seq<Message>) {
    exists m :: m in ms && (Collide(r, m) || (m.id == r.id && m.clientId.Some?))
  }

  // A message that would take over a row by the client id the row had at first, after earlier messages have
  // renewed that row, comes too late: the row is gone or has another client id.
  ghost predicate TakesOverNoRenewedRow(rows: seq<Message>, ms: seq<Message>) {
    forall r, j :: r in rows && 0 <= j < |ms| && Collide(r, ms[j]) && r.id in Ids(ms[..j]) ==> Freed(r, ms[..j])
  }

  // --- what the messages of one id come to ---

  datatype Change = Change(clientId: Option<string>, createdAt: Option<string>, rest: map<string, string>)

  function ChangeOf(ms: seq<Message>, id: string): Change {
    if ms == [] then Change(None, None, map[])
    else
      var c, m := ChangeOf(ms[..|ms| - 1], id), ms[|ms| - 1];
      if m.id == id then Change(if m.clientId.Some? then m.clientId else c.clientId, Some(m.createdAt), c.rest + m.rest)
      else c
  }

  function Patch(r: Message, c: Change): Message {
    Message(r.id, if c.clientId.Some? then c.clientId else r.clientId,
            if c.createdAt.Some? then c.createdAt.value else r.createdAt, r.rest + c.rest)
  }

  lemma ChangeSnoc(ms: seq<Message>, m: Message, id: string)
    ensures var c := ChangeOf(ms, id);
            ChangeOf(ms + [m], id) ==
            if m.id == id
            then Change(if m.clientId.Some? then m.clientId else c.clientId, Some(m.createdAt), c.rest + m.rest) else c
    ensures Ids(ms + [m]) == Ids(ms) + {m.id}
  {
    assert (ms + [m])[..|ms|] == ms;
    assert forall n :: n in ms + [m] <==> n in ms || n == m;
  }

  lemma {:induction false} NoChange(ms: seq<Message>, id: string)
    requires id !in Ids(ms)
    ensures ChangeOf(ms, id) == Change(None, None, map[])
  {
    if ms != [] {
      var init, m := ms[..|ms| - 1], ms[|ms| - 1];
      assert ms == init + [m];
      ChangeSnoc(init, m, id);
      NoChange(init, id);
    }
  }

  // One more message on top of the others.
  lemma PatchThenSpread(b: Message, ms: seq<Message>, m: Message)
    requires m.id == b.id
    ensures Spread(Patch(b, ChangeOf(ms, b.id)), m) == Patch(b, ChangeOf(ms + [m], b.id))
  {
    ChangeSnoc(ms, m, b.id);
    var c := ChangeOf(ms, b.id);
    assert b.rest + c.rest + m.rest == b.rest + (c.rest + m.rest);
  }

  // The messages so far would change nothing in r.
  predicate Settled(r: Message, ms: seq<Message>) {
    Patch(r, ChangeOf(ms, r.id)) == r
  }

  lemma SettledMeans(r: Message, c: Change)
    ensures Patch(r, c) == r <==>
            && (c.clientId.Some? ==> r.clientId == c.clientId)
            && (c.createdAt.Some? ==> r.createdAt == c.createdAt.value)
            && forall k :: k in c.rest ==> k in r.rest && r.rest[k] == c.rest[k]
  {
    if Patch(r, c) == r {
      forall k | k in c.rest ensures k in r.rest && r.rest[k] == c.rest[k] {
        assert (r.rest + c.rest)[k] == c.rest[k];
      }
    } else if forall k :: k in c.rest ==> k in r.rest && r.rest[k] == c.rest[k] {
      assert r.rest + c.rest == r.rest;
    }
  }

  // A settled row spread under the next message gives a settled row.
  lemma StaysSettled(y: Message, r: Message, ms: seq<Message>, m: Message)
    requires Settled(r, ms) && r.id == m.id
    ensures Settled(Spread(Spread(y, r), m), ms + [m])
  {
    ChangeSnoc(ms, m, r.id);
    SettledMeans(r, ChangeOf(ms, r.id));
    SettledMeans(Spread(Spread(y, r), m), ChangeOf(ms + [m], r.id));
  }

  lemma NewIsSettled(y: Message, ms: seq<Message>, m: Message)
    requires m.id !in Ids(ms)
    ensures Settled(Spread(y, m), ms + [m])
  {
    ChangeSnoc(ms, m, m.id);
    NoChange(ms, m.id);
    SettledMeans(Spread(y, m), ChangeOf(ms + [m], m.id));
  }

  lemma OthersStaySettled(r: Message, ms: seq<Message>, m: Message)
    requires Settled(r, ms) && r.id != m.id
    ensures Settled(r, ms + [m])
  {
    ChangeSnoc(ms, m, r.id);
  }

  // --- the ids in the order in which they were last written ---

  function Drop(ids: seq<string>, id: string): seq<string> {
    if ids == [] then []
    else Drop(ids[..|ids| - 1], id) + if ids[|ids| - 1] == id then [] else [ids[|ids| - 1]]
  }

  function LastIds(ms: seq<Message>): seq<string> {
    if ms == [] then [] else Drop(LastIds(ms[..|ms| - 1]), ms[|ms| - 1].id) + [ms[|ms| - 1].id]
  }

  function IdsOf(rows: seq<Message>): (ids: seq<string>)
    ensures |ids| == |rows| && forall k :: 0 <= k < |rows| ==> ids[k] == rows[k].id
  {
    if rows == [] then [] else IdsOf(rows[..|rows| - 1]) + [rows[|rows| - 1].id]
  }

  lemma {:induction false} WithoutDropsId(rows: seq<Message>, m: Message)
    requires forall r :: r in rows ==> (Same(r, m) <==> r.id == m.id)
    ensures IdsOf(Without(rows, m)) == Drop(IdsOf(rows), m.id)
  {
    if rows != [] {
      var init, last := rows[..|rows| - 1], rows[|rows| - 1];
      assert rows == init + [last];
      WithoutDropsId(init, m);
      DropsIdOn(init, last, m);
    }
  }

  lemma DropsIdOn(init: seq<Message>, last: Message, m: Message)
    requires IdsOf(Without(init, m)) == Drop(IdsOf(init), m.id) && (Same(last, m) <==> last.id == m.id)
    ensures IdsOf(Without(init + [last], m)) == Drop(IdsOf(init + [last]), m.id)
  {
    assert (init + [last])[..|init|] == init;
    IdsSnoc(init, last);
    DropSnoc(IdsOf(init), last.id, m.id);
    if !Same(last, m) { IdsSnoc(Without(init, m), last); }
  }

  lemma IdsSnoc(rows: seq<Message>, m: Message)
    ensures IdsOf(rows + [m]) == IdsOf(rows) + [m.id]
  {
    assert (rows + [m])[..|rows|] == rows;
  }

  lemma DropSnoc(ids: seq<string>, last: string, id: string)
    ensures Drop(ids + [last], id) == Drop(ids, id) + if last == id then [] else [last]
  {
    assert (ids + [last])[..|ids|] == ids;
  }

  // --- one message ---

  lemma {:induction false} UnmatchedTail(a: seq<Message>, b: seq<Message>, m: Message)
    requires forall q :: q in b ==> !Same(q, m)
    ensures Merged(a + b, m) == Merged(a, m)
  {
    if b == [] {
      assert a + b == a;
    } else {
      var init, last := b[..|b| - 1], b[|b| - 1];
      assert (a + b)[..|a + b| - 1] == a + init && (a + b)[|a + b| - 1] == last && last in b;
      UnmatchedTail(a, init, m);
    }
  }

  // The only match in the tail is spread last.
  lemma {:induction false} OneMatchInTail(a: seq<Message>, b: seq<Message>, m: Message, r: Message)
    requires r in b && Same(r, m) && forall q :: q in b && Same(q, m) ==> q == r
    ensures Merged(a + b, m) == Spread(Merged(a, m), r)
  {
    var init, last := b[..|b| - 1], b[|b| - 1];
    assert b == init + [last];
    assert (a + b)[..|a + b| - 1] == a + init && (a + b)[|a + b| - 1] == last;
    if r in init {
      OneMatchInTail(a, init, m, r);
      assert Merged(a, m).rest + r.rest + r.rest == Merged(a, m).rest + r.rest;
    } else {
      UnmatchedTail(a, init, m);
    }
  }

  // Absorbing a message takes its matches out and puts it at the end, matched or not.
  lemma AbsorbIs(rows: seq<Message>, m: Message)
    ensures Absorb(rows, m) == Without(rows, m) + [Spread(Merged(rows, m), m)]
  {
    if !Known(rows, m) {
      WithoutUnmatched(rows, m);
      UnmatchedTail([], rows, m);
      assert [] + rows == rows;
      assert m.rest + m.rest == m.rest;
    }
  }

  lemma SameIdSameRow(rows: seq<Message>, q: Message, r: Message)
    requires NoDuplicates(rows) && q in rows && r in rows && q.id == r.id
    ensures q == r
  {
    forall a, b | 0 <= a < b < |rows| ensures rows[a].id != rows[b].id {
      assert !Same(rows[a], rows[b]);
    }
    var i :| 0 <= i < |rows| && rows[i] == q;
    var j :| 0 <= j < |rows| && rows[j] == r;
  }

  // What the client id of the written row can be.
  lemma WrittenClientId(rows: seq<Message>, m: Message)
    ensures var w := Spread(Merged(rows, m), m);
            w.id == m.id && (w.clientId == m.clientId
              || (m.clientId.None? && exists r :: r in rows && r.id == m.id && r.clientId == w.clientId))
  {
    MergedClientId(rows, m);
  }

  // --- the first time ---

  // Rows of before that none of the messages has touched.
  ghost predicate Untouched(before: seq<Message>, ms: seq<Message>, u: seq<Message>) {
    forall r :: r in u ==> r in before && r.id !in Ids(ms) && forall m :: m in ms ==> !Same(r, m)
  }

  // The client id of a written row is one that a message of its id brought, or else the one that the old row
  // had, which none of the messages has taken over.
  ghost predicate Origin(before: seq<Message>, ms: seq<Message>, r: Message) {
    || r.clientId.None?
    || (exists m :: m in ms && m.id == r.id && m.clientId == r.clientId)
    || (&& (forall m :: m in ms && m.id == r.id ==> m.clientId.None?)
        && exists b :: b in before && b.id == r.id && b.clientId == r.clientId
                       && forall m :: m in ms ==> !Collide(b, m))
  }

  // Rows that they have written, in the order in which they were last written.
  ghost predicate Written(before: seq<Message>, ms: seq<Message>, v: seq<Message>) {
    && IdsOf(v) == LastIds(ms)
    && forall r :: r in v ==> Settled(r, ms) && Origin(before, ms, r)
  }

  ghost predicate Pass(before: seq<Message>, ms: seq<Message>, u: seq<Message>, v: seq<Message>) {
    Untouched(before, ms, u) && Written(before, ms, v)
  }

  // The next message takes over no written row.
  lemma NextDoesNotCollide(before: seq<Message>, all: seq<Message>, ms: seq<Message>, m: Message, r: Message)
    requires Coherent(all) && TakesOverNoRenewedRow(before, all) && ms + [m] <= all
    requires Origin(before, ms, r) && r.id in Ids(ms)
    ensures !Collide(r, m)
  {
    assert m == all[|ms|] && all[..|ms|] == ms;
    if own :| own in ms && own.id == r.id && own.clientId == r.clientId {
      assert own in all && !Collide(own, m);
    } else if r.clientId.Some? {
      var b :| b in before && b.id == r.id && b.clientId == r.clientId && forall n :: n in ms ==> !Collide(b, n);
      assert !Freed(b, ms);
      assert !Collide(b, all[|ms|]);
    }
  }

  lemma NoWrittenRowCollides(before: seq<Message>, all: seq<Message>, ms: seq<Message>, m: Message, v: seq<Message>)
    requires Coherent(all) && TakesOverNoRenewedRow(before, all) && ms + [m] <= all && Written(before, ms, v)
    ensures forall r :: r in v ==> (Same(r, m) <==> r.id == m.id)
  {
    WrittenIdsAreIds(before, ms, v);
    forall r | r in v ensures Same(r, m) <==> r.id == m.id {
      NextDoesNotCollide(before, all, ms, m, r);
    }
  }

  // The written row: the only one of its id, settled, and with a client id of known origin.
  lemma WrittenRow(before: seq<Message>, all: seq<Message>, ms: seq<Message>, m: Message, u: seq<Message>,
                   v: seq<Message>)
    requires Pass(before, ms, u, v) && NoDuplicates(u + v) && ms + [m] <= all
    requires Coherent(all) && TakesOverNoRenewedRow(before, all)
    ensures var w := Spread(Merged(u + v, m), m);
            Settled(w, ms + [m]) && Origin(before, ms + [m], w)
  {
    if m.id in Ids(ms) {
      var r := RowOf(before, ms, v, m.id);
      NoWrittenRowCollides(before, all, ms, m, v);
      forall q | q in v && Same(q, m) ensures q == r {
        SameIdSameRow(u + v, q, r);
      }
      OneMatchInTail(u, v, m, r);
      StaysSettled(Merged(u, m), r, ms, m);
    } else {
      NewIsSettled(Merged(u + v, m), ms, m);
    }
    WrittenOrigin(before, ms, m, u, v);
  }

  lemma RowOf(before: seq<Message>, ms: seq<Message>, v: seq<Message>, id: string) returns (r: Message)
    requires Written(before, ms, v) && id in Ids(ms)
    ensures r in v && r.id == id
  {
    LastIdsAreIds(ms, id);
    var k :| 0 <= k < |LastIds(ms)| && LastIds(ms)[k] == id;
    r := v[k];
  }

  lemma {:induction false} LastIdsAreIds(ms: seq<Message>, id: string)
    ensures id in LastIds(ms) <==> id in Ids(ms)
  {
    if ms != [] {
      var init, m := ms[..|ms| - 1], ms[|ms| - 1];
      assert ms == init + [m];
      ChangeSnoc(init, m, id);
      LastIdsAreIds(init, id);
      DropKeeps(LastIds(init), m.id, id);
    }
  }

  lemma {:induction false} DropKeeps(ids: seq<string>, id: string, other: string)
    ensures other in Drop(ids, id) <==> other in ids && other != id
  {
    if ids != [] {
      assert ids == ids[..|ids| - 1] + [ids[|ids| - 1]];
      DropKeeps(ids[..|ids| - 1], id, other);
    }
  }

  lemma WrittenOrigin(before: seq<Message>, ms: seq<Message>, m: Message, u: seq<Message>, v: seq<Message>)
    requires Pass(before, ms, u, v)
    ensures Origin(before, ms + [m], Spread(Merged(u + v, m), m))
  {
    var w := Spread(Merged(u + v, m), m);
    WrittenClientId(u + v, m);
    if w.clientId == m.clientId {
      assert m in ms + [m];
    } else {
      var r :| r in u + v && r.id == m.id && r.clientId == w.clientId;
      if r in v {
        InheritedOrigin(before, ms, m, r, w);
      } else {
        UntouchedOrigin(before, ms, m, u, r, w);
      }
    }
  }

  lemma InheritedOrigin(before: seq<Message>, ms: seq<Message>, m: Message, r: Message, w: Message)
    requires Origin(before, ms, r) && r.id == m.id == w.id && r.clientId == w.clientId && m.clientId.None?
    ensures Origin(before, ms + [m], w)
  {
    if own :| own in ms && own.id == r.id && own.clientId == r.clientId {
      assert own in ms + [m];
    } else if r.clientId.Some? {
      var b :| b in before && b.id == r.id && b.clientId == r.clientId && forall n :: n in ms ==> !Collide(b, n);
      assert forall n :: n in ms + [m] ==> !Collide(b, n);
    }
  }

  lemma UntouchedOrigin(before: seq<Message>, ms: seq<Message>, m: Message, u: seq<Message>, r: Message, w: Message)
    requires Untouched(before, ms, u) && r in u
    requires r.id == m.id == w.id && r.clientId == w.clientId && m.clientId.None?
    ensures Origin(before, ms + [m], w)
  {
    forall n | n in ms + [m] ensures !Collide(r, n) {
      if n in ms { assert !Same(r, n); }
    }
    assert forall n :: n in ms ==> n.id in Ids(ms);
    assert forall n :: n in ms + [m] && n.id == w.id ==> n == m;
  }

  lemma OthersKeepOrigin(before: seq<Message>, ms: seq<Message>, m: Message, r: Message)
    requires Origin(before, ms, r) && !Same(r, m)
    ensures Origin(before, ms + [m], r)
  {
    if own :| own in ms && own.id == r.id && own.clientId == r.clientId {
      assert own in ms + [m];
    } else if r.clientId.Some? {
      var b :| b in before && b.id == r.id && b.clientId == r.clientId && forall n :: n in ms ==> !Collide(b, n);
      assert forall n :: n in ms + [m] ==> !Collide(b, n);
    }
  }

  lemma UntouchedOn(before: seq<Message>, ms: seq<Message>, m: Message, u: seq<Message>)
    requires Untouched(before, ms, u)
    ensures Untouched(before, ms + [m], Without(u, m))
  {
    WithoutKeepsTheRest(u, m);
    ChangeSnoc(ms, m, m.id);
    forall r | r in Without(u, m)
      ensures r in before && r.id !in Ids(ms + [m]) && forall n :: n in ms + [m] ==> !Same(r, n)
    {
      assert r in u && !Same(r, m);
    }
  }

  lemma WrittenOn(before: seq<Message>, ms: seq<Message>, m: Message, v: seq<Message>, w: Message)
    requires Written(before, ms, v) && forall r :: r in v ==> (Same(r, m) <==> r.id == m.id)
    requires w.id == m.id && Settled(w, ms + [m]) && Origin(before, ms + [m], w)
    ensures Written(before, ms + [m], Without(v, m) + [w])
  {
    WithoutKeepsTheRest(v, m);
    WithoutDropsId(v, m);
    IdsSnoc(Without(v, m), w);
    assert (ms + [m])[..|ms|] == ms;
    forall r | r in Without(v, m) ensures Settled(r, ms + [m]) && Origin(before, ms + [m], r) {
      OthersStaySettled(r, ms, m);
      OthersKeepOrigin(before, ms, m, r);
    }
  }

  lemma PassOn(before: seq<Message>, all: seq<Message>, ms: seq<Message>, m: Message, u: seq<Message>, v: seq<Message>)
    requires Pass(before, ms, u, v) && NoDuplicates(u + v) && ms + [m] <= all
    requires Coherent(all) && TakesOverNoRenewedRow(before, all)
    ensures Pass(before, ms + [m], Without(u, m), Without(v, m) + [Spread(Merged(u + v, m), m)])
  {
    WrittenRow(before, all, ms, m, u, v);
    UntouchedOn(before, ms, m, u);
    NoWrittenRowCollides(before, all, ms, m, v);
    WrittenOn(before, ms, m, v, Spread(Merged(u + v, m), m));
  }

  lemma AbsorbSplit(u: seq<Message>, v: seq<Message>, m: Message)
    ensures Absorb(u + v, m) == Without(u, m) + (Without(v, m) + [Spread(Merged(u + v, m), m)])
  {
    AbsorbIs(u + v, m);
    WithoutConcat(u, v, m);
  }

  lemma {:induction false} FirstTime(current: seq<Message>, all: seq<Message>, ms: seq<Message>)
    returns (u: seq<Message>, v: seq<Message>)
    requires Coherent(all) && TakesOverNoRenewedRow(AbsorbAll(current), all) && ms <= all
    ensures AbsorbAll(current + ms) == u + v && Pass(AbsorbAll(current), ms, u, v)
  {
    if ms == [] {
      u, v := AbsorbAll(current), [];
      assert current + ms == current;
    } else {
      var init, m := ms[..|ms| - 1], ms[|ms| - 1];
      assert ms == init + [m];
      var u0, v0 := FirstTime(current, all, init);
      AbsorbAllHasNoDuplicates(current + init);
      PassOn(AbsorbAll(current), all, init, m, u0, v0);
      u, v := Without(u0, m), Without(v0, m) + [Spread(Merged(u0 + v0, m), m)];
      AbsorbSnoc(current + ms, current + init, m);
      AbsorbSplit(u0, v0, m);
    }
  }

  // --- the second time ---

  function Outside(rows: seq<Message>, ids: set<string>): seq<Message> {
    if rows == [] then []
    else
      var last := rows[|rows| - 1];
      Outside(rows[..|rows| - 1], ids) + if last.id in ids then [] else [last]
  }

  lemma OutsideSnoc(rows: seq<Message>, last: Message, ids: set<string>)
    ensures Outside(rows + [last], ids) == Outside(rows, ids) + if last.id in ids then [] else [last]
  {
    assert (rows + [last])[..|rows|] == rows;
  }

  lemma {:induction false} OutsideKeeps(rows: seq<Message>, ids: set<string>)
    ensures forall r :: r in Outside(rows, ids) <==> r in rows && r.id !in ids
  {
    if rows != [] {
      assert rows == rows[..|rows| - 1] + [rows[|rows| - 1]];
      OutsideKeeps(rows[..|rows| - 1], ids);
    }
  }

  lemma {:induction false} WithoutOutside(rows: seq<Message>, ids: set<string>, m: Message)
    requires forall r :: r in rows && r.id !in ids ==> (Same(r, m) <==> r.id == m.id)
    ensures Without(Outside(rows, ids), m) == Outside(rows, ids + {m.id})
  {
    if rows != [] {
      var init, last := rows[..|rows| - 1], rows[|rows| - 1];
      assert rows == init + [last];
      WithoutOutside(init, ids, m);
      WithoutConcat(Outside(init, ids), if last.id in ids then [] else [last], m);
      assert [last][..0] == [];
      assert Without([], m) == [];
    }
  }

  ghost predicate Clean(rows: seq<Message>, all: seq<Message>) {
    forall r, m :: r in rows && m in all ==> !Collide(r, m)
  }

  // Each row that the messages concern is the old one with their changes.
  ghost predicate Renewed(rows: seq<Message>, ms: seq<Message>, v: seq<Message>) {
    forall r, b :: r in v && b in rows && b.id == r.id ==> r == Patch(b, ChangeOf(ms, b.id))
  }

  // The row of m's id before m: the old one if it was not written yet, and the written one if it was.
  lemma OldRow(rows: seq<Message>, ms: seq<Message>, m: Message, v: seq<Message>, b: Message)
    requires Written(rows, ms, v) && NoDuplicates(Outside(rows, Ids(ms)) + v) && Renewed(rows, ms, v)
    requires b in rows && b.id == m.id
    ensures Patch(b, ChangeOf(ms, b.id)) in Outside(rows, Ids(ms)) + v
  {
    OutsideKeeps(rows, Ids(ms));
    if m.id in Ids(ms) {
      var r := RowOf(rows, ms, v, m.id);
      assert r == Patch(b, ChangeOf(ms, b.id));
    } else {
      NoChange(ms, m.id);
      assert b.rest + map[] == b.rest;
      assert b in Outside(rows, Ids(ms));
    }
  }

  lemma RenewedOn(rows: seq<Message>, all: seq<Message>, ms: seq<Message>, m: Message, v: seq<Message>)
    requires Written(rows, ms, v) && NoDuplicates(Outside(rows, Ids(ms)) + v) && Renewed(rows, ms, v)
    requires Clean(rows, all) && Coherent(all) && ms + [m] <= all
    ensures Renewed(rows, ms + [m], Without(v, m) + [Spread(Merged(Outside(rows, Ids(ms)) + v, m), m)])
  {
    var now := Outside(rows, Ids(ms)) + v;
    var w := Spread(Merged(now, m), m);
    WithoutKeepsTheRest(v, m);
    forall r, b | r in Without(v, m) + [w] && b in rows && b.id == r.id
      ensures r == Patch(b, ChangeOf(ms + [m], b.id))
    {
      ChangeSnoc(ms, m, b.id);
      if r in Without(v, m) {
        assert r in v && r.id != m.id;
      } else {
        OldRow(rows, ms, m, v, b);
        OnlyRowOfItsId(rows, all, ms, m, v, Patch(b, ChangeOf(ms, b.id)));
        SpreadTwice(Patch(b, ChangeOf(ms, b.id)), m);
        PatchThenSpread(b, ms, m);
      }
    }
  }

  lemma SpreadTwice(r: Message, m: Message)
    requires r.id == m.id
    ensures Spread(Spread(m, r), m) == Spread(r, m)
  {
    assert m.rest + r.rest + m.rest == r.rest + m.rest;
  }

  lemma OnlyRowOfItsId(rows: seq<Message>, all: seq<Message>, ms: seq<Message>, m: Message, v: seq<Message>, r: Message)
    requires Written(rows, ms, v) && NoDuplicates(Outside(rows, Ids(ms)) + v)
    requires Clean(rows, all) && Coherent(all) && ms + [m] <= all
    requires r in Outside(rows, Ids(ms)) + v && r.id == m.id
    ensures Merged(Outside(rows, Ids(ms)) + v, m) == Spread(m, r)
  {
    var now := Outside(rows, Ids(ms)) + v;
    OutsideKeeps(rows, Ids(ms));
    CleanTakesOverNothing(rows, all);
    NoWrittenRowCollides(rows, all, ms, m, v);
    assert m == all[|ms|];
    forall q | q in now && Same(q, m) ensures q == r {
      assert q in rows ==> !Collide(q, m);
      SameIdSameRow(now, q, r);
    }
    OneMatchInTail([], now, m, r);
    assert [] + now == now;
  }

  lemma SecondTimeBegins(rows: seq<Message>)
    requires NoDuplicates(rows)
    ensures AbsorbAll(rows + []) == Outside(rows, Ids([])) + [] && Written(rows, [], []) && Renewed(rows, [], [])
  {
    AppendNew(rows);
    OutsideNothing(rows);
    assert Ids([]) == {} && rows + [] == rows == Outside(rows, {}) + [];
  }

  lemma SecondTimeGoesOn(rows: seq<Message>, all: seq<Message>, ms: seq<Message>, m: Message, v0: seq<Message>)
    returns (v: seq<Message>)
    requires Clean(rows, all) && Coherent(all) && ms + [m] <= all && Written(rows, ms, v0) && Renewed(rows, ms, v0)
    requires AbsorbAll(rows + ms) == Outside(rows, Ids(ms)) + v0
    ensures AbsorbAll(rows + (ms + [m])) == Outside(rows, Ids(ms + [m])) + v
    ensures Written(rows, ms + [m], v) && Renewed(rows, ms + [m], v)
  {
    AbsorbAllHasNoDuplicates(rows + ms);
    SecondTimeOn(rows, all, ms, m, v0);
    v := Without(v0, m) + [Spread(Merged(Outside(rows, Ids(ms)) + v0, m), m)];
    AppendOne(rows, ms, m);
    AbsorbSnoc(rows + (ms + [m]), rows + ms, m);
  }

  lemma AppendOne(a: seq<Message>, b: seq<Message>, m: Message)
    ensures var all := a + (b + [m]);
            all[..|all| - 1] == a + b && all[|all| - 1] == m
  {
  }

  lemma {:induction false} SecondTime(rows: seq<Message>, all: seq<Message>, ms: seq<Message>) returns (v: seq<Message>)
    requires NoDuplicates(rows) && Clean(rows, all) && Coherent(all) && ms <= all
    ensures AbsorbAll(rows + ms) == Outside(rows, Ids(ms)) + v && Written(rows, ms, v) && Renewed(rows, ms, v)
  {
    if ms == [] {
      SecondTimeBegins(rows);
      v := [];
    } else {
      var init, m := ms[..|ms| - 1], ms[|ms| - 1];
      assert ms == init + [m];
      var v0 := SecondTime(rows, all, init);
      v := SecondTimeGoesOn(rows, all, init, m, v0);
    }
  }

  lemma {:induction false} OutsideNothing(rows: seq<Message>)
    ensures Outside(rows, {}) == rows
  {
    if rows != [] { OutsideNothing(rows[..|rows| - 1]); }
  }

  lemma SecondTimeOn(rows: seq<Message>, all: seq<Message>, ms: seq<Message>, m: Message, v: seq<Message>)
    requires Clean(rows, all) && Coherent(all) && ms + [m] <= all && Written(rows, ms, v) && Renewed(rows, ms, v)
    requires NoDuplicates(Outside(rows, Ids(ms)) + v)
    ensures var next := Without(v, m) + [Spread(Merged(Outside(rows, Ids(ms)) + v, m), m)];
            && Absorb(Outside(rows, Ids(ms)) + v, m) == Outside(rows, Ids(ms + [m])) + next
            && Written(rows, ms + [m], next) && Renewed(rows, ms + [m], next)
  {
    AbsorbSplit(Outside(rows, Ids(ms)), v, m);
    assert m == all[|ms|];
    ChangeSnoc(ms, m, m.id);
    forall r | r in rows ensures Same(r, m) <==> r.id == m.id {
      assert !Collide(r, m);
    }
    WithoutOutside(rows, Ids(ms), m);
    RenewedOn(rows, all, ms, m, v);
    CleanRowWritten(rows, all, ms, m, v);
    CleanTakesOverNothing(rows, all);
    NoWrittenRowCollides(rows, all, ms, m, v);
    WrittenOn(rows, ms, m, v, Spread(Merged(Outside(rows, Ids(ms)) + v, m), m));
  }

  lemma CleanTakesOverNothing(rows: seq<Message>, all: seq<Message>)
    requires Clean(rows, all)
    ensures TakesOverNoRenewedRow(rows, all)
  {
    assert forall j :: 0 <= j < |all| ==> all[j] in all;
  }

  lemma CleanRowWritten(rows: seq<Message>, all: seq<Message>, ms: seq<Message>, m: Message, v: seq<Message>)
    requires Clean(rows, all) && Coherent(all) && ms + [m] <= all && Written(rows, ms, v)
    requires NoDuplicates(Outside(rows, Ids(ms)) + v)
    ensures var w := Spread(Merged(Outside(rows, Ids(ms)) + v, m), m);
            Settled(w, ms + [m]) && Origin(rows, ms + [m], w)
  {
    OutsideKeeps(rows, Ids(ms));
    var u := Outside(rows, Ids(ms));
    forall r, n | r in u && n in ms ensures !Same(r, n) {
      var j :| 0 <= j < |ms| && ms[j] == n;
      assert all[j] == n && !Collide(r, n) && n.id in Ids(ms);
    }
    CleanTakesOverNothing(rows, all);
    WrittenRow(rows, all, ms, m, u, v);
  }

  // --- both ---

  lemma {:induction false} SortSame(rank: Rank, a: seq<Message>, b: seq<Message>, v: seq<Message>)
    requires Sort(rank, a) == Sort(rank, b)
    ensures Sort(rank, a + v) == Sort(rank, b + v)
  {
    if v == [] {
      assert a + v == a && b + v == b;
    } else {
      SortSame(rank, a, b, v[..|v| - 1]);
      assert (a + v)[..|a + v| - 1] == a + v[..|v| - 1] && (b + v)[..|b + v| - 1] == b + v[..|v| - 1];
    }
  }

  lemma {:induction false} OutsideInsert(rank: Rank, rows: seq<Message>, m: Message, ids: set<string>)
    requires Sorted(rank, rows)
    ensures Outside(Insert(rank, rows, m), ids)
            == if m.id in ids then Outside(rows, ids) else Insert(rank, Outside(rows, ids), m)
  {
    if rows != [] && After(rank, rows[|rows| - 1], m) {
      var init, last := rows[..|rows| - 1], rows[|rows| - 1];
      assert rows == init + [last];
      SortedPrefix(rank, init, last);
      OutsideInsert(rank, init, m, ids);
      OutsideSnoc(Insert(rank, init, m), last, ids);
      OutsideSnoc(init, last, ids);
      if last.id in ids {
        assert forall a: seq<Message> :: a + [] == a;
      } else {
        InsertSnoc(rank, Outside(init, ids), last, m);
      }
    } else {
      OutsideSnoc(rows, m, ids);
      NoneAfter(rank, rows, m, ids);
    }
  }

  lemma InsertSnoc(rank: Rank, rows: seq<Message>, last: Message, m: Message)
    requires After(rank, last, m)
    ensures Insert(rank, rows + [last], m) == Insert(rank, rows, m) + [last]
  {
    assert (rows + [last])[..|rows|] == rows;
  }

  lemma NoneAfter(rank: Rank, rows: seq<Message>, m: Message, ids: set<string>)
    requires Sorted(rank, rows) && (rows != [] ==> !After(rank, rows[|rows| - 1], m))
    ensures Insert(rank, Outside(rows, ids), m) == Outside(rows, ids) + [m]
  {
    OutsideKeeps(rows, ids);
    var kept := Outside(rows, ids);
    if kept != [] {
      assert kept[|kept| - 1] in rows;
      var i :| 0 <= i < |rows| && rows[i] == kept[|kept| - 1];
      if i < |rows| - 1 { assert !After(rank, rows[i], rows[|rows| - 1]); }
    }
  }

  // The stable sort of a part is that part of the sorted rows.
  lemma {:induction false} OutsideSort(rank: Rank, rows: seq<Message>, ids: set<string>)
    ensures Outside(Sort(rank, rows), ids) == Sort(rank, Outside(rows, ids))
  {
    if rows != [] {
      OutsideSort(rank, rows[..|rows| - 1], ids);
      OutsideSortOn(rank, rows, rows[..|rows| - 1], rows[|rows| - 1], ids);
    }
  }

  lemma OutsideSortOn(rank: Rank, rows: seq<Message>, init: seq<Message>, last: Message, ids: set<string>)
    requires rows != [] && init == rows[..|rows| - 1] && last == rows[|rows| - 1]
    requires Outside(Sort(rank, init), ids) == Sort(rank, Outside(init, ids))
    ensures Outside(Sort(rank, rows), ids) == Sort(rank, Outside(rows, ids))
  {
    SortSorts(rank, init);
    OutsideInsert(rank, Sort(rank, init), last, ids);
    if last.id in ids {
      assert Outside(init, ids) + [] == Outside(init, ids);
    } else {
      SortSnoc(rank, Outside(init, ids), last);
    }
  }

  lemma SortSnoc(rank: Rank, rows: seq<Message>, m: Message)
    ensures Sort(rank, rows + [m]) == Insert(rank, Sort(rank, rows), m)
  {
    assert (rows + [m])[..|rows|] == rows;
  }

  lemma {:induction false} OutsideConcat(u: seq<Message>, v: seq<Message>, ids: set<string>)
    requires (forall r :: r in u ==> r.id !in ids) && forall r :: r in v ==> r.id in ids
    ensures Outside(u + v, ids) == u
  {
    if v != [] {
      assert v[|v| - 1] in v && u + v == (u + v[..|v| - 1]) + [v[|v| - 1]];
      OutsideConcat(u, v[..|v| - 1], ids);
      OutsideSnoc(u + v[..|v| - 1], v[|v| - 1], ids);
    } else if u != [] {
      assert u + v == u[..|u| - 1] + [u[|u| - 1]] && u[..|u| - 1] + [] == u[..|u| - 1];
      OutsideConcat(u[..|u| - 1], [], ids);
      OutsideSnoc(u[..|u| - 1], u[|u| - 1], ids);
    }
  }

  lemma WrittenIdsAreIds(before: seq<Message>, ms: seq<Message>, v: seq<Message>)
    requires Written(before, ms, v)
    ensures forall r :: r in v ==> r.id in Ids(ms)
  {
    forall r | r in v ensures r.id in Ids(ms) {
      var k :| 0 <= k < |v| && v[k] == r;
      assert IdsOf(v)[k] in LastIds(ms);
      LastIdsAreIds(ms, r.id);
    }
  }

  // Settled rows are renewed to themselves.
  lemma SameWritten(before: seq<Message>, rows: seq<Message>, ms: seq<Message>, v: seq<Message>, w: seq<Message>)
    requires Written(before, ms, v) && Written(rows, ms, w) && Renewed(rows, ms, w)
    requires forall r :: r in v ==> r in rows
    ensures w == v
  {
    forall k | 0 <= k < |v| ensures k < |w| && w[k] == v[k] {
      assert IdsOf(w)[k] == IdsOf(v)[k];
      assert v[k] in rows && w[k] in w && v[k] in v;
    }
    assert |w| == |IdsOf(w)| == |IdsOf(v)| == |v|;
  }

  // In the end no row collides with any of the messages.
  lemma EndsClean(before: seq<Message>, all: seq<Message>, u: seq<Message>, v: seq<Message>)
    requires Coherent(all) && Pass(before, all, u, v)
    ensures Clean(u + v, all)
  {
    forall r, m | r in u + v && m in all ensures !Collide(r, m) {
      if r in u {
        assert !Same(r, m);
      } else {
        OriginIsClean(before, all, r, m);
      }
    }
  }

  lemma OriginIsClean(before: seq<Message>, all: seq<Message>, r: Message, m: Message)
    requires Coherent(all) && Origin(before, all, r) && m in all
    ensures !Collide(r, m)
  {
    if own :| own in all && own.id == r.id && own.clientId == r.clientId {
      assert !Collide(own, m);
    } else if r.clientId.Some? {
      var b :| b in before && b.id == r.id && b.clientId == r.clientId && forall n :: n in all ==> !Collide(b, n);
      assert !Collide(b, m);
    }
  }

  // If one client id has one id among the incoming messages, and none of them takes over what an earlier one
  // wrote, then reconciling them again changes nothing.
  lemma ReconcilingTwiceIsOnce(rank: Rank, current: seq<Message>, incoming: seq<Message>)
    requires Coherent(incoming) && TakesOverNoRenewedRow(AbsorbAll(current), incoming)
    ensures var t := Timeline(rank, current, incoming);
            Timeline(rank, t, incoming) == t
  {
    var t := Timeline(rank, current, incoming);
    var u, v := FirstTime(current, incoming, incoming);
    TimelineIsClean(rank, current, incoming);
    SortSorts(rank, u + v);
    EndsClean(AbsorbAll(current), incoming, u, v);
    var w := SecondTime(t, incoming, incoming);
    SameWritten(AbsorbAll(current), t, incoming, v, w);
    WrittenIdsAreIds(AbsorbAll(current), incoming, v);
    OutsideConcat(u, v, Ids(incoming));
    OutsideSort(rank, u + v, Ids(incoming));
    SortSorts(rank, u);
    SortedStays(rank, Sort(rank, u));
    SortSame(rank, Sort(rank, u), u, v);
  }

  // The rendered rows themselves, when they have no duplicates.
  lemma ReconcilingTwiceIsOnceOnTimelines(rank: Rank, current: seq<Message>, incoming: seq<Message>)
    requires NoDuplicates(current) && Coherent(incoming) && TakesOverNoRenewedRow(current, incoming)
    ensures var t := Timeline(rank, current, incoming);
            Timeline(rank, t, incoming) == t
  {
    AppendNew(current);
    ReconcilingTwiceIsOnce(rank, current, incoming);
  }
}
