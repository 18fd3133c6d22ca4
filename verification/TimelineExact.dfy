/** The condition under which reconciling twice is reconciling once is exact: where it fails, some contents show it. */
module TimelineExact {
  import opened Common
  import opened MessageReconciliation
  import opened TimelineTheorems
  import opened TimelineTwice

  // The same ids and client ids, with other dates and contents.
  ghost predicate SameShape(a: seq<Message>, b: seq<Message>) {
    |a| == |b| && forall i :: 0 <= i < |a| ==> a[i].id == b[i].id && a[i].clientId == b[i].clientId
  }

  lemma SameShapeSnoc(a: seq<Message>, b: seq<Message>, m: Message, n: Message)
    requires SameShape(a, b) && m.id == n.id && m.clientId == n.clientId
    ensures SameShape(a + [m], b + [n])
  {
  }

  lemma {:induction false} SameShapeWithout(a: seq<Message>, b: seq<Message>, m: Message, n: Message)
    requires SameShape(a, b) && m.id == n.id && m.clientId == n.clientId
    ensures SameShape(Without(a, m), Without(b, n))
    ensures Merged(a, m).clientId == Merged(b, n).clientId
  {
    if a != [] {
      SameShapeWithout(a[..|a| - 1], b[..|b| - 1], m, n);
    }
  }

  lemma {:induction false} SameShapeAbsorbAll(a: seq<Message>, b: seq<Message>)
    requires SameShape(a, b)
    ensures SameShape(AbsorbAll(a), AbsorbAll(b))
  {
    if a != [] {
      var k := |a| - 1;
      SameShapeAbsorbAll(a[..k], b[..k]);
      SameShapeAbsorb(AbsorbAll(a[..k]), AbsorbAll(b[..k]), a[k], b[k]);
    }
  }

  lemma SameShapeAbsorb(a: seq<Message>, b: seq<Message>, m: Message, n: Message)
    requires SameShape(a, b) && m.id == n.id && m.clientId == n.clientId
    ensures SameShape(Absorb(a, m), Absorb(b, n))
  {
    SameShapeWithout(a, b, m, n);
    AbsorbIs(a, m);
    AbsorbIs(b, n);
    SameShapeSnoc(Without(a, m), Without(b, n), Spread(Merged(a, m), m), Spread(Merged(b, n), n));
  }

  lemma SameShapeIds(a: seq<Message>, b: seq<Message>)
    requires SameShape(a, b)
    ensures Ids(a) <= Ids(b)
  {
    forall id | id in Ids(a) ensures id in Ids(b) {
      var m :| m in a && m.id == id;
      var i :| 0 <= i < |a| && a[i] == m;
      assert b[i] in b;
    }
  }

  lemma SameShapeFreed(r: Message, q: Message, a: seq<Message>, b: seq<Message>)
    requires SameShape(a, b) && r.id == q.id && r.clientId == q.clientId && Freed(r, a)
    ensures Freed(q, b)
  {
    var m :| m in a && (Collide(r, m) || (m.id == r.id && m.clientId.Some?));
    var i :| 0 <= i < |a| && a[i] == m;
    assert b[i] in b;
  }

  lemma SameShapeCoherent(a: seq<Message>, b: seq<Message>)
    requires SameShape(a, b) && Coherent(a)
    ensures Coherent(b)
  {
    forall m, n | m in b && n in b ensures !Collide(m, n) {
      var i :| 0 <= i < |b| && b[i] == m;
      var j :| 0 <= j < |b| && b[j] == n;
      assert a[i] in a && a[j] in a && !Collide(a[i], a[j]);
    }
  }

  // The condition does not look at dates and contents.
  lemma SameShapeCondition(rows: seq<Message>, others: seq<Message>, a: seq<Message>, b: seq<Message>)
    requires SameShape(rows, others) && SameShape(a, b) && TakesOverNoRenewedRow(rows, a)
    ensures TakesOverNoRenewedRow(others, b)
  {
    forall r, j | r in others && 0 <= j < |b| && Collide(r, b[j]) && r.id in Ids(b[..j]) ensures Freed(r, b[..j]) {
      var i :| 0 <= i < |others| && others[i] == r;
      SameShapeIds(b[..j], a[..j]);
      assert rows[i] in rows && Collide(rows[i], a[j]);
      SameShapeFreed(rows[i], r, a[..j], b[..j]);
    }
  }

  ghost predicate TwiceIsOnce(rank: Rank, current: seq<Message>, incoming: seq<Message>) {
    var t := Timeline(rank, current, incoming);
    Timeline(rank, t, incoming) == t
  }

  ghost predicate TwiceIsOnceForAllContents(rank: Rank, current: seq<Message>, incoming: seq<Message>) {
    forall rows, ms :: SameShape(current, rows) && SameShape(incoming, ms) ==> TwiceIsOnce(rank, rows, ms)
  }

  // Without contents, except for one key of message p.
  function Keyed(ms: seq<Message>, p: int): (keyed: seq<Message>)
    ensures |keyed| == |ms|
  {
    seq(|ms|, i requires 0 <= i < |ms| => ms[i].(rest := if i == p then map["k" := "v"] else map[]))
  }

  ghost predicate NoneHasKey(rows: seq<Message>) {
    forall r :: r in rows ==> "k" !in r.rest
  }

  lemma {:induction false} MergedHasKey(rows: seq<Message>, m: Message)
    ensures "k" in Merged(rows, m).rest <==> "k" in m.rest || exists r :: r in rows && Same(r, m) && "k" in r.rest
  {
    if rows != [] {
      var init, last := rows[..|rows| - 1], rows[|rows| - 1];
      assert rows == init + [last];
      MergedHasKey(init, m);
    }
  }

  // What is in the rows after one more message.
  lemma AbsorbedRows(rows: seq<Message>, m: Message)
    ensures var w := Spread(Merged(rows, m), m);
            forall q :: q in Absorb(rows, m) <==> (q in rows && !Same(q, m)) || q == w
  {
    AbsorbIs(rows, m);
    WithoutKeepsTheRest(rows, m);
  }

  lemma {:induction false} NoKeyAppears(messages: seq<Message>)
    requires NoneHasKey(messages)
    ensures NoneHasKey(AbsorbAll(messages))
  {
    if messages != [] {
      var init, last := messages[..|messages| - 1], messages[|messages| - 1];
      assert messages == init + [last];
      NoKeyAppears(init);
      AbsorbedRows(AbsorbAll(init), last);
      MergedHasKey(AbsorbAll(init), last);
    }
  }

  // The first time, up to the takeover: the row x is there with its old client id, and no other has the key.
  ghost predicate StillThere(rows: seq<Message>, x: string, c: Option<string>) {
    && (exists q :: q in rows && q.id == x && q.clientId == c)
    && forall q :: q in rows && "k" in q.rest ==> q.id == x
  }

  predicate Spares(m: Message, x: string, c: Option<string>) {
    if m.id == x then m.clientId.None? else m.clientId != c && "k" !in m.rest
  }

  lemma StaysThere(rows: seq<Message>, m: Message, x: string, c: Option<string>)
    requires NoDuplicates(rows) && StillThere(rows, x, c) && c.Some? && c.value != ""
    requires Spares(m, x, c)
    ensures StillThere(Absorb(rows, m), x, c)
  {
    var q :| q in rows && q.id == x && q.clientId == c;
    var w := Spread(Merged(rows, m), m);
    AbsorbedRows(rows, m);
    MergedHasKey(rows, m);
    if m.id == x {
      OnlyMatch(rows, m, q);
      assert w in Absorb(rows, m);
    } else {
      assert !Same(q, m) && q in Absorb(rows, m);
      forall r | r in rows && Same(r, m) ensures "k" !in r.rest {
        if r.id == x { SameIdSameRow(rows, q, r); }
      }
    }
  }

  // A message without a client id matches the row of its id only.
  lemma OnlyMatch(rows: seq<Message>, m: Message, q: Message)
    requires NoDuplicates(rows) && q in rows && q.id == m.id && m.clientId.None?
    ensures Merged(rows, m) == Spread(m, q)
  {
    forall r | r in rows && Same(r, m) ensures r == q {
      SameIdSameRow(rows, r, q);
    }
    OneMatchInTail([], rows, m, q);
    assert [] + rows == rows;
  }

  // From the takeover on: the row x, if there is one, lacks the key, and neither it nor the row with the key
  // can be taken over by any of the messages.
  ghost predicate GoneOver(rows: seq<Message>, x: string, all: seq<Message>) {
    forall q :: q in rows && (q.id == x || "k" in q.rest) ==>
      (q.id == x ==> "k" !in q.rest) && forall m :: m in all ==> !Collide(q, m)
  }

  lemma TakenOver(rows: seq<Message>, m: Message, x: string, c: Option<string>, all: seq<Message>)
    requires NoDuplicates(rows) && StillThere(rows, x, c) && c.Some? && c.value != ""
    requires Coherent(all) && m in all && m.id != x && m.clientId == c
    ensures GoneOver(Absorb(rows, m), x, all)
  {
    var q :| q in rows && q.id == x && q.clientId == c;
    AbsorbedRows(rows, m);
    forall r | r in rows && r.id == x ensures Same(r, m) {
      SameIdSameRow(rows, q, r);
    }
    assert forall n :: n in all ==> !Collide(m, n);
  }

  lemma StaysGoneOver(rows: seq<Message>, m: Message, x: string, all: seq<Message>)
    requires NoDuplicates(rows) && GoneOver(rows, x, all) && Coherent(all) && m in all && "k" !in m.rest
    ensures GoneOver(Absorb(rows, m), x, all)
  {
    var w := Spread(Merged(rows, m), m);
    AbsorbedRows(rows, m);
    MergedHasKey(rows, m);
    WrittenClientId(rows, m);
    if w.id == x || "k" in w.rest {
      NoCollisionOf(rows, m, w, x, all);
      forall r | r in rows && Same(r, m) && w.id == x ensures "k" !in r.rest {
        assert "k" in r.rest ==> !Collide(r, m);
      }
    }
  }

  lemma NoCollisionOf(rows: seq<Message>, m: Message, w: Message, x: string, all: seq<Message>)
    requires NoDuplicates(rows) && GoneOver(rows, x, all) && Coherent(all) && m in all && "k" !in m.rest
    requires w == Spread(Merged(rows, m), m) && (w.id == x || "k" in w.rest)
    ensures forall n :: n in all ==> !Collide(w, n)
  {
    MergedHasKey(rows, m);
    WrittenClientId(rows, m);
    if w.clientId == m.clientId {
      assert forall n :: n in all ==> !Collide(m, n);
    } else {
      var r :| r in rows && r.id == m.id && r.clientId == w.clientId;
      if w.id != x {
        var q :| q in rows && Same(q, m) && "k" in q.rest;
        assert !Collide(q, m);
        SameIdSameRow(rows, q, r);
      }
      assert forall n :: n in all ==> !Collide(r, n);
    }
  }

  // The second time: the row x gets the key and keeps it.
  ghost predicate KeyIsBack(rows: seq<Message>, x: string, all: seq<Message>, back: bool) {
    && (forall q, m :: q in rows && q.id == x && m in all ==> !Collide(q, m))
    && (back ==> exists q :: q in rows && q.id == x && "k" in q.rest)
  }

  lemma StaysBack(rows: seq<Message>, m: Message, x: string, all: seq<Message>, back: bool)
    requires KeyIsBack(rows, x, all, back) && Coherent(all) && m in all
    ensures KeyIsBack(Absorb(rows, m), x, all, back || (m.id == x && "k" in m.rest))
  {
    var w := Spread(Merged(rows, m), m);
    AbsorbedRows(rows, m);
    MergedHasKey(rows, m);
    WrittenClientId(rows, m);
    if w.id == x && w.clientId != m.clientId {
      var r :| r in rows && r.id == m.id && r.clientId == w.clientId;
      assert forall n :: n in all ==> !Collide(r, n);
    }
    assert forall n :: n in all ==> !Collide(m, n);
    if back {
      var q :| q in rows && q.id == x && "k" in q.rest;
      if m.id == x {
        assert Same(q, m) && w in Absorb(rows, m);
      } else {
        assert !Collide(q, m);
        assert q in Absorb(rows, m);
      }
    } else {
      assert w in Absorb(rows, m);
    }
  }

  lemma AbsorbNext(rows: seq<Message>, ms: seq<Message>, n: nat)
    requires n < |ms|
    ensures AbsorbAll(rows + ms[..n + 1]) == Absorb(AbsorbAll(rows + ms[..n]), ms[n])
  {
    assert ms[..n + 1] == ms[..n] + [ms[n]];
    AppendOne(rows, ms[..n], ms[n]);
    AbsorbSnoc(rows + ms[..n + 1], rows + ms[..n], ms[n]);
  }

  lemma {:induction false} UpToTheTakeover(rows: seq<Message>, ms: seq<Message>, x: string, c: Option<string>, n: nat)
    requires n <= |ms| && StillThere(AbsorbAll(rows), x, c) && c.Some? && c.value != ""
    requires forall i :: 0 <= i < n ==> Spares(ms[i], x, c)
    ensures StillThere(AbsorbAll(rows + ms[..n]), x, c)
  {
    if n == 0 {
      assert rows + ms[..0] == rows;
    } else {
      UpToTheTakeover(rows, ms, x, c, n - 1);
      OneMoreBefore(rows, ms, x, c, n - 1);
    }
  }

  lemma OneMoreBefore(rows: seq<Message>, ms: seq<Message>, x: string, c: Option<string>, n: nat)
    requires n < |ms| && StillThere(AbsorbAll(rows + ms[..n]), x, c) && c.Some? && c.value != ""
    requires Spares(ms[n], x, c)
    ensures StillThere(AbsorbAll(rows + ms[..n + 1]), x, c)
  {
    AbsorbAllHasNoDuplicates(rows + ms[..n]);
    StaysThere(AbsorbAll(rows + ms[..n]), ms[n], x, c);
    AbsorbNext(rows, ms, n);
  }

  lemma {:induction false} AfterTheTakeover(rows: seq<Message>, ms: seq<Message>, x: string, j: nat, n: nat)
    requires j <= n <= |ms| && GoneOver(AbsorbAll(rows + ms[..j]), x, ms) && Coherent(ms)
    requires forall i :: j <= i < n ==> "k" !in ms[i].rest
    ensures GoneOver(AbsorbAll(rows + ms[..n]), x, ms)
  {
    if n > j {
      AfterTheTakeover(rows, ms, x, j, n - 1);
      AbsorbAllHasNoDuplicates(rows + ms[..n - 1]);
      StaysGoneOver(AbsorbAll(rows + ms[..n - 1]), ms[n - 1], x, ms);
      AbsorbNext(rows, ms, n - 1);
    }
  }

  lemma {:induction false} KeyComesBack(t: seq<Message>, ms: seq<Message>, x: string, p: nat, n: nat)
    requires n <= |ms| && p < |ms| && KeyIsBack(AbsorbAll(t), x, ms, false) && Coherent(ms)
    requires ms[p].id == x && "k" in ms[p].rest
    ensures KeyIsBack(AbsorbAll(t + ms[..n]), x, ms, p < n)
  {
    if n == 0 {
      assert t + ms[..0] == t;
    } else {
      KeyComesBack(t, ms, x, p, n - 1);
      StaysBack(AbsorbAll(t + ms[..n - 1]), ms[n - 1], x, ms, p < n - 1);
      AbsorbNext(t, ms, n - 1);
    }
  }

  // Once the first time has lost the key of the row x, the second time shows it.
  lemma LostKeyShows(rank: Rank, rows: seq<Message>, ms: seq<Message>, x: string, p: nat)
    requires GoneOver(AbsorbAll(rows + ms), x, ms) && Coherent(ms)
    requires p < |ms| && ms[p].id == x && "k" in ms[p].rest
    ensures !TwiceIsOnce(rank, rows, ms)
  {
    var t := Timeline(rank, rows, ms);
    TimelineIsClean(rank, rows, ms);
    SortSorts(rank, AbsorbAll(rows + ms));
    AppendNew(t);
    assert GoneOver(t, x, ms);
    KeyComesBack(t, ms, x, p, |ms|);
    assert ms[..|ms|] == ms;
    var q :| q in AbsorbAll(t + ms) && q.id == x && "k" in q.rest;
    SortSorts(rank, AbsorbAll(t + ms));
    assert q in Timeline(rank, t, ms) && q !in t;
  }

  // Where the condition fails, one key of the message that renewed the row makes the difference.
  lemma RenewedTakeoverShows(rank: Rank, current: seq<Message>, incoming: seq<Message>, r: Message, j: nat)
    returns (rows: seq<Message>, ms: seq<Message>)
    requires Coherent(incoming) && r in AbsorbAll(current) && j < |incoming| && Collide(r, incoming[j])
    requires r.id in Ids(incoming[..j]) && !Freed(r, incoming[..j])
    ensures SameShape(current, rows) && SameShape(incoming, ms) && !TwiceIsOnce(rank, rows, ms)
  {
    var renewing :| renewing in incoming[..j] && renewing.id == r.id;
    var p :| 0 <= p < j && incoming[p] == renewing;
    rows, ms := Keyed(current, -1), Keyed(incoming, p);
    KeyedShows(rank, current, incoming, r, j, p);
  }

  lemma KeyedShows(rank: Rank, current: seq<Message>, incoming: seq<Message>, r: Message, j: nat, p: nat)
    requires Coherent(incoming) && r in AbsorbAll(current) && p < j < |incoming| && Collide(r, incoming[j])
    requires incoming[p].id == r.id && !Freed(r, incoming[..j])
    ensures !TwiceIsOnce(rank, Keyed(current, -1), Keyed(incoming, p))
  {
    var rows, ms := Keyed(current, -1), Keyed(incoming, p);
    SameShapeCoherent(incoming, ms);
    RowIsThere(current, rows, r);
    NotFreed(incoming, ms, r, j, p);
    LostAtTheTakeover(rows, ms, r.id, r.clientId, j);
    LostKeyShows(rank, rows, ms, r.id, p);
  }

  lemma LostAtTheTakeover(rows: seq<Message>, ms: seq<Message>, x: string, c: Option<string>, j: nat)
    requires j < |ms| && Coherent(ms) && StillThere(AbsorbAll(rows), x, c) && c.Some? && c.value != ""
    requires forall i :: 0 <= i < j ==> Spares(ms[i], x, c)
    requires ms[j].id != x && ms[j].clientId == c && forall i :: j <= i < |ms| ==> "k" !in ms[i].rest
    ensures GoneOver(AbsorbAll(rows + ms), x, ms)
  {
    UpToTheTakeover(rows, ms, x, c, j);
    AbsorbAllHasNoDuplicates(rows + ms[..j]);
    TakenOver(AbsorbAll(rows + ms[..j]), ms[j], x, c, ms);
    AbsorbNext(rows, ms, j);
    AfterTheTakeover(rows, ms, x, j + 1, |ms|);
    assert ms[..|ms|] == ms;
  }

  lemma RowIsThere(current: seq<Message>, rows: seq<Message>, r: Message)
    requires rows == Keyed(current, -1) && r in AbsorbAll(current)
    ensures StillThere(AbsorbAll(rows), r.id, r.clientId)
  {
    SameShapeAbsorbAll(current, rows);
    NoKeyAppears(rows);
    var i :| 0 <= i < |AbsorbAll(current)| && AbsorbAll(current)[i] == r;
    assert AbsorbAll(rows)[i] in AbsorbAll(rows);
  }

  lemma NotFreed(incoming: seq<Message>, ms: seq<Message>, r: Message, j: nat, p: nat)
    requires p < j < |incoming| && ms == Keyed(incoming, p) && incoming[p].id == r.id && Collide(r, incoming[j])
    requires !Freed(r, incoming[..j])
    ensures forall i :: 0 <= i < j ==> Spares(ms[i], r.id, r.clientId)
    ensures forall i :: j <= i < |ms| ==> "k" !in ms[i].rest
  {
    forall i | 0 <= i < j ensures Spares(ms[i], r.id, r.clientId) {
      assert incoming[i] in incoming[..j];
    }
  }

  // Where one client id has one id among the incoming messages, reconciling them again changes nothing, whatever
  // the messages contain, exactly when none of them takes over a row that earlier ones have renewed.
  lemma TwiceIsOnceIff(rank: Rank, current: seq<Message>, incoming: seq<Message>)
    requires Coherent(incoming)
    ensures TwiceIsOnceForAllContents(rank, current, incoming) <==>
            TakesOverNoRenewedRow(AbsorbAll(current), incoming)
  {
    if TakesOverNoRenewedRow(AbsorbAll(current), incoming) {
      forall rows, ms | SameShape(current, rows) && SameShape(incoming, ms) ensures TwiceIsOnce(rank, rows, ms) {
        SameShapeAbsorbAll(current, rows);
        SameShapeCoherent(incoming, ms);
        SameShapeCondition(AbsorbAll(current), AbsorbAll(rows), incoming, ms);
        ReconcilingTwiceIsOnce(rank, rows, ms);
      }
    } else {
      var r, j :| r in AbsorbAll(current) && 0 <= j < |incoming| && Collide(r, incoming[j])
                  && r.id in Ids(incoming[..j]) && !Freed(r, incoming[..j]);
      var rows, ms := RenewedTakeoverShows(rank, current, incoming, r, j);
      assert !TwiceIsOnce(rank, rows, ms);
    }
  }

  // Two ids with one client id among the incoming messages: a as 1, a as 2, b as 1. The second time the first
  // message finds b under its client id, and a keeps what b contains.
  lemma TwoIdsForOneClientIdShow(rank: Rank, date: string)
    ensures var incoming := [Message("a", Some("1"), date, map[]), Message("a", Some("2"), date, map[]),
                             Message("b", Some("1"), date, map["k" := "v"])];
            && !Coherent(incoming) && TakesOverNoRenewedRow([], incoming) && !TwiceIsOnce(rank, [], incoming)
  {
    var a1, a2 := Message("a", Some("1"), date, map[]), Message("a", Some("2"), date, map[]);
    var b := Message("b", Some("1"), date, map["k" := "v"]);
    assert a1 in [a1, a2, b] && b in [a1, a2, b] && Collide(a1, b);
    BothTimes(rank, a1, a2, b);
  }

  lemma BothTimes(rank: Rank, a1: Message, a2: Message, b: Message)
    requires a1.id == a2.id != b.id && a1.clientId == Some("1") && a2.clientId == Some("2") && b.clientId == Some("1")
    requires a1.rest == a2.rest == map[] && "k" in b.rest
    ensures !TwiceIsOnce(rank, [], [a1, a2, b])
  {
    var ms := [a1, a2, b];
    var t := Timeline(rank, [], ms);
    TheFirstTime(rank, a1, a2, b);
    BIsTakenOver(t, a1, a2, b);
    var q :| q in AbsorbAll(t + ms) && q.id == a1.id && "k" in q.rest;
    SortSorts(rank, AbsorbAll(t + ms));
    assert q in Timeline(rank, t, ms);
  }

  lemma SortedRows(rank: Rank, rows: seq<Message>)
    requires NoDuplicates(rows)
    ensures var t := Sort(rank, rows);
            NoDuplicates(t) && AbsorbAll(t) == t && forall q :: q in t <==> q in rows
  {
    SortSorts(rank, rows);
    SortKeepsNoDuplicates(rank, rows);
    AppendNew(Sort(rank, rows));
  }

  lemma TheFirstTime(rank: Rank, a1: Message, a2: Message, b: Message)
    requires a1.id == a2.id != b.id && a1.clientId == Some("1") && a2.clientId == Some("2") && b.clientId == Some("1")
    requires a1.rest == a2.rest == map[]
    ensures var t := Timeline(rank, [], [a1, a2, b]);
            && NoDuplicates(t) && AbsorbAll(t) == t && a2 in t && b in t
            && forall q :: q in t && q.id == a1.id ==> "k" !in q.rest
  {
    var t := Timeline(rank, [], [a1, a2, b]);
    assert t == Sort(rank, [a2, b]) by {
      ThreeFromNothing(a1, a2, b);
      assert [] + [a1, a2, b] == [a1, a2, b];
    }
    SortedRows(rank, [a2, b]);
  }

  lemma ThreeFromNothing(a1: Message, a2: Message, b: Message)
    requires a1.id == a2.id != b.id && a1.clientId == Some("1") && a2.clientId == Some("2") && b.clientId == Some("1")
    requires a1.rest == a2.rest == map[]
    ensures AbsorbAll([a1, a2, b]) == [a2, b]
  {
    Three(a1, a2, b);
    AbsorbOne(a1, a2);
    assert Spread(Spread(a2, a1), a2) == a2;
    AbsorbOne(a2, b);
  }

  // From the rows a2 and b: a1 takes b over and keeps its key through a2, while b is written anew.
  lemma BIsTakenOver(t: seq<Message>, a1: Message, a2: Message, b: Message)
    requires NoDuplicates(t) && a2 in t && b in t && a1.id == a2.id != b.id
    requires a1.clientId == Some("1") && a2.clientId == Some("2") && b.clientId == Some("1") && "k" in b.rest
    requires AbsorbAll(t) == t
    ensures exists q :: q in AbsorbAll(t + [a1, a2, b]) && q.id == a1.id && "k" in q.rest
  {
    AbsorbThree(t, a1, a2, b);
    var w1 := TakesTheKey(t, a1, b);
    var w2 := TakesTheKey(Absorb(t, a1), a2, w1);
    StaysApart(Absorb(Absorb(t, a1), a2), b, w2);
  }

  lemma StaysApart(rows: seq<Message>, m: Message, q: Message)
    requires q in rows && !Same(q, m)
    ensures q in Absorb(rows, m)
  {
    AbsorbedRows(rows, m);
  }

  lemma AbsorbThree(rows: seq<Message>, x: Message, y: Message, z: Message)
    ensures AbsorbAll(rows + [x, y, z]) == Absorb(Absorb(Absorb(AbsorbAll(rows), x), y), z)
  {
    AbsorbSnoc(rows + [x], rows, x);
    AbsorbSnoc(rows + [x, y], rows + [x], y);
    AbsorbSnoc(rows + [x, y, z], rows + [x, y], z);
  }

  lemma TakesTheKey(rows: seq<Message>, m: Message, q: Message) returns (w: Message)
    requires q in rows && Same(q, m) && "k" in q.rest && m.clientId.Some?
    ensures w in Absorb(rows, m) && w.id == m.id && w.clientId == m.clientId && "k" in w.rest
  {
    w := Spread(Merged(rows, m), m);
    AbsorbedRows(rows, m);
    MergedHasKey(rows, m);
  }

  // A row a with client id c; incoming, a without a client id, and then b with client id c. The second message
  // takes over the row that the first has just written, so a is gone; the second time a comes back.
  lemma TakingOverANewRowShows(rank: Rank, date: string)
    ensures var current := [Message("a", Some("c"), date, map[])];
            var incoming := [Message("a", None, date, map[]), Message("b", Some("c"), date, map[])];
            var t := Timeline(rank, current, incoming);
            && Coherent(incoming) && !TakesOverNoRenewedRow(current, incoming)
            && |t| == 1 && |Timeline(rank, t, incoming)| == 2
  {
    var first, a, b := Message("a", Some("c"), date, map[]), Message("a", None, date, map[]),
                       Message("b", Some("c"), date, map[]);
    TakesOverANewRow(first, a, b);
    OneThenTwo(rank, first, a, b);
  }

  lemma OneThenTwo(rank: Rank, first: Message, a: Message, b: Message)
    requires first.clientId == b.clientId == Some("c") && a.clientId.None? && first.id == a.id != b.id
    requires first.rest == a.rest == b.rest == map[]
    ensures Timeline(rank, [first], [a, b]) == [b] && |Timeline(rank, [b], [a, b])| == 2
  {
    BTakesOver(first, a, b);
    AComesBack(a, b);
    assert [first] + [a, b] == [first, a, b] && [b] + [a, b] == [b, a, b];
    SortOfOne(rank, b);
    SortLength(rank, [a, b]);
  }

  lemma SortOfOne(rank: Rank, m: Message)
    ensures Sort(rank, [m]) == [m]
  {
    assert [m][..0] == [];
  }

  lemma TakesOverANewRow(first: Message, a: Message, b: Message)
    requires first.clientId == b.clientId == Some("c") && a.clientId.None? && first.id == a.id != b.id
    ensures Coherent([a, b]) && !TakesOverNoRenewedRow([first], [a, b])
  {
    var incoming := [a, b];
    assert incoming[..1] == [a] && a in incoming[..1] && incoming[1] == b;
    assert first in [first] && Collide(first, incoming[1]) && first.id in Ids(incoming[..1]);
  }

  lemma Three(x: Message, a: Message, b: Message)
    ensures AbsorbAll([x, a, b]) == Absorb(Absorb([x], a), b)
  {
    assert [x, a, b][..2] == [x, a] && [x, a][..1] == [x] && [x][..0] == [];
    assert AbsorbAll([x]) == Absorb([], x) == [x];
  }

  lemma One(row: Message, m: Message)
    ensures Without([row], m) == if Same(row, m) then [] else [row]
    ensures Merged([row], m) == if Same(row, m) then Spread(m, row) else m
  {
    assert [row][..0] == [];
    assert Without([], m) == [] && Merged([], m) == m;
  }

  lemma AbsorbOne(row: Message, m: Message)
    ensures Absorb([row], m) == if Same(row, m) then [Spread(Spread(m, row), m)] else [row, m]
  {
    One(row, m);
    assert row in [row];
  }

  lemma BTakesOver(first: Message, a: Message, b: Message)
    requires first.clientId == b.clientId == Some("c") && a.clientId.None? && first.id == a.id != b.id
    requires first.rest == a.rest == b.rest == map[]
    ensures AbsorbAll([first, a, b]) == [b]
  {
    Three(first, a, b);
    AbsorbOne(first, a);
    AbsorbOne(Spread(Spread(a, first), a), b);
  }

  lemma AComesBack(a: Message, b: Message)
    requires b.clientId == Some("c") && a.clientId.None? && a.id != b.id && a.rest == b.rest == map[]
    ensures AbsorbAll([b, a, b]) == [a, b]
  {
    Three(b, a, b);
    AbsorbOne(b, a);
    AbsorbIs([b, a], b);
    One(b, b);
    One(a, b);
    WithoutConcat([b], [a], b);
    UnmatchedTail([b], [a], b);
    assert [b] + [a] == [b, a];
    assert Spread(Spread(b, b), b) == b;
  }

  lemma SortLength(rank: Rank, rows: seq<Message>)
    ensures |Sort(rank, rows)| == |rows|
  {
    SortSorts(rank, rows);
    assert |multiset(Sort(rank, rows))| == |multiset(rows)|;
  }
}
