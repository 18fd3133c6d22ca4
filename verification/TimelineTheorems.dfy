/** What every reconciled timeline satisfies, whatever was rendered and whatever came in. */
module TimelineTheorems {
  import opened MessageReconciliation

  // No two rows share an id or a non-empty client id.
  ghost predicate NoDuplicates(rows: seq<Message>) {
    forall i, j :: 0 <= i < j < |rows| ==> !Same(rows[i], rows[j])
  }

  ghost predicate Sorted(rank: Rank, rows: seq<Message>) {
    forall i, j :: 0 <= i < j < |rows| ==>
      || rank(rows[i].createdAt) > rank(rows[j].createdAt)
      || (rank(rows[i].createdAt) == rank(rows[j].createdAt) && rank(rows[i].id) <= rank(rows[j].id))
  }

  ghost predicate StrictlySorted(rank: Rank, rows: seq<Message>) {
    forall i, j :: 0 <= i < j < |rows| ==> After(rank, rows[j], rows[i])
  }

  lemma {:induction false} WithoutKeepsTheRest(rows: seq<Message>, m: Message)
    ensures forall r :: r in Without(rows, m) <==> r in rows && !Same(r, m)
    ensures NoDuplicates(rows) ==> NoDuplicates(Without(rows, m))
  {
    if rows != [] {
      var init, last := rows[..|rows| - 1], rows[|rows| - 1];
      assert rows == init + [last];
      WithoutKeepsTheRest(init, m);
      if NoDuplicates(rows) { UniquePrefix(init, last); }
    }
  }

  // The merged client id is that of m or of a matching row.
  lemma {:induction false} MergedClientId(rows: seq<Message>, m: Message)
    ensures Merged(rows, m).clientId == m.clientId ||
            exists r :: r in rows && Same(r, m) && Merged(rows, m).clientId == r.clientId
  {
    if rows != [] {
      var init, last := rows[..|rows| - 1], rows[|rows| - 1];
      assert rows == init + [last];
      MergedClientId(init, m);
    }
  }

  // A row that does not match m does not match what m becomes, because the rows it takes over are gone.
  lemma MergedStaysApart(rows: seq<Message>, m: Message, r: Message)
    requires NoDuplicates(rows) && r in rows && !Same(r, m)
    ensures !Same(r, Spread(Merged(rows, m), m))
  {
    MergedClientId(rows, m);
    var merged := Merged(rows, m);
    if m.clientId.None? && merged.clientId != m.clientId {
      var d :| d in rows && Same(d, m) && merged.clientId == d.clientId;
      var i :| 0 <= i < |rows| && rows[i] == d;
      var j :| 0 <= j < |rows| && rows[j] == r;
      assert i != j;
      assert !Same(rows[if i < j then i else j], rows[if i < j then j else i]);
    }
  }

  lemma AbsorbKeepsNoDuplicates(rows: seq<Message>, m: Message)
    requires NoDuplicates(rows)
    ensures NoDuplicates(Absorb(rows, m))
  {
    WithoutKeepsTheRest(rows, m);
    if Known(rows, m) {
      forall r | r in Without(rows, m) ensures !Same(r, Spread(Merged(rows, m), m)) {
        MergedStaysApart(rows, m, r);
      }
    }
  }

  lemma {:induction false} AbsorbAllHasNoDuplicates(messages: seq<Message>)
    ensures NoDuplicates(AbsorbAll(messages))
  {
    if messages != [] {
      AbsorbAllHasNoDuplicates(messages[..|messages| - 1]);
      AbsorbKeepsNoDuplicates(AbsorbAll(messages[..|messages| - 1]), messages[|messages| - 1]);
    }
  }

  lemma {:induction false} InsertContents(rank: Rank, rows: seq<Message>, m: Message)
    ensures forall r :: r in Insert(rank, rows, m) <==> r in rows || r == m
    ensures multiset(Insert(rank, rows, m)) == multiset(rows) + multiset{m}
  {
    if rows != [] && After(rank, rows[|rows| - 1], m) {
      assert rows == rows[..|rows| - 1] + [rows[|rows| - 1]];
      InsertContents(rank, rows[..|rows| - 1], m);
    }
  }

  lemma SortedPrefix(rank: Rank, init: seq<Message>, last: Message)
    requires Sorted(rank, init + [last])
    ensures Sorted(rank, init) && forall r :: r in init ==> !After(rank, r, last)
  {
    var rows := init + [last];
    forall i, j | 0 <= i < j < |init| ensures !After(rank, init[i], init[j]) {
      assert !After(rank, rows[i], rows[j]);
    }
    forall r | r in init ensures !After(rank, r, last) {
      var i :| 0 <= i < |init| && init[i] == r;
      assert !After(rank, rows[i], rows[|init|]);
    }
  }

  lemma UniquePrefix(init: seq<Message>, last: Message)
    requires NoDuplicates(init + [last])
    ensures NoDuplicates(init) && forall r :: r in init ==> !Same(r, last)
  {
    var rows := init + [last];
    forall i, j | 0 <= i < j < |init| ensures !Same(init[i], init[j]) {
      assert !Same(rows[i], rows[j]);
    }
    forall r | r in init ensures !Same(r, last) {
      var i :| 0 <= i < |init| && init[i] == r;
      assert !Same(rows[i], rows[|init|]);
    }
  }

  lemma {:induction false} InsertSorts(rank: Rank, rows: seq<Message>, m: Message)
    requires Sorted(rank, rows)
    ensures Sorted(rank, Insert(rank, rows, m))
  {
    if rows != [] {
      var init, last := rows[..|rows| - 1], rows[|rows| - 1];
      assert rows == init + [last];
      SortedPrefix(rank, init, last);
      if After(rank, last, m) {
        InsertSorts(rank, init, m);
        InsertContents(rank, init, m);
        SortedAppend(rank, Insert(rank, init, m), last);
      } else {
        forall r | r in rows ensures !After(rank, r, m) {
          if r != last { assert r in init; }
        }
        SortedAppend(rank, rows, m);
      }
    }
  }

  lemma SortedAppend(rank: Rank, init: seq<Message>, last: Message)
    requires Sorted(rank, init) && forall r :: r in init ==> !After(rank, r, last)
    ensures Sorted(rank, init + [last])
  {
    forall i | 0 <= i < |init| ensures !After(rank, init[i], last) {
      assert init[i] in init;
    }
  }

  lemma {:induction false} InsertKeepsNoDuplicates(rank: Rank, rows: seq<Message>, m: Message)
    requires NoDuplicates(rows) && forall r :: r in rows ==> !Same(r, m)
    ensures NoDuplicates(Insert(rank, rows, m))
  {
    if rows != [] && After(rank, rows[|rows| - 1], m) {
      var init, last := rows[..|rows| - 1], rows[|rows| - 1];
      assert rows == init + [last] && last in rows;
      UniquePrefix(init, last);
      InsertKeepsNoDuplicates(rank, init, m);
      InsertContents(rank, init, m);
    }
  }

  lemma {:induction false} SortSorts(rank: Rank, rows: seq<Message>)
    ensures Sorted(rank, Sort(rank, rows))
    ensures forall r :: r in Sort(rank, rows) <==> r in rows
    ensures multiset(Sort(rank, rows)) == multiset(rows)
  {
    if rows != [] {
      var init, last := rows[..|rows| - 1], rows[|rows| - 1];
      assert rows == init + [last];
      SortSorts(rank, init);
      InsertSorts(rank, Sort(rank, init), last);
      InsertContents(rank, Sort(rank, init), last);
    }
  }

  lemma {:induction false} SortKeepsNoDuplicates(rank: Rank, rows: seq<Message>)
    requires NoDuplicates(rows)
    ensures NoDuplicates(Sort(rank, rows))
  {
    if rows != [] {
      assert rows == rows[..|rows| - 1] + [rows[|rows| - 1]];
      UniquePrefix(rows[..|rows| - 1], rows[|rows| - 1]);
      SortKeepsNoDuplicates(rank, rows[..|rows| - 1]);
      SortSorts(rank, rows[..|rows| - 1]);
      InsertKeepsNoDuplicates(rank, Sort(rank, rows[..|rows| - 1]), rows[|rows| - 1]);
    }
  }

  // For every rendered and incoming list: no duplicates, and sorted; strictly, when different strings rank differently.
  lemma TimelineIsClean(rank: Rank, current: seq<Message>, incoming: seq<Message>)
    ensures var t := Timeline(rank, current, incoming);
            && NoDuplicates(t) && Sorted(rank, t)
            && ((forall a, b :: rank(a) == rank(b) ==> a == b) ==> StrictlySorted(rank, t))
            && multiset(t) == multiset(AbsorbAll(current + incoming))
  {
    AbsorbAllHasNoDuplicates(current + incoming);
    SortSorts(rank, AbsorbAll(current + incoming));
    SortKeepsNoDuplicates(rank, AbsorbAll(current + incoming));
    var t := Timeline(rank, current, incoming);
    forall i, j | 0 <= i < j < |t| && rank(t[i].id) != rank(t[j].id) ensures After(rank, t[j], t[i]) {
      assert !After(rank, t[i], t[j]);
    }
    forall i, j | 0 <= i < j < |t| ensures t[i].id != t[j].id {
      assert !Same(t[i], t[j]);
    }
  }

  // --- nothing that was set is lost ---

  ghost predicate Carries(r: Message, m: Message) {
    m.rest.Keys <= r.rest.Keys && (m.clientId.Some? ==> r.clientId.Some?)
  }

  // Row i is the last one that matches m and sets k.
  ghost predicate LastSetter(rows: seq<Message>, m: Message, k: string, i: int) {
    && 0 <= i < |rows| && Same(rows[i], m) && k in rows[i].rest
    && forall j :: i < j < |rows| && Same(rows[j], m) ==> k !in rows[j].rest
  }

  // A key that the new message does not set takes its value from the last row that it replaces.
  lemma {:induction false} LastRowWins(rows: seq<Message>, m: Message, k: string, i: int)
    requires LastSetter(rows, m, k, i)
    ensures k in Merged(rows, m).rest && Merged(rows, m).rest[k] == rows[i].rest[k]
  {
    var init, last := rows[..|rows| - 1], rows[|rows| - 1];
    if i < |rows| - 1 {
      forall j | i < j < |init| && Same(init[j], m) ensures k !in init[j].rest {
        assert init[j] == rows[j];
      }
      LastRowWins(init, m, k, i);
    }
  }

  // r has the id and the date of m, and every value that m set.
  ghost predicate ComesFrom(r: Message, m: Message) {
    && r.id == m.id && r.createdAt == m.createdAt && (m.clientId.Some? ==> r.clientId == m.clientId)
    && forall k :: k in m.rest ==> k in r.rest && r.rest[k] == m.rest[k]
  }

  lemma AbsorbedRow(rows: seq<Message>, m: Message, r: Message)
    requires r in Absorb(rows, m)
    ensures r in rows || ComesFrom(r, m)
  {
    WithoutKeepsTheRest(rows, m);
    if Known(rows, m) && r !in Without(rows, m) {
      assert r == Spread(Merged(rows, m), m);
    }
  }

  // Each row is some source message, with that message's values, completed by keys it did not set.
  lemma {:induction false} RowsComeFromMessages(messages: seq<Message>, r: Message)
    requires r in AbsorbAll(messages)
    ensures exists m :: m in messages && ComesFrom(r, m)
  {
    var init, last := messages[..|messages| - 1], messages[|messages| - 1];
    assert messages == init + [last];
    AbsorbedRow(AbsorbAll(init), last, r);
    if r in AbsorbAll(init) {
      RowsComeFromMessages(init, r);
      var m :| m in init && ComesFrom(r, m);
      assert m in messages;
    } else {
      assert last in messages;
    }
  }

  // --- reconciling a timeline with nothing, or with itself, changes nothing ---

  lemma {:induction false} AppendNew(rows: seq<Message>)
    requires NoDuplicates(rows)
    ensures AbsorbAll(rows) == rows
  {
    if rows != [] {
      var init, last := rows[..|rows| - 1], rows[|rows| - 1];
      assert rows == init + [last];
      UniquePrefix(init, last);
      AppendNew(init);
    }
  }

  lemma {:induction false} SortedStays(rank: Rank, rows: seq<Message>)
    requires Sorted(rank, rows)
    ensures Sort(rank, rows) == rows
  {
    if rows != [] {
      var init, last := rows[..|rows| - 1], rows[|rows| - 1];
      assert rows == init + [last];
      SortedPrefix(rank, init, last);
      SortedStays(rank, init);
      StaysLast(rank, init, last);
    }
  }

  lemma StaysLast(rank: Rank, rows: seq<Message>, m: Message)
    requires forall r :: r in rows ==> !After(rank, r, m)
    ensures Insert(rank, rows, m) == rows + [m]
  {
    assert rows != [] ==> rows[|rows| - 1] in rows;
  }

  // Absorbing the first row again moves it to the end.
  lemma AbsorbFirst(rows: seq<Message>, first: Message, others: seq<Message>)
    requires rows == [first] + others && forall r :: r in others ==> !Same(r, first)
    ensures Absorb(rows, first) == others + [first]
  {
    WithoutFirst(first, others);
    MergedFirst(first, others);
    assert first in rows && Same(first, first);
    assert Spread(first, first) == first;
  }

  lemma WithoutFirst(first: Message, others: seq<Message>)
    requires forall r :: r in others ==> !Same(r, first)
    ensures Without([first] + others, first) == others
  {
    WithoutConcat([first], others, first);
    assert !Known(others, first);
    WithoutUnmatched(others, first);
    assert Without([first], first) == [];
  }

  lemma {:induction false} MergedFirst(first: Message, others: seq<Message>)
    requires forall r :: r in others ==> !Same(r, first)
    ensures Merged([first] + others, first) == first
  {
    var rows := [first] + others;
    assert rows[..|rows| - 1] == if others == [] then [] else [first] + others[..|others| - 1];
    if others != [] {
      MergedFirst(first, others[..|others| - 1]);
      assert rows[|rows| - 1] in others;
    }
  }

  lemma OthersDiffer(rows: seq<Message>, k: nat)
    requires NoDuplicates(rows) && k < |rows|
    ensures forall r :: r in rows[k + 1..] + rows[..k] ==> !Same(r, rows[k])
  {
    forall r | r in rows[k + 1..] + rows[..k] ensures !Same(r, rows[k]) {
      var i :| 0 <= i < |rows| && i != k && rows[i] == r;
      assert !Same(rows[if i < k then i else k], rows[if i < k then k else i]);
    }
  }

  lemma RotateSlices(rows: seq<Message>, k: nat)
    requires k < |rows|
    ensures (rows + rows[..k + 1])[..|rows| + k] == rows + rows[..k]
    ensures rows[k..] + rows[..k] == [rows[k]] + (rows[k + 1..] + rows[..k])
    ensures (rows[k + 1..] + rows[..k]) + [rows[k]] == rows[k + 1..] + rows[..k + 1]
  {
  }

  lemma {:induction false} Rotate(rows: seq<Message>, k: nat)
    requires NoDuplicates(rows) && k <= |rows|
    ensures AbsorbAll(rows + rows[..k]) == rows[k..] + rows[..k]
  {
    if k == 0 {
      assert rows + rows[..0] == rows && rows[0..] + rows[..0] == rows;
      AppendNew(rows);
    } else {
      var j := k - 1;
      Rotate(rows, j);
      RotateSlices(rows, j);
      OthersDiffer(rows, j);
      AbsorbFirst(rows[j..] + rows[..j], rows[j], rows[j + 1..] + rows[..j]);
      AbsorbSnoc(rows + rows[..k], rows + rows[..j], rows[j]);
    }
  }

  lemma AbsorbSnoc(all: seq<Message>, init: seq<Message>, last: Message)
    requires all != [] && all[..|all| - 1] == init && all[|all| - 1] == last
    ensures AbsorbAll(all) == Absorb(AbsorbAll(init), last)
  {
  }

  lemma ReconcilingAgainChangesNothing(rank: Rank, current: seq<Message>, incoming: seq<Message>)
    ensures var t := Timeline(rank, current, incoming); Timeline(rank, t, []) == t && Timeline(rank, t, t) == t
  {
    TimelineIsClean(rank, current, incoming);
    CleanStays(rank, Timeline(rank, current, incoming));
  }

  lemma CleanStays(rank: Rank, t: seq<Message>)
    requires NoDuplicates(t) && Sorted(rank, t)
    ensures Timeline(rank, t, []) == t && Timeline(rank, t, t) == t
  {
    AppendNew(t);
    SortedStays(rank, t);
    Rotate(t, |t|);
    assert t + [] == t && t[..|t|] == t && t[|t|..] + t == t;
  }
}
