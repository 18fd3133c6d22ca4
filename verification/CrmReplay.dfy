/** When is applying the same page twice the same as applying it once?
    Not always: a record whose fields equal the row's does not refresh the row's timestamp, so an
    out-of-order page can, the second time, apply a record it had skipped the first time. Which
    pages are safe whatever they contain is decided by their stamps alone: when an entity goes back
    in time, the last of its earlier records that were not later must carry exactly the same time. */
module CrmReplay {
  import opened Common
  import opened CrmStore

  // Who a record is about and when it was changed, without its contents.
  datatype Stamp = Stamp(key: Key, updatedAt: int)

  function Fill(stamps: seq<Stamp>, fields: seq<string>): (records: seq<Record>)
    requires |stamps| == |fields|
    ensures |records| == |stamps|
  {
    seq(|stamps|, i requires 0 <= i < |stamps| =>
      Record(stamps[i].key.entityType, stamps[i].key.externalId, stamps[i].updatedAt, fields[i]))
  }

  // The time of the entity's last record among those that are not later than t.
  function LastAtMost(stamps: seq<Stamp>, k: Key, t: int): Option<int> {
    if stamps == [] then None
    else
      var last := stamps[|stamps| - 1];
      if last.key == k && last.updatedAt <= t then Some(last.updatedAt) else LastAtMost(stamps[..|stamps| - 1], k, t)
  }

  // Whenever an entity goes back to a time, it was last at exactly that time before it went past it.
  ghost predicate Realigned(stamps: seq<Stamp>) {
    forall i, j :: 0 <= i < j < |stamps| && stamps[i].key == stamps[j].key && stamps[i].updatedAt > stamps[j].updatedAt
      ==> LastAtMost(stamps[..i], stamps[j].key, stamps[j].updatedAt) == Some(stamps[j].updatedAt)
  }

  ghost predicate Ordered(stamps: seq<Stamp>) {
    forall i, j :: 0 <= i < j < |stamps| && stamps[i].key == stamps[j].key
      ==> stamps[i].updatedAt <= stamps[j].updatedAt
  }

  // Whatever its records contain, replaying the page changes nothing.
  ghost predicate PageSafe(stamps: seq<Stamp>) {
    forall fields: seq<string> :: |fields| == |stamps| ==> ReplaySafe(Fill(stamps, fields))
  }

  // Wherever a page begins and ends.
  ghost predicate SafeHoweverCut(stamps: seq<Stamp>) {
    forall lo: nat, hi: nat :: lo <= hi <= |stamps| ==> PageSafe(stamps[lo..hi])
  }

  ghost predicate ReplaySafe(records: seq<Record>) {
    forall mirror :: UpsertAll(UpsertAll(mirror, records), records) == UpsertAll(mirror, records)
  }

  // --- one entity at a time ---

  function Step(row: Option<Link>, r: Record): Option<Link> {
    if row.None? then Some(Link(r.fields, r.updatedAt))
    else if row.value.fields != r.fields && row.value.updatedAt <= r.updatedAt then Some(Link(r.fields, r.updatedAt))
    else row
  }

  function RowAt(mirror: map<Key, Link>, k: Key): Option<Link> {
    if k in mirror then Some(mirror[k]) else None
  }

  function StepAll(row: Option<Link>, records: seq<Record>, k: Key): Option<Link> {
    if records == [] then row
    else
      var before := StepAll(row, records[..|records| - 1], k);
      if KeyOf(records[|records| - 1]) == k then Step(before, records[|records| - 1]) else before
  }

  // A page acts on each entity separately.
  lemma {:induction false} UpsertAllByRow(mirror: map<Key, Link>, records: seq<Record>, k: Key)
    ensures RowAt(UpsertAll(mirror, records), k) == StepAll(RowAt(mirror, k), records, k)
  {
    if records != [] {
      UpsertAllByRow(mirror, records[..|records| - 1], k);
    }
  }

  ghost predicate Stamped(records: seq<Record>, stamps: seq<Stamp>) {
    && |records| == |stamps|
    && forall i :: 0 <= i < |records| ==>
         KeyOf(records[i]) == stamps[i].key && records[i].updatedAt == stamps[i].updatedAt
  }

  lemma {:induction false} TimestampsGrow(row: Link, records: seq<Record>, k: Key)
    ensures StepAll(Some(row), records, k).Some?
    ensures row.updatedAt <= StepAll(Some(row), records, k).value.updatedAt
  {
    if records != [] { TimestampsGrow(row, records[..|records| - 1], k); }
  }

  lemma {:induction false} StepAllConcat(row: Option<Link>, a: seq<Record>, b: seq<Record>, k: Key)
    ensures StepAll(row, a + b, k) == StepAll(StepAll(row, a, k), b, k)
  {
    if b == [] {
      assert a + b == a;
    } else {
      StepAllConcat(row, a, b[..|b| - 1], k);
      assert (a + b)[..|a + b| - 1] == a + b[..|b| - 1];
    }
  }

  // --- realigned pages are safe ---

  // The page so far would take a record stamped t.
  predicate Takes(row: Option<Link>, t: int) {
    row.None? || row.value.updatedAt <= t
  }

  lemma {:induction false} TookBefore(row: Option<Link>, init: seq<Record>, last: Record, k: Key, t: int)
    requires Takes(StepAll(row, init + [last], k), t)
    ensures Takes(StepAll(row, init, k), t)
  {
    StepAllConcat(row, init, [last], k);
    if StepAll(row, init, k).Some? { TimestampsGrow(StepAll(row, init, k).value, [last], k); }
  }

  // The second pass goes past time t only where the first did.
  ghost predicate InStep(first: Option<Link>, second: Option<Link>, last: Option<int>, t: int) {
    && second.Some? && second.value.updatedAt == t
    && (last == Some(t) ==> first.Some? && first.value.fields == second.value.fields)
  }

  lemma StaysInStep(first: Option<Link>, second: Option<Link>, last: Option<int>, r: Record, t: int)
    requires InStep(first, second, last, t) && Takes(Step(first, r), t)
    requires r.updatedAt > t ==> last == Some(t)
    ensures InStep(Step(first, r), Step(second, r), if r.updatedAt <= t then Some(r.updatedAt) else last, t)
  {
  }

  // Runs both passes over the records before one that the first pass takes at time t.
  lemma {:induction false} PassesInStep(row: Option<Link>, records: seq<Record>, stamps: seq<Stamp>, k: Key, t: int,
                                        f: string)
    requires Stamped(records, stamps) && Takes(StepAll(row, records, k), t)
    requires forall i :: 0 <= i < |stamps| && stamps[i].key == k && stamps[i].updatedAt > t
               ==> LastAtMost(stamps[..i], k, t) == Some(t)
    ensures InStep(StepAll(row, records, k), StepAll(Some(Link(f, t)), records, k), LastAtMost(stamps, k, t), t)
  {
    if records != [] {
      var n := |records| - 1;
      var init, before, r := records[..n], stamps[..n], records[n];
      assert records == init + [r];
      TookBefore(row, init, r, k, t);
      forall i | 0 <= i < n && before[i].key == k && before[i].updatedAt > t
        ensures LastAtMost(before[..i], k, t) == Some(t)
      {
        assert before[..i] == stamps[..i] && stamps[i] == before[i];
      }
      PassesInStep(row, init, before, k, t, f);
      assert stamps[n].key == KeyOf(r) && stamps[n].updatedAt == r.updatedAt;
      if KeyOf(r) == k {
        StaysInStep(StepAll(row, init, k), StepAll(Some(Link(f, t)), init, k), LastAtMost(before, k, t), r, t);
      }
    }
  }

  lemma PrefixIsRealigned(stamps: seq<Stamp>, n: nat)
    requires Realigned(stamps) && n <= |stamps|
    ensures Realigned(stamps[..n])
  {
    var before := stamps[..n];
    forall i, j | 0 <= i < j < n && before[i].key == before[j].key && before[i].updatedAt > before[j].updatedAt
      ensures LastAtMost(before[..i], before[j].key, before[j].updatedAt) == Some(before[j].updatedAt)
    {
      assert before[..i] == stamps[..i] && before[i] == stamps[i] && before[j] == stamps[j];
    }
  }

  lemma {:induction false} SecondPassChangesNothing(row: Option<Link>, records: seq<Record>, stamps: seq<Stamp>, k: Key)
    requires Stamped(records, stamps) && Realigned(stamps)
    ensures StepAll(StepAll(row, records, k), records, k) == StepAll(row, records, k)
  {
    if records != [] {
      var n := |records| - 1;
      var init, before, r := records[..n], stamps[..n], records[n];
      PrefixIsRealigned(stamps, n);
      SecondPassChangesNothing(row, init, before, k);
      if KeyOf(r) == k && Step(StepAll(row, init, k), r) != StepAll(row, init, k) {
        assert stamps[n].key == k && stamps[n].updatedAt == r.updatedAt;
        forall i | 0 <= i < n && before[i].key == k && before[i].updatedAt > r.updatedAt
          ensures LastAtMost(before[..i], k, r.updatedAt) == Some(r.updatedAt)
        {
          assert before[..i] == stamps[..i] && stamps[i] == before[i];
        }
        PassesInStep(row, init, before, k, r.updatedAt, r.fields);
      }
    }
  }

  lemma SameRows(a: map<Key, Link>, b: map<Key, Link>)
    requires forall k :: RowAt(a, k) == RowAt(b, k)
    ensures a == b
  {
    forall k ensures k in a <==> k in b {
      assert RowAt(a, k) == RowAt(b, k);
    }
    forall k | k in a ensures a[k] == b[k] {
      assert RowAt(a, k) == RowAt(b, k);
    }
  }

  lemma RealignedIsSafe(stamps: seq<Stamp>, fields: seq<string>)
    requires |stamps| == |fields| && Realigned(stamps)
    ensures ReplaySafe(Fill(stamps, fields))
  {
    var records := Fill(stamps, fields);
    forall mirror ensures UpsertAll(UpsertAll(mirror, records), records) == UpsertAll(mirror, records) {
      var once := UpsertAll(mirror, records);
      var twice := UpsertAll(once, records);
      forall k ensures RowAt(twice, k) == RowAt(once, k) {
        UpsertAllByRow(mirror, records, k);
        UpsertAllByRow(once, records, k);
        SecondPassChangesNothing(RowAt(mirror, k), records, stamps, k);
      }
      SameRows(twice, once);
    }
  }

  // --- the others are not ---

  ghost predicate AllHold(records: seq<Record>, k: Key, fields: string) {
    forall i :: 0 <= i < |records| && KeyOf(records[i]) == k ==> records[i].fields == fields
  }

  ghost predicate AllLater(records: seq<Record>, k: Key, t: int) {
    forall i :: 0 <= i < |records| && KeyOf(records[i]) == k ==> records[i].updatedAt > t
  }

  // A row ignores every record that carries the contents it already holds.
  lemma {:induction false} SkipsSameContents(row: Link, records: seq<Record>, k: Key)
    requires AllHold(records, k, row.fields)
    ensures StepAll(Some(row), records, k) == Some(row)
  {
    if records != [] { SkipsSameContents(row, records[..|records| - 1], k); }
  }

  // Later records with other contents: the first of them is taken.
  lemma {:induction false} LaterIsTaken(row: Link, records: seq<Record>, k: Key)
    requires forall i :: 0 <= i < |records| && KeyOf(records[i]) == k
               ==> records[i].fields != row.fields && records[i].updatedAt > row.updatedAt
    ensures StepAll(Some(row), records, k).Some?
    ensures StepAll(Some(row), records, k) == Some(row) ||
            StepAll(Some(row), records, k).value.updatedAt > row.updatedAt
    ensures (records != [] && KeyOf(records[|records| - 1]) == k) ==>
              StepAll(Some(row), records, k).value.updatedAt > row.updatedAt
  {
    if records != [] {
      LaterIsTaken(row, records[..|records| - 1], k);
      TimestampsGrow(row, records, k);
    }
  }

  // Records ahead, then `later` ones that all hold "" and end at a time past r, then ones that hold "",
  // then r and the rest, which hold "x".
  lemma ReplayGoesPast(start: Option<Link>, s: int, ahead: seq<Record>, later: seq<Record>, middle: seq<Record>,
                       r: Record, rest: seq<Record>, k: Key)
    requires StepAll(start, ahead, k) == Some(Link("", s)) && s <= r.updatedAt
    requires StepAll(Some(Link("x", r.updatedAt)), ahead, k) == Some(Link("x", r.updatedAt))
    requires later != [] && KeyOf(later[|later| - 1]) == k && KeyOf(r) == k && r.fields == "x"
    requires AllLater(later, k, r.updatedAt)
    requires AllHold(later, k, "") && AllHold(middle, k, "") && AllHold(rest, k, "x")
    ensures StepAll(StepAll(start, ahead + later + middle + [r] + rest, k), ahead + later + middle + [r] + rest, k)
            != StepAll(start, ahead + later + middle + [r] + rest, k)
  {
    var end := Link("x", r.updatedAt);
    SkipsSameContents(Link("", s), later, k);
    SkipsSameContents(Link("", s), middle, k);
    OneRecord(Some(Link("", s)), r, k);
    SkipsSameContents(end, rest, k);
    InFive(start, ahead, later, middle, [r], rest, k);
    assert StepAll(start, ahead + later + middle + [r] + rest, k) == Some(end);
    LaterIsTaken(end, later, k);
    var passed := StepAll(Some(end), later, k).value;
    TimestampsGrow(passed, middle + [r] + rest, k);
    InFive(Some(end), ahead, later, middle, [r], rest, k);
    StepAllConcat(Some(passed), middle, [r], k);
    StepAllConcat(Some(passed), middle + [r], rest, k);
  }

  lemma OneRecord(row: Option<Link>, r: Record, k: Key)
    requires KeyOf(r) == k
    ensures StepAll(row, [r], k) == Step(row, r)
  {
    assert [r][..0] == [];
  }

  lemma InFive(row: Option<Link>, a: seq<Record>, b: seq<Record>, c: seq<Record>, d: seq<Record>,
               e: seq<Record>, k: Key)
    ensures StepAll(row, a + b + c + d + e, k)
            == StepAll(StepAll(StepAll(StepAll(StepAll(row, a, k), b, k), c, k), d, k), e, k)
  {
    StepAllConcat(row, a, b, k);
    StepAllConcat(row, a + b, c, k);
    StepAllConcat(row, a + b + c, d, k);
    StepAllConcat(row, a + b + c + d, e, k);
  }

  // Where that last record is.
  lemma {:induction false} WhereLastIs(stamps: seq<Stamp>, k: Key, t: int) returns (m: int)
    ensures -1 <= m < |stamps|
    ensures m == -1 <==> LastAtMost(stamps, k, t).None?
    ensures m >= 0 ==> stamps[m].key == k && stamps[m].updatedAt <= t
    ensures m >= 0 ==> LastAtMost(stamps, k, t) == Some(stamps[m].updatedAt)
    ensures forall i :: m < i < |stamps| && stamps[i].key == k ==> stamps[i].updatedAt > t
  {
    if stamps == [] {
      m := -1;
    } else if stamps[|stamps| - 1].key == k && stamps[|stamps| - 1].updatedAt <= t {
      m := |stamps| - 1;
    } else {
      m := WhereLastIs(stamps[..|stamps| - 1], k, t);
    }
  }

  // "x" up to m, "" up to j, then "x" again.
  function Contents(n: nat, m: int, j: int): (fields: seq<string>)
    ensures |fields| == n
  {
    seq(n, i => if m <= i < j then "" else "x")
  }

  lemma UnsafeAtRow(records: seq<Record>, k: Key, start: Link)
    requires StepAll(StepAll(Some(start), records, k), records, k) != StepAll(Some(start), records, k)
    ensures !ReplaySafe(records)
  {
    var mirror := map[k := start];
    UpsertAllByRow(mirror, records, k);
    UpsertAllByRow(UpsertAll(mirror, records), records, k);
    assert UpsertAll(UpsertAll(mirror, records), records) != UpsertAll(mirror, records);
  }

  lemma SliceHolds(records: seq<Record>, m: int, j: nat, lo: nat, hi: nat, k: Key, fields: string)
    requires lo <= hi <= |records|
    requires forall l :: lo <= l < hi ==> records[l].fields == Contents(|records|, m, j)[l] == fields
    ensures AllHold(records[lo..hi], k, fields)
  {
  }

  lemma SlicesHold(records: seq<Record>, m: int, i: nat, j: nat, k: Key)
    requires -1 <= m < i < j < |records|
    requires forall l :: 0 <= l < |records| ==> records[l].fields == Contents(|records|, m, j)[l]
    ensures AllHold(records[m + 1..i + 1], k, "") && AllHold(records[i + 1..j], k, "")
    ensures records[j].fields == "x" && AllHold(records[j + 1..|records|], k, "x")
  {
    SliceHolds(records, m, j, m + 1, i + 1, k, "");
    SliceHolds(records, m, j, i + 1, j, k, "");
    SliceHolds(records, m, j, j + 1, |records|, k, "x");
  }

  lemma LaterThan(records: seq<Record>, stamps: seq<Stamp>, m: int, i: nat, k: Key, t: int)
    requires Stamped(records, stamps) && -1 <= m < i < |stamps| && stamps[i].updatedAt > t
    requires forall l :: m < l < i && stamps[l].key == k ==> stamps[l].updatedAt > t
    ensures AllLater(records[m + 1..i + 1], k, t)
  {
    var later := records[m + 1..i + 1];
    assert forall l :: 0 <= l < |later| ==> later[l] == records[m + 1 + l];
  }

  lemma InPieces(records: seq<Record>, lo: nat, i: nat, j: nat)
    requires lo <= i < j < |records|
    ensures records == records[..lo] + records[lo..i + 1] + records[i + 1..j] + [records[j]] + records[j + 1..|records|]
  {
  }

  lemma ReplayOfPieces(records: seq<Record>, start: Link, s: int, lo: nat, i: nat, j: nat, k: Key)
    requires lo <= i < j < |records| && KeyOf(records[i]) == KeyOf(records[j]) == k
    requires var t := records[j].updatedAt;
             && s <= t && StepAll(Some(start), records[..lo], k) == Some(Link("", s))
             && StepAll(Some(Link("x", t)), records[..lo], k) == Some(Link("x", t))
             && AllLater(records[lo..i + 1], k, t)
    requires AllHold(records[lo..i + 1], k, "") && AllHold(records[i + 1..j], k, "")
    requires records[j].fields == "x" && AllHold(records[j + 1..|records|], k, "x")
    ensures StepAll(StepAll(Some(start), records, k), records, k) != StepAll(Some(start), records, k)
  {
    InPieces(records, lo, i, j);
    ReplayGoesPast(Some(start), s, records[..lo], records[lo..i + 1], records[i + 1..j], records[j],
                   records[j + 1..|records|], k);
  }

  lemma GoingBackBreaksReplay(stamps: seq<Stamp>, i: nat, j: nat) returns (fields: seq<string>)
    requires i < j < |stamps| && stamps[i].key == stamps[j].key && stamps[i].updatedAt > stamps[j].updatedAt
    requires LastAtMost(stamps[..i], stamps[j].key, stamps[j].updatedAt) != Some(stamps[j].updatedAt)
    ensures |fields| == |stamps| && !ReplaySafe(Fill(stamps, fields))
  {
    var n, k, t := |stamps|, stamps[j].key, stamps[j].updatedAt;
    var m := WhereLastIs(stamps[..i], k, t);
    fields := Contents(n, m, j);
    var records := Fill(stamps, fields);
    var start := if m >= 0 then Link("x", stamps[m].updatedAt) else Link("", t);
    var s := if m >= 0 then stamps[m].updatedAt else t;
    Ahead(records, stamps, m, i, j, start);
    SlicesHold(records, m, i, j, k);
    LaterThan(records, stamps, m, i, k, t);
    ReplayOfPieces(records, start, s, m + 1, i, j, k);
    UnsafeAtRow(records, k, start);
  }

  lemma Ahead(records: seq<Record>, stamps: seq<Stamp>, m: int, i: nat, j: nat, start: Link)
    requires -1 <= m < i < j < |stamps| && Stamped(records, stamps)
    requires forall l :: 0 <= l < |records| ==> records[l].fields == Contents(|stamps|, m, j)[l]
    requires m >= 0 ==> stamps[m].key == stamps[j].key && stamps[m].updatedAt < stamps[j].updatedAt
    requires start == if m >= 0 then Link("x", stamps[m].updatedAt) else Link("", stamps[j].updatedAt)
    ensures var s := if m >= 0 then stamps[m].updatedAt else stamps[j].updatedAt;
            StepAll(Some(start), records[..m + 1], stamps[j].key) == Some(Link("", s))
    ensures StepAll(Some(Link("x", stamps[j].updatedAt)), records[..m + 1], stamps[j].key)
            == Some(Link("x", stamps[j].updatedAt))
  {
    var k, end := stamps[j].key, Link("x", stamps[j].updatedAt);
    if m >= 0 {
      SkipsSameContents(start, records[..m], k);
      SkipsSameContents(end, records[..m], k);
      assert records[..m + 1] == records[..m] + [records[m]];
      StepAllConcat(Some(start), records[..m], [records[m]], k);
      StepAllConcat(Some(end), records[..m], [records[m]], k);
      OneRecord(Some(start), records[m], k);
      OneRecord(Some(end), records[m], k);
    }
  }

  // A page is safe to replay, whatever it contains, exactly when its stamps are realigned.
  lemma PageSafeIffRealigned(stamps: seq<Stamp>)
    ensures PageSafe(stamps) <==> Realigned(stamps)
  {
    if Realigned(stamps) {
      forall fields: seq<string> | |fields| == |stamps| ensures ReplaySafe(Fill(stamps, fields)) {
        RealignedIsSafe(stamps, fields);
      }
    } else {
      var i, j :| 0 <= i < j < |stamps| && stamps[i].key == stamps[j].key && stamps[i].updatedAt > stamps[j].updatedAt
                  && LastAtMost(stamps[..i], stamps[j].key, stamps[j].updatedAt) != Some(stamps[j].updatedAt);
      var fields := GoingBackBreaksReplay(stamps, i, j);
      assert !ReplaySafe(Fill(stamps, fields));
    }
  }

  // Every page that can be cut from a stream is safe exactly when the stream never goes back.
  lemma SafeIffOrdered(stamps: seq<Stamp>)
    ensures SafeHoweverCut(stamps) <==> Ordered(stamps)
  {
    if Ordered(stamps) {
      forall lo: nat, hi: nat | lo <= hi <= |stamps| ensures PageSafe(stamps[lo..hi]) {
        PageSafeIffRealigned(stamps[lo..hi]);
      }
    } else {
      var i, j :| 0 <= i < j < |stamps| && stamps[i].key == stamps[j].key && stamps[i].updatedAt > stamps[j].updatedAt;
      var page := stamps[i..j + 1];
      assert page[0] == stamps[i] && page[j - i] == stamps[j] && page[..0] == [];
      assert !Realigned(page);
      PageSafeIffRealigned(page);
    }
  }

  // A single page may go back in time and be safe: an entity stamped 1, 2, 1.
  lemma SafeWithoutOrder(k: Key)
    ensures var stamps := [Stamp(k, 1), Stamp(k, 2), Stamp(k, 1)];
            PageSafe(stamps) && !Ordered(stamps)
  {
    var stamps := [Stamp(k, 1), Stamp(k, 2), Stamp(k, 1)];
    assert stamps[..1] == [stamps[0]];
    assert stamps[1].updatedAt > stamps[2].updatedAt;
    PageSafeIffRealigned(stamps);
  }

  // A concrete page: the account is already as the first record says, then changes, with an older stamp.
  lemma ReplayCanResurrect()
    ensures
      var k := Key("account", "7");
      var page := [Record("account", "7", 5, "A"), Record("account", "7", 2, "B")];
      var once := UpsertAll(map[k := Link("A", 1)], page);
      once == map[k := Link("B", 2)] && UpsertAll(once, page) == map[k := Link("A", 5)]
  {
    var k := Key("account", "7");
    var page := [Record("account", "7", 5, "A"), Record("account", "7", 2, "B")];
    assert page[..1] == [page[0]] && page[..1][..0] == [];
    var start := map[k := Link("A", 1)];
    assert UpsertAll(start, page[..1]) == start;
    var once := UpsertAll(start, page);
    assert once == map[k := Link("B", 2)];
    assert UpsertAll(once, page[..1]) == map[k := Link("A", 5)];
  }
}
