/** Reconciling the rendered timeline with incoming messages: rows that share a database id or a
    client id become one, then the rows are sorted. */
module MessageReconciliation {
  import opened Common

  // `rest` holds the other keys that are present; an absent optional key is not in the map.
  datatype Message = Message(id: string, clientId: Option<string>, createdAt: string, rest: map<string, string>)

  // {...a, ...b}
  function Spread(a: Message, b: Message): Message {
    Message(b.id, if b.clientId.Some? then b.clientId else a.clientId, b.createdAt, a.rest + b.rest)
  }

  // An empty client id is falsy and matches nothing.
  predicate Same(a: Message, b: Message) {
    a.id == b.id || (a.clientId.Some? && a.clientId.value != "" && a.clientId == b.clientId)
  }

  // --- the algorithm's own steps ---

  function Duplicates(rows: seq<Message>, m: Message): seq<nat> {
    if rows == [] then []
    else Duplicates(rows[..|rows| - 1], m) + if Same(rows[|rows| - 1], m) then [|rows| - 1] else []
  }

  function MergeAt(rows: seq<Message>, indices: seq<nat>, m: Message): Message
    requires forall k :: 0 <= k < |indices| ==> indices[k] < |rows|
  {
    if indices == [] then m
    else Spread(MergeAt(rows, indices[..|indices| - 1], m), rows[indices[|indices| - 1]])
  }

  // --- what they amount to ---

  function Without(rows: seq<Message>, m: Message): seq<Message> {
    if rows == [] then []
    else Without(rows[..|rows| - 1], m) + if Same(rows[|rows| - 1], m) then [] else [rows[|rows| - 1]]
  }

  // The matching rows spread over m in order, and m itself last.
  function Merged(rows: seq<Message>, m: Message): Message {
    if rows == [] then m
    else if Same(rows[|rows| - 1], m) then Spread(Merged(rows[..|rows| - 1], m), rows[|rows| - 1])
    else Merged(rows[..|rows| - 1], m)
  }

  predicate Known(rows: seq<Message>, m: Message) {
    exists r :: r in rows && Same(r, m)
  }

  function Absorb(rows: seq<Message>, m: Message): seq<Message> {
    if Known(rows, m) then Without(rows, m) + [Spread(Merged(rows, m), m)] else rows + [m]
  }

  function AbsorbAll(messages: seq<Message>): seq<Message> {
    if messages == [] then [] else Absorb(AbsorbAll(messages[..|messages| - 1]), messages[|messages| - 1])
  }

  // localeCompare is a total preorder of strings: it compares ranks. Different strings may rank the same.
  type Rank = string -> real

  // The comparator is positive: `left` belongs after `right`.
  predicate After(rank: Rank, left: Message, right: Message) {
    rank(left.createdAt) < rank(right.createdAt)
    || (rank(left.createdAt) == rank(right.createdAt) && rank(left.id) > rank(right.id))
  }

  function Insert(rank: Rank, rows: seq<Message>, m: Message): seq<Message> {
    if rows != [] && After(rank, rows[|rows| - 1], m) then
      Insert(rank, rows[..|rows| - 1], m) + [rows[|rows| - 1]] else rows + [m]
  }

  // The stable sort of the array.
  function Sort(rank: Rank, rows: seq<Message>): seq<Message> {
    if rows == [] then [] else Insert(rank, Sort(rank, rows[..|rows| - 1]), rows[|rows| - 1])
  }

  function Timeline(rank: Rank, current: seq<Message>, incoming: seq<Message>): seq<Message> {
    Sort(rank, AbsorbAll(current + incoming))
  }

  // --- the imperative algorithm computes the timeline ---

  lemma {:induction false} DuplicatesInRange(rows: seq<Message>, m: Message)
    ensures forall k :: 0 <= k < |Duplicates(rows, m)| ==> Duplicates(rows, m)[k] < |rows|
    ensures Duplicates(rows, m) == [] <==> !Known(rows, m)
  {
    if rows != [] {
      var init, last := rows[..|rows| - 1], rows[|rows| - 1];
      DuplicatesInRange(init, m);
      KnownSnoc(init, last, m);
      assert rows == init + [last];
    }
  }

  lemma KnownSnoc(init: seq<Message>, last: Message, m: Message)
    ensures Known(init + [last], m) <==> Known(init, m) || Same(last, m)
  {
    var rows := init + [last];
    if Known(init, m) {
      var r :| r in init && Same(r, m);
      assert r in rows;
    }
    assert last in rows;
  }

  // Behind the last duplicate nothing matches; before it are the other duplicates.
  lemma {:induction false} LastDuplicate(rows: seq<Message>, m: Message)
    requires Duplicates(rows, m) != []
    ensures var d := Duplicates(rows, m); var i := d[|d| - 1];
            i < |rows| && Without(rows[i..], m) == rows[i + 1..] && Duplicates(rows[..i], m) == d[..|d| - 1]
  {
    var init, last := rows[..|rows| - 1], rows[|rows| - 1];
    var d := Duplicates(rows, m);
    if Same(last, m) {
      assert d == Duplicates(init, m) + [|rows| - 1];
      assert rows[|rows| - 1..] == [last] && rows[|rows|..] == [];
      assert [last][..0] == [];
    } else {
      assert d == Duplicates(init, m);
      LastDuplicate(init, m);
      var i := d[|d| - 1];
      assert rows[i..] == init[i..] + [last] && rows[i + 1..] == init[i + 1..] + [last] && rows[..i] == init[..i];
      assert (init[i..] + [last])[..|init[i..]|] == init[i..];
    }
  }

  lemma {:induction false} MergeAtIsMerged(rows: seq<Message>, m: Message)
    ensures (forall k :: 0 <= k < |Duplicates(rows, m)| ==> Duplicates(rows, m)[k] < |rows|)
            && MergeAt(rows, Duplicates(rows, m), m) == Merged(rows, m)
  {
    DuplicatesInRange(rows, m);
    if rows != [] {
      var init, d := rows[..|rows| - 1], Duplicates(rows[..|rows| - 1], m);
      MergeAtIsMerged(init, m);
      DuplicatesInRange(init, m);
      MergeAtPrefix(init, rows, d, m);
      if Same(rows[|rows| - 1], m) {
        assert Duplicates(rows, m) == d + [|rows| - 1];
        assert (d + [|rows| - 1])[..|d|] == d;
      } else {
        assert Duplicates(rows, m) == d;
      }
    }
  }

  lemma {:induction false} MergeAtPrefix(init: seq<Message>, rows: seq<Message>, indices: seq<nat>, m: Message)
    requires init <= rows && forall k :: 0 <= k < |indices| ==> indices[k] < |init|
    ensures MergeAt(init, indices, m) == MergeAt(rows, indices, m)
  {
    if indices != [] {
      MergeAtPrefix(init, rows, indices[..|indices| - 1], m);
    }
  }

  lemma {:induction false} WithoutConcat(a: seq<Message>, b: seq<Message>, m: Message)
    ensures Without(a + b, m) == Without(a, m) + Without(b, m)
  {
    if b == [] {
      assert a + b == a;
    } else {
      WithoutConcat(a, b[..|b| - 1], m);
      assert (a + b)[..|a + b| - 1] == a + b[..|b| - 1];
    }
  }

  lemma {:induction false} WithoutUnmatched(rows: seq<Message>, m: Message)
    requires !Known(rows, m)
    ensures Without(rows, m) == rows
  {
    if rows != [] {
      var init, last := rows[..|rows| - 1], rows[|rows| - 1];
      assert rows == init + [last];
      KnownSnoc(init, last, m);
      WithoutUnmatched(init, m);
    }
  }

  // Cutting out the last duplicate of the first e rows, when the rows from e on are done.
  lemma SpliceOne(rows: seq<Message>, m: Message, i: nat, e: nat, kept: seq<Message>)
    requires i < e <= |rows| && kept == rows[..e] + Without(rows[e..], m)
    requires Without(rows[..e][i..], m) == rows[..e][i + 1..]
    ensures i < |kept| && kept[..i] + kept[i + 1..] == rows[..i] + Without(rows[i..], m)
  {
    assert rows[i..] == rows[..e][i..] + rows[e..];
    WithoutConcat(rows[..e][i..], rows[e..], m);
    assert kept[i + 1..] == rows[..e][i + 1..] + Without(rows[e..], m);
  }

  lemma SpliceStep(rows: seq<Message>, m: Message, duplicates: seq<nat>, e: nat, kept: seq<Message>)
    requires e <= |rows| && duplicates != [] && Duplicates(rows[..e], m) == duplicates
    requires kept == rows[..e] + Without(rows[e..], m)
    ensures var i := duplicates[|duplicates| - 1];
            && i < e && i < |kept|
            && Duplicates(rows[..i], m) == duplicates[..|duplicates| - 1]
            && kept[..i] + kept[i + 1..] == rows[..i] + Without(rows[i..], m)
  {
    var i := duplicates[|duplicates| - 1];
    LastDuplicate(rows[..e], m);
    SpliceOne(rows, m, i, e, kept);
    assert rows[..e][..i] == rows[..i];
  }

  lemma UnmatchedPrefix(a: seq<Message>, b: seq<Message>, m: Message)
    requires Duplicates(a, m) == []
    ensures a + Without(b, m) == Without(a + b, m)
  {
    DuplicatesInRange(a, m);
    WithoutUnmatched(a, m);
    WithoutConcat(a, b, m);
  }

  lemma SpliceEnd(rows: seq<Message>, m: Message, e: nat)
    requires e <= |rows| && Duplicates(rows[..e], m) == []
    ensures rows[..e] + Without(rows[e..], m) == Without(rows, m)
  {
    assert rows == rows[..e] + rows[e..];
    UnmatchedPrefix(rows[..e], rows[e..], m);
  }

  // Splicing in descending index order removes exactly the matched rows.
  method SpliceOut(rows: seq<Message>, m: Message) returns (kept: seq<Message>)
    ensures kept == Without(rows, m)
  {
    kept := rows;
    var duplicates := Duplicates(rows, m);
    var k := |duplicates|;
    ghost var e: nat := |rows|;
    assert rows[..e] == rows && rows[e..] == [] && duplicates[..k] == duplicates;
    while k > 0
      invariant 0 <= k <= |duplicates| && e <= |rows|
      invariant Duplicates(rows[..e], m) == duplicates[..k]
      invariant kept == rows[..e] + Without(rows[e..], m)
    {
      SpliceStep(rows, m, duplicates[..k], e, kept);
      k := k - 1;
      var index := duplicates[k];
      assert duplicates[..k + 1][..k] == duplicates[..k];
      kept := kept[..index] + kept[index + 1..];
      e := index;
    }
    SpliceEnd(rows, m, e);
  }

  method Reconcile(rank: Rank, current: seq<Message>, incoming: seq<Message>) returns (timeline: seq<Message>)
    ensures timeline == Timeline(rank, current, incoming)
  {
    var messages := current + incoming;
    var reconciled: seq<Message> := [];
    for k := 0 to |messages|
      invariant reconciled == AbsorbAll(messages[..k])
    {
      var message := messages[k];
      assert messages[..k + 1][..k] == messages[..k];
      DuplicatesInRange(reconciled, message);
      var duplicates := Duplicates(reconciled, message);
      if |duplicates| == 0 {
        reconciled := reconciled + [message];
      } else {
        MergeAtIsMerged(reconciled, message);
        var merged := MergeAt(reconciled, duplicates, message);
        reconciled := SpliceOut(reconciled, message);
        reconciled := reconciled + [Spread(merged, message)];
      }
    }
    assert messages[..|messages|] == messages;
    timeline := Sort(rank, reconciled);
  }
}
