/** Which messages each reconciled row is made of: every message goes into exactly one row, and a row has
    exactly the keys of its own messages. */
module TimelineSources {
  import opened MessageReconciliation
  import opened TimelineTheorems

  // The sources of the rows that stay, and of those that are merged.
  ghost function Kept(rows: seq<Message>, sources: seq<set<nat>>, m: Message): (kept: seq<set<nat>>)
    requires |rows| == |sources|
    ensures |kept| == |Without(rows, m)|
  {
    if rows == [] then []
    else
      var n := |rows| - 1;
      Kept(rows[..n], sources[..n], m) + if Same(rows[n], m) then [] else [sources[n]]
  }

  ghost function Taken(rows: seq<Message>, sources: seq<set<nat>>, m: Message): set<nat>
    requires |rows| == |sources|
  {
    if rows == [] then {}
    else
      var n := |rows| - 1;
      Taken(rows[..n], sources[..n], m) + if Same(rows[n], m) then sources[n] else {}
  }

  ghost function NextSources(rows: seq<Message>, before: seq<set<nat>>, m: Message, n: nat): seq<set<nat>>
    requires |rows| == |before|
  {
    if Known(rows, m) then Kept(rows, before, m) + [Taken(rows, before, m) + {n}] else before + [{n}]
  }

  // The positions of the messages behind each row, followed through the same steps as the rows themselves.
  ghost function Sources(messages: seq<Message>): (sources: seq<set<nat>>)
    ensures |sources| == |AbsorbAll(messages)|
  {
    if messages == [] then []
    else
      var n := |messages| - 1;
      NextSources(AbsorbAll(messages[..n]), Sources(messages[..n]), messages[n], n)
  }

  // --- every message is in exactly one row ---

  ghost function RowsWith(sources: seq<set<nat>>, i: nat): nat {
    if sources == [] then 0
    else RowsWith(sources[..|sources| - 1], i) + if i in sources[|sources| - 1] then 1 else 0
  }

  lemma OneMoreRow(sources: seq<set<nat>>, s: set<nat>, i: nat)
    ensures RowsWith(sources + [s], i) == RowsWith(sources, i) + if i in s then 1 else 0
  {
    assert (sources + [s])[..|sources|] == sources;
  }

  lemma {:induction false} KeptOrTaken(rows: seq<Message>, sources: seq<set<nat>>, m: Message, i: nat)
    requires |rows| == |sources| && RowsWith(sources, i) <= 1
    ensures RowsWith(Kept(rows, sources, m), i) + (if i in Taken(rows, sources, m) then 1 else 0)
            == RowsWith(sources, i)
  {
    if rows != [] {
      var n := |rows| - 1;
      KeptOrTaken(rows[..n], sources[..n], m, i);
      OneMoreRow(Kept(rows[..n], sources[..n], m), sources[n], i);
      assert Kept(rows[..n], sources[..n], m) + [] == Kept(rows[..n], sources[..n], m);
    }
  }

  lemma {:induction false} EachInOneRow(messages: seq<Message>, i: nat)
    ensures RowsWith(Sources(messages), i) == if i < |messages| then 1 else 0
  {
    if messages != [] {
      var n := |messages| - 1;
      EachInOneRow(messages[..n], i);
      OneMoreMessage(AbsorbAll(messages[..n]), Sources(messages[..n]), messages[n], n, i);
    }
  }

  lemma OneMoreMessage(rows: seq<Message>, before: seq<set<nat>>, m: Message, n: nat, i: nat)
    requires |rows| == |before| && RowsWith(before, i) == if i < n then 1 else 0
    ensures RowsWith(NextSources(rows, before, m, n), i) == if i < n + 1 then 1 else 0
  {
    if Known(rows, m) {
      KeptOrTaken(rows, before, m, i);
      OneMoreRow(Kept(rows, before, m), Taken(rows, before, m) + {n}, i);
    } else {
      OneMoreRow(before, {n}, i);
    }
  }

  lemma {:induction false} InSomeRow(sources: seq<set<nat>>, i: nat)
    ensures RowsWith(sources, i) == 0 <==> forall k :: 0 <= k < |sources| ==> i !in sources[k]
    ensures RowsWith(sources, i) == 1 ==>
              forall k, l :: 0 <= k < |sources| && 0 <= l < |sources| && i in sources[k] && i in sources[l] ==> k == l
  {
    if sources != [] {
      var n := |sources| - 1;
      InSomeRow(sources[..n], i);
      forall k | 0 <= k < n ensures sources[..n][k] == sources[k] {}
    }
  }

  // --- a row has the keys of its messages ---

  ghost predicate SetsKey(messages: seq<Message>, s: set<nat>, key: string) {
    exists i :: i in s && i < |messages| && key in messages[i].rest
  }

  ghost predicate SetsClientId(messages: seq<Message>, s: set<nat>) {
    exists i :: i in s && i < |messages| && messages[i].clientId.Some?
  }

  // Exactly the keys of the messages in s, and a client id exactly if one of them has one.
  ghost predicate Gathers(messages: seq<Message>, r: Message, s: set<nat>) {
    && (forall i :: i in s ==> i < |messages|)
    && (forall key :: key in r.rest <==> SetsKey(messages, s, key))
    && (r.clientId.Some? <==> SetsClientId(messages, s))
  }

  // Its id, its date and the values of its keys come from the last of them.
  ghost predicate LedByLast(messages: seq<Message>, r: Message, s: set<nat>) {
    exists i :: i in s && i < |messages| && ComesFrom(r, messages[i]) && forall j :: j in s ==> j <= i
  }

  lemma KeysOfUnion(messages: seq<Message>, a: set<nat>, b: set<nat>)
    ensures forall key :: SetsKey(messages, a + b, key) <==> SetsKey(messages, a, key) || SetsKey(messages, b, key)
    ensures SetsClientId(messages, a + b) <==> SetsClientId(messages, a) || SetsClientId(messages, b)
  {
    forall key ensures SetsKey(messages, a + b, key) <==> SetsKey(messages, a, key) || SetsKey(messages, b, key) {
      if SetsKey(messages, a, key) {
        var i :| i in a && i < |messages| && key in messages[i].rest;
        assert i in a + b;
      }
      if SetsKey(messages, b, key) {
        var i :| i in b && i < |messages| && key in messages[i].rest;
        assert i in a + b;
      }
    }
    if SetsClientId(messages, a) {
      var i :| i in a && i < |messages| && messages[i].clientId.Some?;
      assert i in a + b;
    }
    if SetsClientId(messages, b) {
      var i :| i in b && i < |messages| && messages[i].clientId.Some?;
      assert i in a + b;
    }
  }

  lemma KeysOfOne(messages: seq<Message>, i: nat)
    requires i < |messages|
    ensures Gathers(messages, messages[i], {i})
  {
    assert i in {i};
  }

  lemma GathersSpread(messages: seq<Message>, a: Message, s: set<nat>, b: Message, t: set<nat>)
    requires Gathers(messages, a, s) && Gathers(messages, b, t)
    ensures Gathers(messages, Spread(a, b), s + t)
  {
    KeysOfUnion(messages, s, t);
  }

  lemma {:induction false} MergedGathers(messages: seq<Message>, rows: seq<Message>, sources: seq<set<nat>>, m: Message,
                                         n: nat)
    requires |rows| == |sources| && Gathers(messages, m, {n})
    requires forall k :: 0 <= k < |rows| ==> Gathers(messages, rows[k], sources[k])
    ensures Gathers(messages, Merged(rows, m), Taken(rows, sources, m) + {n})
  {
    if rows == [] {
      assert Taken(rows, sources, m) + {n} == {n};
    } else {
      var last := |rows| - 1;
      MergedGathers(messages, rows[..last], sources[..last], m, n);
      var taken := Taken(rows[..last], sources[..last], m);
      if Same(rows[last], m) {
        GathersSpread(messages, Merged(rows[..last], m), taken + {n}, rows[last], sources[last]);
        assert taken + {n} + sources[last] == taken + sources[last] + {n};
      } else {
        assert taken + {} == taken;
      }
    }
  }

  ghost predicate RowHasSources(messages: seq<Message>, r: Message, s: set<nat>) {
    Gathers(messages, r, s) && LedByLast(messages, r, s)
  }

  lemma {:induction false} KeptHave(messages: seq<Message>, rows: seq<Message>, sources: seq<set<nat>>, m: Message)
    requires |rows| == |sources| && forall k :: 0 <= k < |rows| ==> RowHasSources(messages, rows[k], sources[k])
    ensures forall k :: 0 <= k < |Without(rows, m)| ==>
              RowHasSources(messages, Without(rows, m)[k], Kept(rows, sources, m)[k])
  {
    if rows != [] {
      KeptHave(messages, rows[..|rows| - 1], sources[..|rows| - 1], m);
    }
  }

  lemma MoreMessages(messages: seq<Message>, init: seq<Message>, r: Message, s: set<nat>)
    requires init <= messages && RowHasSources(init, r, s)
    ensures RowHasSources(messages, r, s)
  {
    forall key ensures SetsKey(init, s, key) <==> SetsKey(messages, s, key) {
      if SetsKey(init, s, key) {
        var i :| i in s && i < |init| && key in init[i].rest;
        assert i in s && key in messages[i].rest;
      }
    }
    if SetsClientId(init, s) {
      var i :| i in s && i < |init| && init[i].clientId.Some?;
      assert messages[i].clientId.Some?;
    }
    var i :| i in s && i < |init| && ComesFrom(r, init[i]) && forall j :: j in s ==> j <= i;
    assert ComesFrom(r, messages[i]);
  }

  lemma MergedRowHasSources(messages: seq<Message>, rows: seq<Message>, sources: seq<set<nat>>, n: nat)
    requires |rows| == |sources| && messages != [] && n == |messages| - 1
    requires forall k :: 0 <= k < |rows| ==> RowHasSources(messages, rows[k], sources[k])
    ensures RowHasSources(messages, Spread(Merged(rows, messages[n]), messages[n]),
                          Taken(rows, sources, messages[n]) + {n})
  {
    var m, s := messages[n], Taken(rows, sources, messages[n]) + {n};
    KeysOfOne(messages, n);
    MergedGathers(messages, rows, sources, m, n);
    GathersSpread(messages, Merged(rows, m), s, m, {n});
    assert s + {n} == s;
    assert n in s && ComesFrom(Spread(Merged(rows, m), m), messages[n]);
  }

  lemma NewRowHasSources(messages: seq<Message>, n: nat)
    requires messages != [] && n == |messages| - 1
    ensures RowHasSources(messages, messages[n], {n})
  {
    KeysOfOne(messages, n);
    assert n in {n} && ComesFrom(messages[n], messages[n]);
  }

  // Every row has exactly the keys of the messages it is made of, and is led by the last of them.
  lemma {:induction false} RowsGatherTheirMessages(messages: seq<Message>)
    ensures forall k :: 0 <= k < |AbsorbAll(messages)| ==>
              RowHasSources(messages, AbsorbAll(messages)[k], Sources(messages)[k])
  {
    if messages != [] {
      var n := |messages| - 1;
      var init, m := messages[..n], messages[n];
      var rows, before := AbsorbAll(init), Sources(init);
      RowsGatherTheirMessages(init);
      forall k | 0 <= k < |rows| ensures RowHasSources(messages, rows[k], before[k]) {
        MoreMessages(messages, init, rows[k], before[k]);
      }
      KeptHave(messages, rows, before, m);
      MergedRowHasSources(messages, rows, before, n);
      NewRowHasSources(messages, n);
    }
  }

  // Every message goes into exactly one row.
  lemma EveryMessageHasOneRow(messages: seq<Message>, i: nat)
    requires i < |messages|
    ensures exists k :: 0 <= k < |AbsorbAll(messages)| && i in Sources(messages)[k]
    ensures forall k, l :: 0 <= k < |Sources(messages)| && 0 <= l < |Sources(messages)|
                           && i in Sources(messages)[k] && i in Sources(messages)[l]
              ==> k == l
  {
    EachInOneRow(messages, i);
    InSomeRow(Sources(messages), i);
  }

  // Every key that a message had is a key of the one row it went into.
  lemma NoKeyIsLost(messages: seq<Message>, i: nat)
    requires i < |messages|
    ensures exists k :: 0 <= k < |AbsorbAll(messages)| && i in Sources(messages)[k]
              && Carries(AbsorbAll(messages)[k], messages[i])
  {
    EveryMessageHasOneRow(messages, i);
    RowsGatherTheirMessages(messages);
    var k :| 0 <= k < |AbsorbAll(messages)| && i in Sources(messages)[k];
    var r, s := AbsorbAll(messages)[k], Sources(messages)[k];
    forall key | key in messages[i].rest ensures key in r.rest {
      assert SetsKey(messages, s, key);
    }
    assert messages[i].clientId.Some? ==> SetsClientId(messages, s);
  }
}
