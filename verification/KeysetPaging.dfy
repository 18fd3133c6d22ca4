/** Keyset pagination over a table that changes between one page and the next. */
module KeysetPaging {
  import opened Common

  // The sort key of a row; PostgreSQL compares (created_at, id) lexicographically.
  datatype Key = Key(createdAt: int, id: int)

  predicate Less(a: Key, b: Key) {
    a.createdAt < b.createdAt || (a.createdAt == b.createdAt && a.id < b.id)
  }

  // Newest first, and of rows with the same time the one with the greater id first.
  predicate Descending(rows: seq<Key>) {
    forall i, j :: 0 <= i < j < |rows| ==>
      || rows[i].createdAt > rows[j].createdAt
      || (rows[i].createdAt == rows[j].createdAt && rows[i].id > rows[j].id)
  }

  function Selected(table: set<Key>, after: Option<Key>): set<Key> {
    if after.None? then table else set k | k in table && Less(k, after.value)
  }

  ghost predicate IsTop(rows: set<Key>, k: Key) {
    k in rows && forall x :: x in rows && x != k ==> Less(x, k)
  }

  lemma {:induction false} TopExists(rows: set<Key>) returns (top: Key)
    requires rows != {}
    ensures IsTop(rows, top)
  {
    var k :| k in rows;
    if rows == {k} {
      top := k;
    } else {
      top := TopExists(rows - {k});
      assert rows == (rows - {k}) + {k};
      if Less(top, k) { top := k; }
    }
  }

  ghost function Top(rows: set<Key>): (k: Key)
    requires rows != {}
    ensures IsTop(rows, k)
  {
    assert exists k :: IsTop(rows, k) by { var k := TopExists(rows); }
    var k :| IsTop(rows, k);
    k
  }

  // ... where (created_at, id) < after order by created_at desc, id desc limit n
  ghost function Query(table: set<Key>, after: Option<Key>, n: nat): seq<Key>
    decreases n
  {
    var rows := Selected(table, after);
    if n == 0 || rows == {} then []
    else [Top(rows)] + Query(table, Some(Top(rows)), n - 1)
  }

  datatype Page = Page(items: seq<Key>, next: Option<Key>)

  // One row more than the limit is asked for; its presence says that there is another page.
  ghost function FetchPage(table: set<Key>, after: Option<Key>, limit: nat): Page
    requires limit >= 1
  {
    var rows := Query(table, after, limit + 1);
    if |rows| > limit then Page(rows[..limit], Some(rows[limit - 1])) else Page(rows, None)
  }

  // A query returns the n greatest of the selected rows, in order.
  lemma {:induction false} QueryIsTopRows(table: set<Key>, after: Option<Key>, n: nat)
    ensures var rows, all := Query(table, after, n), Selected(table, after);
            && Descending(rows)
            && (forall x :: x in rows ==> x in all)
            && (forall x :: x in all && x !in rows ==> |rows| == n && forall y :: y in rows ==> Less(x, y))
            && |rows| <= n
    decreases n
  {
    var all := Selected(table, after);
    if n > 0 && all != {} {
      var top := Top(all);
      QueryIsTopRows(table, Some(top), n - 1);
      var rest := Query(table, Some(top), n - 1);
      assert forall x :: x in Selected(table, Some(top)) ==> x in all && Less(x, top);
      assert forall x :: x in all && x != top ==> x in Selected(table, Some(top));
      assert Query(table, after, n) == [top] + rest;
      DescendingAppend([top], rest);
    }
  }

  // What a reader has after asking for one page at each of the given states of the table.
  datatype Reader = Reader(items: seq<Key>, next: Option<Key>, done: bool)

  ghost function Read(tables: seq<set<Key>>, limit: nat): Reader
    requires limit >= 1
  {
    if tables == [] then Reader([], None, false)
    else
      var before := Read(tables[..|tables| - 1], limit);
      if before.done then before
      else
        var page := FetchPage(tables[|tables| - 1], before.next, limit);
        Reader(before.items + page.items, page.next, page.next.None?)
  }

  ghost predicate Throughout(tables: seq<set<Key>>, x: Key) {
    forall t :: t in tables ==> x in t
  }

  function Ever(tables: seq<set<Key>>): set<Key> {
    set t, x | t in tables && x in t :: x
  }

  // The rows read so far are those above the cursor, and all that stayed in the table are among them.
  ghost predicate UpToCursor(tables: seq<set<Key>>, limit: nat, r: Reader) {
    && Descending(r.items)
    && (forall x :: x in r.items ==> x in Ever(tables))
    && (r.next.Some? ==> r.items != [] && r.items[|r.items| - 1] == r.next.value && !r.done)
    && (r.next.None? && !r.done ==> r.items == [])
    && (forall x :: Throughout(tables, x) && tables != [] ==> x in r.items || (r.next.Some? && Less(x, r.next.value)))
    && (!r.done ==> |r.items| == |tables| * limit)
    && (tables != [] && !r.done ==> r.next.Some? && exists x :: x in Ever(tables) && Less(x, r.next.value))
  }

  lemma EverGrows(tables: seq<set<Key>>, t: set<Key>)
    ensures Ever(tables + [t]) == Ever(tables) + t
  {
    assert forall x :: x in t ==> t in tables + [t] && x in Ever(tables + [t]);
    forall x | x in Ever(tables) ensures x in Ever(tables + [t]) {
      var u :| u in tables && x in u;
      assert u in tables + [t];
    }
  }

  lemma DescendingAppend(a: seq<Key>, b: seq<Key>)
    requires Descending(a) && Descending(b)
    requires a != [] ==> forall y :: y in b ==> Less(y, a[|a| - 1])
    ensures Descending(a + b)
  {
    var c := a + b;
    forall i, j | 0 <= i < j < |c| ensures Less(c[j], c[i]) {
      if i < |a| <= j {
        assert c[j] in b && Less(c[j], a[|a| - 1]);
      }
    }
  }

  ghost predicate PageCovers(page: Page, all: set<Key>, limit: nat) {
    && Descending(page.items) && (forall x :: x in page.items ==> x in all)
    && (page.next.None? ==> forall x :: x in all ==> x in page.items)
    && (page.next.Some? ==>
          && |page.items| == limit >= 1 && page.items[limit - 1] == page.next.value
          && (forall x :: x in all && x !in page.items ==> Less(x, page.next.value))
          && exists x :: x in all && Less(x, page.next.value))
  }

  lemma CutCovers(rows: seq<Key>, all: set<Key>, limit: nat)
    requires |rows| == limit + 1 && limit >= 1 && Descending(rows) && forall x :: x in rows ==> x in all
    requires forall x :: x in all && x !in rows ==> forall y :: y in rows ==> Less(x, y)
    ensures PageCovers(Page(rows[..limit], Some(rows[limit - 1])), all, limit)
  {
    assert rows[limit] in rows && rows[limit - 1] in rows && Less(rows[limit], rows[limit - 1]);
    forall x | x in all && x !in rows[..limit] ensures Less(x, rows[limit - 1]) {
      if x in rows { assert x == rows[limit]; }
    }
  }

  // What the page leaves behind it in the table.
  lemma PageIsTop(t: set<Key>, after: Option<Key>, limit: nat)
    requires limit >= 1
    ensures PageCovers(FetchPage(t, after, limit), Selected(t, after), limit)
  {
    var rows := Query(t, after, limit + 1);
    QueryIsTopRows(t, after, limit + 1);
    if |rows| > limit { CutCovers(rows, Selected(t, after), limit); }
  }

  lemma StillThroughout(tables: seq<set<Key>>, t: set<Key>, x: Key)
    requires Throughout(tables + [t], x)
    ensures Throughout(tables, x) && x in t
  {
    assert t in tables + [t] && forall u :: u in tables ==> u in tables + [t];
  }

  // Rows that were there all along are read by the page or lie below its cursor.
  lemma PageMissesNothing(tables: seq<set<Key>>, t: set<Key>, limit: nat, r: Reader, x: Key)
    requires limit >= 1 && UpToCursor(tables, limit, r) && !r.done && (tables == [] ==> r.next.None?)
    requires Throughout(tables + [t], x)
    ensures var page := FetchPage(t, r.next, limit);
            x in r.items || x in page.items || (page.next.Some? && Less(x, page.next.value))
  {
    StillThroughout(tables, t, x);
    PageIsTop(t, r.next, limit);
  }

  lemma PageExtends(tables: seq<set<Key>>, t: set<Key>, limit: nat, r: Reader)
    requires limit >= 1 && UpToCursor(tables, limit, r) && !r.done
    requires tables == [] ==> r.next.None?
    ensures var page := FetchPage(t, r.next, limit);
            UpToCursor(tables + [t], limit, Reader(r.items + page.items, page.next, page.next.None?))
  {
    var page := FetchPage(t, r.next, limit);
    PageIsTop(t, r.next, limit);
    EverGrows(tables, t);
    DescendingAppend(r.items, page.items);
    forall x | Throughout(tables + [t], x)
      ensures x in r.items + page.items || (page.next.Some? && Less(x, page.next.value)) {
      PageMissesNothing(tables, t, limit, r, x);
    }
    OneMorePage(|tables|, limit);
  }

  lemma OneMorePage(n: int, limit: int)
    ensures (n + 1) * limit == n * limit + limit
  {
  }

  // Whatever is inserted or deleted between the pages: no row is read twice, the order is descending,
  // and once the cursor runs out every row that was there all along has been read.
  lemma {:induction false} ReadIsUpToCursor(tables: seq<set<Key>>, limit: nat)
    requires limit >= 1
    ensures UpToCursor(tables, limit, Read(tables, limit))
  {
    if tables != [] {
      var init, t := tables[..|tables| - 1], tables[|tables| - 1];
      assert tables == init + [t];
      ReadIsUpToCursor(init, limit);
      if Read(init, limit).done {
        EverGrows(init, t);
        assert forall u :: u in init ==> u in tables;
      } else {
        PageExtends(init, t, limit, Read(init, limit));
      }
    }
  }

  lemma {:induction false} DistinctFitIn(items: seq<Key>, rows: set<Key>)
    requires Descending(items) && forall x :: x in items ==> x in rows
    ensures |items| <= |rows|
  {
    if items != [] {
      var last := items[|items| - 1];
      DistinctFitIn(items[..|items| - 1], rows - {last});
    }
  }

  // The chain of cursors ends: with limit L, after more than n / L pages, n rows having ever been there.
  lemma ChainTerminates(tables: seq<set<Key>>, limit: nat)
    requires limit >= 1 && tables != [] && |Ever(tables)| <= |tables| * limit
    ensures Read(tables, limit).done
  {
    var r := Read(tables, limit);
    ReadIsUpToCursor(tables, limit);
    if !r.done {
      var x :| x in Ever(tables) && Less(x, r.next.value);
      DistinctFitIn(r.items + [x], Ever(tables));
    }
  }

  lemma {:induction false} SameDescending(a: seq<Key>, b: seq<Key>)
    requires Descending(a) && Descending(b) && forall x :: x in a <==> x in b
    ensures a == b
  {
    assert a != [] ==> a[0] in b;
    assert b != [] ==> b[0] in a;
    if a != [] && b != [] {
      assert a[0] == b[0];
      forall x ensures x in a[1..] <==> x in b[1..] {
        if x in a[1..] { assert x in b && x != b[0]; }
        if x in b[1..] { assert x in a && x != a[0]; }
      }
      SameDescending(a[1..], b[1..]);
    }
  }

  // On a table that does not change the pages together are the unpaginated query.
  lemma FixedTable(table: set<Key>, limit: nat, pages: nat)
    requires limit >= 1 && pages >= 1 && |table| <= pages * limit
    ensures Read(seq(pages, _ => table), limit).done
    ensures Read(seq(pages, _ => table), limit).items == Query(table, None, |table|)
  {
    var tables := seq(pages, _ => table);
    assert tables[0] == table;
    assert Ever(tables) == table;
    ChainTerminates(tables, limit);
    ReadIsUpToCursor(tables, limit);
    var items, all := Read(tables, limit).items, Query(table, None, |table|);
    QueryIsTopRows(table, None, |table|);
    forall x ensures x in items <==> x in all {
      if x in table {
        assert Throughout(tables, x);
        if x !in all {
          DescendingAppend(all, [x]);
          DistinctFitIn(all + [x], table);
        }
      }
    }
    SameDescending(items, all);
  }
}
