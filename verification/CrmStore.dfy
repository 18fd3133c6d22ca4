/** The CRM mirror: one row per external entity, upserted page by page under a version check. */
module CrmStore {
  import opened Common

  datatype Record = Record(entityType: string, externalId: string, updatedAt: int, fields: string)
  datatype Page = Page(records: seq<Record>, nextCursor: Option<string>, highWatermark: Option<int>)
  datatype Key = Key(entityType: string, externalId: string)
  datatype Link = Link(fields: string, updatedAt: int)
  datatype Store = Store(mirror: map<Key, Link>, cursor: Option<string>, watermark: Option<int>, version: nat)
  datatype Failure = VersionConflict | OlderThanWatermark | InvalidRecord | PageLimit

  const EMPTY_STORE := Store(map[], None, None, 0)

  function KeyOf(r: Record): Key {
    Key(r.entityType, r.externalId)
  }

  // A known row is rewritten only by a record with other fields that is not older than the row.
  function Upsert(mirror: map<Key, Link>, r: Record): map<Key, Link> {
    var k := KeyOf(r);
    if k !in mirror then mirror[k := Link(r.fields, r.updatedAt)]
    else if mirror[k].fields != r.fields && mirror[k].updatedAt <= r.updatedAt then
      mirror[k := Link(r.fields, r.updatedAt)]
    else mirror
  }

  function UpsertAll(mirror: map<Key, Link>, records: seq<Record>): map<Key, Link> {
    if records == [] then mirror
    else Upsert(UpsertAll(mirror, records[..|records| - 1]), records[|records| - 1])
  }

  predicate ValidRecord(r: Record) {
    r.entityType in {"account", "contact", "lead", "opportunity"} && r.externalId != ""
  }

  // PostgreSQL's greatest() ignores nulls.
  function Greatest(a: Option<int>, b: Option<int>): Option<int> {
    if a.None? then b else if b.None? then a else if a.value < b.value then b else a
  }

  predicate Older(page: Page, watermark: Option<int>) {
    page.highWatermark.Some? && watermark.Some? && page.highWatermark.value < watermark.value
  }

  // The whole transaction: all of it happens, or none.
  function Apply(s: Store, page: Page, expectedVersion: nat): Result<Store, Failure> {
    if s.version != expectedVersion then Err(VersionConflict)
    else if Older(page, s.watermark) then Err(OlderThanWatermark)
    else if exists r :: r in page.records && !ValidRecord(r) then Err(InvalidRecord)
    else
      Ok(Store(UpsertAll(s.mirror, page.records), page.nextCursor, Greatest(s.watermark, page.highWatermark),
               s.version + 1))
  }

  ghost predicate Concerns(records: seq<Record>, k: Key) {
    exists i :: 0 <= i < |records| && KeyOf(records[i]) == k
  }

  ghost predicate IsLastOf(records: seq<Record>, i: int) {
    0 <= i < |records| && forall j :: i < j < |records| ==> KeyOf(records[j]) != KeyOf(records[i])
  }

  // A row is untouched or is one of the page's records, and never goes back in time.
  ghost predicate FromPage(before: map<Key, Link>, records: seq<Record>, k: Key, row: Link) {
    || (k in before && row == before[k])
    || (&& (exists i :: 0 <= i < |records| && KeyOf(records[i]) == k
                       && row == Link(records[i].fields, records[i].updatedAt))
        && (k in before ==> before[k].updatedAt <= row.updatedAt))
  }

  // What a page does to the mirror: no row is lost, only the page's entities have new ones, and the last
  // record of an entity has its contents there unless the row is newer than the record.
  ghost predicate Merged(before: map<Key, Link>, records: seq<Record>, after: map<Key, Link>) {
    && (forall k :: k in after <==> k in before || Concerns(records, k))
    && (forall k :: k in after ==> FromPage(before, records, k, after[k]))
    && (forall i :: IsLastOf(records, i) ==>
          var k := KeyOf(records[i]);
          k in after && (after[k].fields == records[i].fields || after[k].updatedAt > records[i].updatedAt))
  }

  lemma MergeOne(before: map<Key, Link>, init: seq<Record>, mirror: map<Key, Link>, r: Record, records: seq<Record>)
    requires Merged(before, init, mirror) && records == init + [r]
    ensures Merged(before, records, Upsert(mirror, r))
  {
    var after, n := Upsert(mirror, r), |init|;
    assert records[n] == r;
    forall k ensures Concerns(records, k) <==> Concerns(init, k) || KeyOf(r) == k {
      if Concerns(init, k) {
        var i :| 0 <= i < |init| && KeyOf(init[i]) == k;
        assert records[i] == init[i];
      }
    }
    forall k | k in after ensures FromPage(before, records, k, after[k]) {
      if k in mirror && after[k] == mirror[k] {
        assert FromPage(before, init, k, mirror[k]);
        if !(k in before && mirror[k] == before[k]) {
          var i :| 0 <= i < |init| && KeyOf(init[i]) == k && mirror[k] == Link(init[i].fields, init[i].updatedAt);
          assert records[i] == init[i];
        }
      }
    }
    forall i | IsLastOf(records, i)
      ensures var k := KeyOf(records[i]);
              k in after && (after[k].fields == records[i].fields || after[k].updatedAt > records[i].updatedAt)
    {
      if i < n {
        assert forall j :: 0 <= j < n ==> records[j] == init[j];
        assert IsLastOf(init, i) && KeyOf(records[n]) != KeyOf(records[i]);
      }
    }
  }

  lemma {:induction false} UpsertAllMerges(mirror: map<Key, Link>, records: seq<Record>)
    ensures Merged(mirror, records, UpsertAll(mirror, records))
  {
    if records != [] {
      var init, r := records[..|records| - 1], records[|records| - 1];
      UpsertAllMerges(mirror, init);
      MergeOne(mirror, init, UpsertAll(mirror, init), r, records);
    }
  }

  predicate Acceptable(s: Store, page: Page, expectedVersion: nat) {
    && s.version == expectedVersion
    && (page.highWatermark.Some? && s.watermark.Some? ==> page.highWatermark.value >= s.watermark.value)
    && forall r :: r in page.records ==> ValidRecord(r)
  }

  // The store after an accepted page: the next version, the position the page names, a watermark that
  // has not gone back, and a mirror with the page merged in.
  ghost predicate Advanced(before: Store, page: Page, after: Store) {
    && after.version == before.version + 1 && after.cursor == page.nextCursor
    && after.watermark == (if page.highWatermark.Some? then page.highWatermark else before.watermark)
    && (before.watermark.Some? ==> after.watermark.Some? && before.watermark.value <= after.watermark.value)
    && Merged(before.mirror, page.records, after.mirror)
  }

  // All of the page or none of it.
  lemma PageApplied(s: Store, page: Page, expectedVersion: nat)
    ensures var r := Apply(s, page, expectedVersion);
            && (r.Ok? <==> Acceptable(s, page, expectedVersion))
            && (r.Ok? ==> Advanced(s, page, r.value))
            && (r == Err(VersionConflict) <==> s.version != expectedVersion)
            && (r == Err(OlderThanWatermark) <==>
                  && s.version == expectedVersion && page.highWatermark.Some? && s.watermark.Some?
                  && page.highWatermark.value < s.watermark.value)
            && (r == Err(InvalidRecord) ==> exists x :: x in page.records && !ValidRecord(x))
  {
    UpsertAllMerges(s.mirror, page.records);
  }

  // Applying one page after another, each against the version the previous one left.
  function Replay(pages: seq<Page>): Result<Store, Failure> {
    if pages == [] then Ok(EMPTY_STORE)
    else
      match Replay(pages[..|pages| - 1])
      case Err(e) => Err(e)
      case Ok(s) => Apply(s, pages[|pages| - 1], s.version)
  }

  // The watermark the worker keeps is the one the store keeps.
  lemma LocalWatermarkAgrees(s: Store, page: Page)
    requires Apply(s, page, s.version).Ok?
    ensures Apply(s, page, s.version).value.watermark ==
            if page.highWatermark.Some? then page.highWatermark else s.watermark
  {
  }

  // A provider whose answer depends only on the position it is asked for.
  type Provider = (Option<string>, Option<int>) -> Page

  // The store after n pages, each asked for at the position the previous one left.
  function Follow(provider: Provider, s: Store, n: nat): Result<Store, Failure> {
    if n == 0 then Ok(s)
    else
      match Follow(provider, s, n - 1)
      case Err(e) => Err(e)
      case Ok(t) => Apply(t, provider(t.cursor, t.watermark), t.version)
  }

  lemma {:induction false} FollowStaysFailed(provider: Provider, s: Store, m: nat, n: nat)
    requires m <= n && Follow(provider, s, m).Err?
    ensures Follow(provider, s, n) == Follow(provider, s, m)
  {
    if m < n { FollowStaysFailed(provider, s, m, n - 1); }
  }
}
