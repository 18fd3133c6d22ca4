/** One incremental sync: the loop over pages of a single worker that is not disturbed. */
module CrmSync {
  import opened Common
  import opened CrmStore

  class SyncStore {
    var state: Store

    constructor ()
      ensures state == EMPTY_STORE
    {
      state := EMPTY_STORE;
    }

    method LoadCursor() returns (cursor: Option<string>, watermark: Option<int>, version: nat)
      ensures cursor == state.cursor && watermark == state.watermark && version == state.version
    {
      return state.cursor, state.watermark, state.version;
    }

    // The transaction happens as a whole or not at all, and the refusal says why.
    method ApplyPage(page: Page, expectedVersion: nat) returns (r: Result<nat, Failure>)
      modifies this
      ensures r.Ok? <==> Acceptable(old(state), page, expectedVersion)
      ensures r.Ok? ==> Advanced(old(state), page, state) && r.value == state.version
      ensures r.Err? ==> state == old(state)
      ensures r == Err(VersionConflict) <==> old(state).version != expectedVersion
      ensures match Apply(old(state), page, expectedVersion)
              case Ok(s) => state == s && r == Ok(s.version)
              case Err(e) => state == old(state) && r == Err(e)
    {
      var applied := Apply(state, page, expectedVersion);
      PageApplied(state, page, expectedVersion);
      if applied.Err? { return Err(applied.error); }
      state := applied.value;
      return Ok(state.version);
    }
  }

  function RecordsIn(provider: Provider, s: Store, n: nat): nat {
    if n == 0 then 0
    else
      match Follow(provider, s, n - 1)
      case Err(_) => 0
      case Ok(t) => RecordsIn(provider, s, n - 1) + |provider(t.cursor, t.watermark).records|
  }

  // Pages 1 to n were accepted and every one of them announced another page.
  ghost predicate MoreAfter(provider: Provider, s: Store, n: nat) {
    forall j :: 0 < j <= n ==> Follow(provider, s, j).Ok? && Follow(provider, s, j).value.cursor.Some?
  }

  // The ways a sync can end, and what it has left in the store.
  ghost predicate EndsAt(provider: Provider, before: Store, maxPages: nat, k: nat, after: Store,
                         r: Result<nat, Failure>) {
    && Follow(provider, before, k) == Ok(after)
    && match r
       case Ok(processed) =>
         && 0 < k <= maxPages && MoreAfter(provider, before, k - 1) && after.cursor.None?
         && processed == RecordsIn(provider, before, k)
       case Err(PageLimit) => k == maxPages && MoreAfter(provider, before, k)
       case Err(e) => k < maxPages && MoreAfter(provider, before, k) && Follow(provider, before, k + 1) == Err(e)
  }

  // Asking for page k + 1 where page k left the store.
  lemma NextPage(provider: Provider, before: Store, k: nat, s: Store)
    requires Follow(provider, before, k) == Ok(s) && MoreAfter(provider, before, k)
    ensures var page := provider(s.cursor, s.watermark);
            var r := Apply(s, page, s.version);
            && Follow(provider, before, k + 1) == r && r != Err(PageLimit)
            && RecordsIn(provider, before, k + 1) == RecordsIn(provider, before, k) + |page.records|
            && (r.Ok? ==>
                  r.value.watermark == if page.highWatermark.Some? then page.highWatermark else s.watermark)
            && (r.Ok? && r.value.cursor.Some? ==> MoreAfter(provider, before, k + 1))
  {
    if Apply(s, provider(s.cursor, s.watermark), s.version).Ok? {
      LocalWatermarkAgrees(s, provider(s.cursor, s.watermark));
    }
  }

  lemma Stopped(provider: Provider, before: Store, maxPages: nat, k: nat, s: Store, e: Failure)
    requires k < maxPages && Follow(provider, before, k) == Ok(s) && MoreAfter(provider, before, k)
    requires Apply(s, provider(s.cursor, s.watermark), s.version) == Err(e)
    ensures EndsAt(provider, before, maxPages, k, s, Err(e))
  {
    NextPage(provider, before, k, s);
  }

  lemma Finished(provider: Provider, before: Store, maxPages: nat, k: nat, s: Store)
    requires 0 < k <= maxPages && Follow(provider, before, k) == Ok(s) && MoreAfter(provider, before, k - 1)
    requires s.cursor.None?
    ensures EndsAt(provider, before, maxPages, k, s, Ok(RecordsIn(provider, before, k)))
  {
  }

  // `pages` is how many pages were accepted.
  method SyncIncremental(store: SyncStore, provider: Provider, maxPages: nat)
    returns (r: Result<nat, Failure>, ghost pages: nat)
    modifies store
    ensures EndsAt(provider, old(store.state), maxPages, pages, store.state, r)
  {
    ghost var before := store.state;
    var cursor, watermark, version := store.LoadCursor();
    var processed := 0;
    for k := 0 to maxPages
      invariant Follow(provider, before, k) == Ok(store.state) && MoreAfter(provider, before, k)
      invariant cursor == store.state.cursor && watermark == store.state.watermark && version == store.state.version
      invariant processed == RecordsIn(provider, before, k)
    {
      NextPage(provider, before, k, store.state);
      var page := provider(cursor, watermark);
      var applied := store.ApplyPage(page, version);
      if applied.Err? {
        Stopped(provider, before, maxPages, k, store.state, applied.error);
        return Err(applied.error), k;
      }
      version := applied.value;
      processed := processed + |page.records|;
      cursor, watermark := page.nextCursor, if page.highWatermark.Some? then page.highWatermark else watermark;
      if cursor.None? {
        Finished(provider, before, maxPages, k + 1, store.state);
        return Ok(processed), k + 1;
      }
    }
    return Err(PageLimit), maxPages;
  }

  // Where a sync ended, no later page can have been accepted by it.
  lemma NothingAfterTheEnd(provider: Provider, before: Store, maxPages: nat, k: nat, a: Store, r: Result<nat, Failure>,
                           l: nat)
    requires EndsAt(provider, before, maxPages, k, a, r) && k < l <= maxPages
    ensures !MoreAfter(provider, before, l - 1) || Follow(provider, before, l).Err?
  {
    if r.Err? {
      FollowStaysFailed(provider, before, k + 1, l);
    } else {
      assert Follow(provider, before, k).value.cursor.None?;
    }
  }

  // The outcome is determined: the same store and provider cannot end in two ways.
  lemma EndIsUnique(provider: Provider, before: Store, maxPages: nat, k: nat, a: Store, r: Result<nat, Failure>,
                    l: nat, b: Store, q: Result<nat, Failure>)
    requires EndsAt(provider, before, maxPages, k, a, r) && EndsAt(provider, before, maxPages, l, b, q)
    ensures k == l && a == b && r == q
  {
    if k < l {
      NothingAfterTheEnd(provider, before, maxPages, k, a, r, l);
    } else if l < k {
      NothingAfterTheEnd(provider, before, maxPages, l, b, q, k);
    }
  }
}
