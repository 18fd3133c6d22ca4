/** Any number of sync workers sharing one store, interleaved step by step, each of which may
    crash between any two steps or lose the reply of a committed page. */
module CrmWorkers {
  import opened Common
  import opened CrmStore

  const MAX_PAGES: nat := 100

  datatype Local = Local(cursor: Option<string>, watermark: Option<int>, version: nat, pagesLeft: nat, processed: nat)
  datatype Phase = Idle | Ready(local: Local) | Holding(local: Local, page: Page) | Finished(processed: nat)
      | Failed(error: Failure)

  // A committed page, with the position its worker had fetched it from.
  datatype Applied = Applied(page: Page, cursor: Option<string>, watermark: Option<int>)
  datatype System = System(store: Store, workers: map<nat, Phase>, log: seq<Applied>)

  datatype Event = Load(w: nat) | Fetch(w: nat, page: Page) | Commit(w: nat) | CommitLosingReply(w: nat) | Crash(w: nat)

  const START := System(EMPTY_STORE, map[], [])

  function PhaseOf(s: System, w: nat): Phase {
    if w in s.workers then s.workers[w] else Idle
  }

  // The local variables after a page has been accepted.
  function Advance(l: Local, page: Page, version: nat): Phase {
    var watermark := if page.highWatermark.Some? then page.highWatermark else l.watermark;
    var processed := l.processed + |page.records|;
    if page.nextCursor.None? then Finished(processed)
    else if l.pagesLeft <= 1 then Failed(PageLimit)
    else Ready(Local(page.nextCursor, watermark, version, l.pagesLeft - 1, processed))
  }

  function CommitStep(s: System, w: nat): System {
    match PhaseOf(s, w)
    case Holding(l, page) =>
      (match Apply(s.store, page, l.version)
       case Err(e) => s.(workers := s.workers[w := Failed(e)])
       case Ok(store) => System(store, s.workers[w := Advance(l, page, store.version)],
                          s.log + [Applied(page, l.cursor, l.watermark)]))
    case _ => s
  }

  // A step that its worker is not ready for changes nothing.
  function Step(s: System, e: Event): System {
    match e
    case Load(w) =>
      if PhaseOf(s, w).Ready? || PhaseOf(s, w).Holding? then s
      else s.(workers := s.workers[w := Ready(Local(s.store.cursor, s.store.watermark, s.store.version, MAX_PAGES, 0))])
    case Fetch(w, page) =>
      if PhaseOf(s, w).Ready? then s.(workers := s.workers[w := Holding(PhaseOf(s, w).local, page)]) else s
    case Commit(w) => CommitStep(s, w)
    case CommitLosingReply(w) => CommitStep(s, w).(workers := s.workers[w := Idle])
    case Crash(w) => s.(workers := s.workers[w := Idle])
  }

  function Run(s: System, events: seq<Event>): System {
    if events == [] then s else Step(Run(s, events[..|events| - 1]), events[|events| - 1])
  }

  function Pages(log: seq<Applied>): seq<Page> {
    seq(|log|, i requires 0 <= i < |log| => log[i].page)
  }

  // Page i was fetched from exactly where the first i pages had left the store.
  ghost predicate Contiguous(log: seq<Applied>) {
    forall i :: 0 <= i < |log| ==>
      && Replay(Pages(log)[..i]).Ok?
      && log[i].cursor == Replay(Pages(log)[..i]).value.cursor
      && log[i].watermark == Replay(Pages(log)[..i]).value.watermark
  }

  // A worker whose version is current also has the current cursor and watermark.
  ghost predicate InStep(store: Store, p: Phase) {
    p.Ready? || p.Holding? ==>
      && p.local.version <= store.version
      && (p.local.version == store.version ==> p.local.cursor == store.cursor && p.local.watermark == store.watermark)
  }

  ghost predicate Inv(s: System) {
    && |s.log| == s.store.version
    && Replay(Pages(s.log)) == Ok(s.store)
    && Contiguous(s.log)
    && forall w :: w in s.workers ==> InStep(s.store, s.workers[w])
  }

  lemma LogExtends(log: seq<Applied>, a: Applied, s: Store)
    requires Contiguous(log) && Replay(Pages(log)) == Ok(s) && a.cursor == s.cursor && a.watermark == s.watermark
    ensures Contiguous(log + [a]) && Replay(Pages(log + [a])) == Apply(s, a.page, s.version)
  {
    var pages, pages' := Pages(log), Pages(log + [a]);
    assert pages' == pages + [a.page];
    assert pages'[..|pages|] == pages;
    forall i | 0 <= i < |log| ensures pages'[..i] == pages[..i] {}
  }

  // After a commit every worker is still in step: the one that committed, and those that are now behind.
  lemma CommitKeepsInStep(s: System, w: nat)
    requires Inv(s)
    ensures var t := CommitStep(s, w); forall v :: v in t.workers ==> InStep(t.store, t.workers[v])
  {
    var p := PhaseOf(s, w);
    if p.Holding? && Apply(s.store, p.page, p.local.version).Ok? {
      LocalWatermarkAgrees(s.store, p.page);
    }
  }

  lemma CommitKeepsInv(s: System, w: nat)
    requires Inv(s)
    ensures Inv(CommitStep(s, w))
  {
    var p := PhaseOf(s, w);
    CommitKeepsInStep(s, w);
    if p.Holding? && Apply(s.store, p.page, p.local.version).Ok? {
      LogExtends(s.log, Applied(p.page, p.local.cursor, p.local.watermark), s.store);
    }
  }

  lemma StepKeepsInv(s: System, e: Event)
    requires Inv(s)
    ensures Inv(Step(s, e))
  {
    match e
    case Commit(w) => CommitKeepsInv(s, w);
    case CommitLosingReply(w) => CommitKeepsInv(s, w);
    case _ =>
  }

  lemma {:induction false} RunKeepsInv(events: seq<Event>)
    ensures Inv(Run(START, events))
  {
    if events == [] {
      assert Pages([]) == [];
    } else {
      RunKeepsInv(events[..|events| - 1]);
      StepKeepsInv(Run(START, events[..|events| - 1]), events[|events| - 1]);
    }
  }

  // What one worker does when nobody interferes: load, then fetch and commit each page in turn.
  function Solo(pages: seq<Page>): seq<Event> {
    if pages == [] then []
    else Solo(pages[..|pages| - 1]) + [Load(0), Fetch(0, pages[|pages| - 1]), Commit(0)]
  }

  lemma RunThree(s: System, events: seq<Event>, a: Event, b: Event, c: Event)
    ensures Run(s, events + [a, b, c]) == Step(Step(Step(Run(s, events), a), b), c)
  {
    var e1, e2, e3 := events + [a], events + [a, b], events + [a, b, c];
    assert e1[..|e1| - 1] == events && e2[..|e2| - 1] == e1 && e3[..|e3| - 1] == e2;
    assert Run(s, e2) == Step(Run(s, e1), b);
  }

  // Nothing is outstanding and the worker, if it is still looping, is up to date.
  predicate Quiet(s: System) {
    !PhaseOf(s, 0).Holding? && (PhaseOf(s, 0).Ready? ==> PhaseOf(s, 0).local.version == s.store.version)
  }

  lemma SoloPage(s: System, page: Page)
    requires Quiet(s) && Apply(s.store, page, s.store.version).Ok?
    ensures var s' := Step(Step(Step(s, Load(0)), Fetch(0, page)), Commit(0));
            s'.store == Apply(s.store, page, s.store.version).value && Quiet(s')
  {
  }

  lemma {:induction false} SoloReplays(pages: seq<Page>)
    requires Replay(pages).Ok?
    ensures Run(START, Solo(pages)).store == Replay(pages).value && Quiet(Run(START, Solo(pages)))
  {
    if pages != [] {
      var init, page := pages[..|pages| - 1], pages[|pages| - 1];
      SoloReplays(init);
      RunThree(START, Solo(init), Load(0), Fetch(0, page), Commit(0));
      SoloPage(Run(START, Solo(init)), page);
    }
  }

  // However the workers interleave and crash, the store is the one a single undisturbed worker leaves
  // after the same pages, and those pages follow one another without a gap or an overlap.
  lemma AnyRunIsASoloRun(events: seq<Event>)
    ensures var s := Run(START, events);
            && s.store == Run(START, Solo(Pages(s.log))).store
            && s.store.version == |s.log|
            && Contiguous(s.log)
  {
    RunKeepsInv(events);
    SoloReplays(Pages(Run(START, events).log));
  }

  // A worker that lost the race changes neither the store nor the log, and its sync fails.
  lemma StaleWorkerChangesNothing(s: System, w: nat)
    requires PhaseOf(s, w).Holding? && PhaseOf(s, w).local.version != s.store.version
    ensures Step(s, Commit(w)) == s.(workers := s.workers[w := Failed(VersionConflict)])
  {
  }

  // After a page is accepted the worker's variables are the stored ones.
  lemma LocalIsStored(events: seq<Event>, w: nat)
    ensures var s := Run(START, events); var s' := Step(s, Commit(w));
            s'.store != s.store && PhaseOf(s', w).Ready? ==>
              var l := PhaseOf(s', w).local;
              (l.cursor, l.watermark, l.version) == (s'.store.cursor, s'.store.watermark, s'.store.version)
  {
    var s := Run(START, events);
    RunKeepsInv(events);
    var p := PhaseOf(s, w);
    if p.Holding? && Apply(s.store, p.page, p.local.version).Ok? {
      LocalWatermarkAgrees(s.store, p.page);
    }
  }

  // --- a provider whose answer depends only on the position it is asked for ---

  ghost predicate Answers(provider: Provider, s: System, e: Event) {
    e.Fetch? && PhaseOf(s, e.w).Ready? ==>
      e.page == provider(PhaseOf(s, e.w).local.cursor, PhaseOf(s, e.w).local.watermark)
  }

  ghost predicate AllAnswers(provider: Provider, events: seq<Event>) {
    forall i :: 0 <= i < |events| ==> Answers(provider, Run(START, events[..i]), events[i])
  }

  ghost predicate FromProvider(provider: Provider, s: System) {
    && (forall i :: 0 <= i < |s.log| ==> s.log[i].page == provider(s.log[i].cursor, s.log[i].watermark))
    && (forall w :: w in s.workers && s.workers[w].Holding? ==>
          s.workers[w].page == provider(s.workers[w].local.cursor, s.workers[w].local.watermark))
  }

  lemma {:induction false} RunIsFromProvider(provider: Provider, events: seq<Event>)
    requires AllAnswers(provider, events)
    ensures FromProvider(provider, Run(START, events))
  {
    if events != [] {
      var init := events[..|events| - 1];
      forall i | 0 <= i < |init| ensures Answers(provider, Run(START, init[..i]), init[i]) {
        assert init[..i] == events[..i];
        assert Answers(provider, Run(START, events[..i]), events[i]);
      }
      RunIsFromProvider(provider, init);
      assert Answers(provider, Run(START, events[..|events| - 1]), events[|events| - 1]);
    }
  }

  lemma {:induction false} LogIsCanonical(provider: Provider, s: System, n: nat)
    requires Inv(s) && FromProvider(provider, s) && n <= |s.log|
    ensures Replay(Pages(s.log)[..n]) == Follow(provider, EMPTY_STORE, n)
  {
    if n > 0 {
      LogIsCanonical(provider, s, n - 1);
      assert Pages(s.log)[..n][..n - 1] == Pages(s.log)[..n - 1];
    }
  }

  // The stored version alone determines the mirror, the cursor and the watermark.
  lemma VersionDeterminesStore(provider: Provider, events: seq<Event>)
    requires AllAnswers(provider, events)
    ensures var store := Run(START, events).store; Follow(provider, EMPTY_STORE, store.version) == Ok(store)
  {
    var s := Run(START, events);
    RunKeepsInv(events);
    RunIsFromProvider(provider, events);
    LogIsCanonical(provider, s, |s.log|);
    assert Pages(s.log)[..|s.log|] == Pages(s.log);
  }
}
