/** What each of the interleaved syncs has done: its pages are one block of the log, counted in full. */
module CrmBlocks {
  import opened CrmStore
  import opened CrmWorkers

  function RecordsOf(log: seq<Applied>): nat {
    if log == [] then 0 else RecordsOf(log[..|log| - 1]) + |log[|log| - 1].page.records|
  }

  ghost predicate AllAnnounceMore(log: seq<Applied>) {
    forall i :: 0 <= i < |log| ==> log[i].page.nextCursor.Some?
  }

  // The block from a up to b is a finished sync: its last page, and no other, announces none.
  ghost predicate IsSync(log: seq<Applied>, a: int, b: int, processed: nat) {
    && 0 <= a < b <= |log| && b - a <= MAX_PAGES && AllAnnounceMore(log[a..b - 1])
    && log[b - 1].page.nextCursor.None? && processed == RecordsOf(log[a..b])
  }

  ghost predicate IsLimit(log: seq<Applied>, a: int) {
    0 <= a && a + MAX_PAGES <= |log| && AllAnnounceMore(log[a..a + MAX_PAGES])
  }

  // What a worker in the middle of its sync has committed: as many pages as it has used up, ending at its version.
  ghost predicate IsUnderWay(log: seq<Applied>, l: Local) {
    var n := MAX_PAGES - l.pagesLeft;
    && 1 <= l.pagesLeft <= MAX_PAGES && n <= l.version <= |log|
    && AllAnnounceMore(log[l.version - n..l.version]) && l.processed == RecordsOf(log[l.version - n..l.version])
  }

  ghost predicate InBlock(log: seq<Applied>, p: Phase) {
    match p
    case Ready(l) => IsUnderWay(log, l)
    case Holding(l, _) => IsUnderWay(log, l)
    case Finished(processed) => exists a, b :: IsSync(log, a, b, processed)
    case Failed(PageLimit) => exists a :: IsLimit(log, a)
    case _ => true
  }

  ghost predicate AllInBlocks(s: System) {
    forall w :: w in s.workers ==> InBlock(s.log, s.workers[w])
  }

  lemma SliceStays(log: seq<Applied>, x: Applied, a: nat, b: nat)
    requires a <= b <= |log|
    ensures (log + [x])[a..b] == log[a..b]
  {
  }

  lemma BlockStays(log: seq<Applied>, x: Applied, p: Phase)
    requires InBlock(log, p)
    ensures InBlock(log + [x], p)
  {
    match p
    case Ready(l) => SliceStays(log, x, l.version - (MAX_PAGES - l.pagesLeft), l.version);
    case Holding(l, _) => SliceStays(log, x, l.version - (MAX_PAGES - l.pagesLeft), l.version);
    case Finished(processed) =>
      var a, b :| IsSync(log, a, b, processed);
      SliceStays(log, x, a, b);
      SliceStays(log, x, a, b - 1);
      assert IsSync(log + [x], a, b, processed);
    case Failed(PageLimit) =>
      var a :| IsLimit(log, a);
      SliceStays(log, x, a, a + MAX_PAGES);
      assert IsLimit(log + [x], a);
    case _ =>
  }

  lemma OneMorePage(log: seq<Applied>, x: Applied, a: nat)
    requires a <= |log|
    ensures (log + [x])[a..|log| + 1] == log[a..] + [x]
    ensures RecordsOf((log + [x])[a..|log| + 1]) == RecordsOf(log[a..|log|]) + |x.page.records|
  {
    var block := log[a..] + [x];
    assert (log + [x])[a..|log| + 1] == block;
    assert block[..|block| - 1] == log[a..|log|];
  }

  lemma MoreAnnounced(log: seq<Applied>, x: Applied, a: nat)
    requires a <= |log| && AllAnnounceMore(log[a..|log|]) && x.page.nextCursor.Some?
    ensures AllAnnounceMore((log + [x])[a..|log| + 1])
  {
    OneMorePage(log, x, a);
    assert log[a..] == log[a..|log|];
  }

  // The committed page extends the block of its worker, which ends at the end of the log.
  lemma AdvanceStaysInBlock(log: seq<Applied>, l: Local, page: Page)
    requires IsUnderWay(log, l) && l.version == |log|
    ensures InBlock(log + [Applied(page, l.cursor, l.watermark)], Advance(l, page, |log| + 1))
  {
    var x := Applied(page, l.cursor, l.watermark);
    var a := l.version - (MAX_PAGES - l.pagesLeft);
    OneMorePage(log, x, a);
    if page.nextCursor.None? {
      SliceStays(log, x, a, |log|);
      assert IsSync(log + [x], a, |log| + 1, l.processed + |page.records|);
    } else {
      MoreAnnounced(log, x, a);
      if l.pagesLeft == 1 { assert IsLimit(log + [x], a); }
    }
  }

  lemma OthersStayInBlocks(log: seq<Applied>, x: Applied, workers: map<nat, Phase>)
    requires forall w :: w in workers ==> InBlock(log, workers[w])
    ensures forall w :: w in workers ==> InBlock(log + [x], workers[w])
  {
    forall w | w in workers ensures InBlock(log + [x], workers[w]) {
      BlockStays(log, x, workers[w]);
    }
  }

  lemma AcceptedStaysInBlocks(s: System, t: System, w: nat, l: Local, page: Page)
    requires AllInBlocks(s) && IsUnderWay(s.log, l) && l.version == |s.log|
    requires t.log == s.log + [Applied(page, l.cursor, l.watermark)]
    requires t.workers == s.workers[w := Advance(l, page, |s.log| + 1)]
    ensures AllInBlocks(t)
  {
    AdvanceStaysInBlock(s.log, l, page);
    OthersStayInBlocks(s.log, Applied(page, l.cursor, l.watermark), s.workers);
  }

  // A commit does nothing, or fails for a reason other than the page limit, or adds the worker's page to the log.
  ghost predicate Commits(s: System, t: System, w: nat) {
    var p := PhaseOf(s, w);
    || t == s
    || (p.Holding? && t.log == s.log && exists e :: e != PageLimit && t.workers == s.workers[w := Failed(e)])
    || (p.Holding? && p.local.version == |s.log|
        && t.log == s.log + [Applied(p.page, p.local.cursor, p.local.watermark)]
        && t.workers == s.workers[w := Advance(p.local, p.page, |s.log| + 1)])
  }

  lemma HowCommitsGo(s: System, w: nat)
    requires |s.log| == s.store.version
    ensures Commits(s, CommitStep(s, w), w)
  {
    var p := PhaseOf(s, w);
    if p.Holding? {
      var r := Apply(s.store, p.page, p.local.version);
      PageApplied(s.store, p.page, p.local.version);
      if r.Err? { assert r.error != PageLimit && CommitStep(s, w).workers == s.workers[w := Failed(r.error)]; }
    }
  }

  lemma CommitStaysInBlocks(s: System, t: System, w: nat)
    requires AllInBlocks(s) && Commits(s, t, w)
    ensures AllInBlocks(t)
  {
    var p := PhaseOf(s, w);
    if p.Holding? && t.log != s.log { AcceptedStaysInBlocks(s, t, w, p.local, p.page); }
  }

  lemma LosingReplyStaysInBlocks(s: System, w: nat)
    requires CrmWorkers.Inv(s) && AllInBlocks(s)
    ensures AllInBlocks(Step(s, CommitLosingReply(w)))
  {
    HowCommitsGo(s, w);
    CommitStaysInBlocks(s, CommitStep(s, w), w);
    var t, u := CommitStep(s, w), Step(s, CommitLosingReply(w));
    forall v | v in u.workers ensures InBlock(u.log, u.workers[v]) {
      if v != w { assert u.workers[v] == t.workers[v] && InBlock(t.log, t.workers[v]); }
    }
  }

  lemma OtherStepsStayInBlocks(s: System, e: Event)
    requires CrmWorkers.Inv(s) && AllInBlocks(s) && !e.Commit? && !e.CommitLosingReply?
    ensures AllInBlocks(Step(s, e))
  {
    if e.Load? {
      var v := s.store.version;
      assert s.log[v..v] == [];
    }
  }

  lemma StepStaysInBlocks(s: System, e: Event)
    requires CrmWorkers.Inv(s) && AllInBlocks(s)
    ensures AllInBlocks(Step(s, e))
  {
    match e
    case Commit(w) =>
      HowCommitsGo(s, w);
      CommitStaysInBlocks(s, CommitStep(s, w), w);
    case CommitLosingReply(w) => LosingReplyStaysInBlocks(s, w);
    case _ => OtherStepsStayInBlocks(s, e);
  }

  // Over every interleaving: the pages of one sync are a block of the log without anybody else's between them. A sync
  // that finished has committed the last page and reports exactly the records of its block; one that stops at the
  // page limit has committed a hundred pages.
  lemma {:induction false} SyncsAreBlocks(events: seq<Event>)
    ensures AllInBlocks(Run(START, events))
  {
    if events != [] {
      var init := events[..|events| - 1];
      SyncsAreBlocks(init);
      CrmWorkers.RunKeepsInv(init);
      StepStaysInBlocks(Run(START, init), events[|events| - 1]);
    }
  }

  // A worker that does not hear of its commit has committed all the same, and knows nothing of it.
  lemma LostReplyCommits(s: System, w: nat)
    ensures var t, u := Step(s, CommitLosingReply(w)), Step(s, Commit(w));
            t.store == u.store && t.log == u.log && PhaseOf(t, w).Idle?
  {
  }
}
