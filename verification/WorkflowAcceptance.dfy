/** What an empty report means: the validator accepts exactly the well-formed workflows. */
module WorkflowAcceptance {
  import opened Graphs
  import opened WorkflowValidation

  predicate Matches(byId: map<string, Node>, e: Edge) {
    e.source in byId && e.target in byId && byId[e.source].output == byId[e.target].input
  }

  ghost predicate WellFormed(nodes: seq<Node>, edges: seq<Edge>) {
    && nodes != []
    && (forall n :: n in nodes ==> !IsBlank(n.id) && !IsBlank(n.input) && !IsBlank(n.output))
    && DistinctIds(nodes)
    && (forall e :: e in edges ==> Matches(ById(nodes), e))
    && !HasCycle(ArcsOf(nodes, edges))
    && WeaklyConnected(nodes, edges)
  }

  lemma {:induction false} EdgeErrorsMeaning(byId: map<string, Node>, edges: seq<Edge>)
    ensures EdgeErrors(byId, edges) == [] <==> forall e :: e in edges ==> Matches(byId, e)
    ensures DANGLING in EdgeErrors(byId, edges) <==> exists e :: e in edges && (e.source !in byId || e.target !in byId)
    ensures forall m :: m in EdgeErrors(byId, edges) ==> (|m| > 0 && m[0] == 'S') || m == DANGLING
  {
    if edges != [] {
      var init, last := edges[..|edges| - 1], edges[|edges| - 1];
      assert edges == init + [last];
      EdgeErrorsMeaning(byId, init);
      EdgeErrorKinds(byId, last);
      assert EdgeErrors(byId, edges) == EdgeErrors(byId, init) + EdgeError(byId, last);
      if exists e :: e in edges && (e.source !in byId || e.target !in byId) {
        var e :| e in edges && (e.source !in byId || e.target !in byId);
        assert e in init || e == last;
      }
    }
  }

  lemma EdgeErrorKinds(byId: map<string, Node>, e: Edge)
    ensures EdgeError(byId, e) == [] <==> Matches(byId, e)
    ensures DANGLING in EdgeError(byId, e) <==> e.source !in byId || e.target !in byId
    ensures forall m :: m in EdgeError(byId, e) ==> (|m| > 0 && m[0] == 'S') || m == DANGLING
  {
    assert DANGLING[0] == 'A';
    if e.source in byId && e.target in byId {
      var m := Mismatch(byId[e.source], byId[e.target]);
      assert m[0] == 'S';
      assert m != DANGLING;
    }
  }

  // The size test is weak connectivity, given distinct ids.
  lemma SplitMeaning(nodes: seq<Node>, edges: seq<Edge>)
    requires nodes != [] && DistinctIds(nodes)
    ensures IsSplit(nodes, edges) <==> !WeaklyConnected(nodes, edges)
  {
    var arcs, root := EitherWay(ArcsOf(nodes, edges)), nodes[0].id;
    var reach := ReachSet(nodes, edges, root);
    assert nodes[0] in nodes;
    IdsCount(nodes);
    if IsSplit(nodes, edges) {
      assert reach != Ids(nodes);
      var v :| v in Ids(nodes) && v !in reach;
      assert !Reaches(arcs, root, v);
    } else {
      SameSize(reach, Ids(nodes));
      assert Symmetric(arcs);
      forall u, v | u in Ids(nodes) && v in Ids(nodes) ensures Reaches(arcs, u, v) {
        assert u in reach && v in reach;
        ReachesBack(arcs, root, u);
        ReachesTransitive(arcs, u, root, v);
      }
    }
  }

  lemma SameSize(a: set<string>, b: set<string>)
    requires a <= b && |a| == |b|
    ensures a == b
  {
    assert |b - a| == |b| - |a|;
    assert b == a + (b - a);
  }

  // With duplicate ids the traversal can never collect as many ids as there are nodes.
  lemma DuplicatesAlwaysSplit(nodes: seq<Node>, edges: seq<Edge>)
    requires nodes != [] && !DistinctIds(nodes)
    ensures IsSplit(nodes, edges)
  {
    IdsCount(nodes);
    Subset(ReachSet(nodes, edges, nodes[0].id), Ids(nodes));
  }

  lemma Subset(a: set<string>, b: set<string>)
    requires a <= b
    ensures |a| <= |b|
  {
    assert |b - a| == |b| - |a|;
  }

  // A finite non-empty acyclic graph without dangling edges has an entry and an exit.
  lemma AcyclicHasEntryAndExit(nodes: seq<Node>, edges: seq<Edge>)
    requires nodes != [] && !HasCycle(ArcsOf(nodes, edges))
    requires forall e :: e in edges ==> Resolves(Ids(nodes), e)
    ensures SomeEntry(nodes, edges) && SomeExit(nodes, edges)
  {
    var arcs := ArcsOf(nodes, edges);
    assert nodes[0] in nodes;
    var entry, exit := EntryToExit(arcs, Ids(nodes), nodes[0].id);
    EntryIsNoTarget(nodes, edges, entry);
    ExitIsNoSource(nodes, edges, exit);
    var n :| n in nodes && n.id == entry;
    var m :| m in nodes && m.id == exit;
    assert !IsTarget(edges, n.id) && !IsSource(edges, m.id);
  }

  lemma EntryIsNoTarget(nodes: seq<Node>, edges: seq<Edge>, id: string)
    requires forall e :: e in edges ==> Resolves(Ids(nodes), e)
    ensures IsEntry(ArcsOf(nodes, edges), id) <==> !IsTarget(edges, id)
  {
    if IsTarget(edges, id) {
      var e :| e in edges && e.target == id;
      assert (e.source, e.target) in ArcsOf(nodes, edges);
    }
  }

  lemma ExitIsNoSource(nodes: seq<Node>, edges: seq<Edge>, id: string)
    requires forall e :: e in edges ==> Resolves(Ids(nodes), e)
    ensures IsExit(ArcsOf(nodes, edges), id) <==> !IsSource(edges, id)
  {
    if IsSource(edges, id) {
      var e :| e in edges && e.source == id;
      assert (e.source, e.target) in ArcsOf(nodes, edges);
    }
  }

  // All seven checks pass.
  ghost predicate Clean(nodes: seq<Node>, edges: seq<Edge>) {
    && !AnyBlank(nodes) && DistinctIds(nodes) && EdgeErrors(ById(nodes), edges) == []
    && !HasCycle(ArcsOf(nodes, edges)) && SomeEntry(nodes, edges) && SomeExit(nodes, edges)
    && !IsSplit(nodes, edges)
  }

  lemma ReportIsEmpty(nodes: seq<Node>, edges: seq<Edge>)
    ensures Distinct(Report(nodes, edges)) == [] <==> Clean(nodes, edges)
  {
    DistinctEmpty(Report(nodes, edges));
  }

  lemma DistinctEmpty(s: seq<string>)
    ensures Distinct(s) == [] <==> s == []
  {
    if s != [] { DistinctKeeps(s, s[0]); }
  }

  lemma CleanIfWellFormed(nodes: seq<Node>, edges: seq<Edge>)
    requires WellFormed(nodes, edges)
    ensures Clean(nodes, edges)
  {
    EdgeErrorsMeaning(ById(nodes), edges);
    SplitMeaning(nodes, edges);
    AcyclicHasEntryAndExit(nodes, edges);
  }

  lemma WellFormedIfClean(nodes: seq<Node>, edges: seq<Edge>)
    requires Clean(nodes, edges)
    ensures WellFormed(nodes, edges)
  {
    EdgeErrorsMeaning(ById(nodes), edges);
    SplitMeaning(nodes, edges);
  }

  // The validator returns no error exactly for the well-formed workflows.
  lemma AcceptedIffWellFormed(nodes: seq<Node>, edges: seq<Edge>)
    ensures Distinct(Report(nodes, edges)) == [] <==> WellFormed(nodes, edges)
  {
    ReportIsEmpty(nodes, edges);
    if WellFormed(nodes, edges) { CleanIfWellFormed(nodes, edges); }
    if Clean(nodes, edges) { WellFormedIfClean(nodes, edges); }
  }

  // --- each message of the report ---

  // No two of the fixed messages are the same, and none can be taken for a schema error.
  lemma MessagesDiffer()
    ensures BLANK[0] == DUPLICATE[0] == 'N' && DANGLING[0] == 'A' && CYCLE[0] == 'C'
    ensures NO_ENTRY[0] == NO_EXIT[0] == SPLIT[0] == 'G'
    ensures BLANK != DUPLICATE && NO_ENTRY != NO_EXIT && NO_ENTRY != SPLIT && NO_EXIT != SPLIT
  {
    assert BLANK[5] == 'p' && DUPLICATE[5] == 'd';
    assert |NO_ENTRY| == 18 && |NO_EXIT| == 16 && |SPLIT| == 37;
  }

  lemma InParts(a: seq<string>, b: seq<string>, c: seq<string>, d: seq<string>, e: seq<string>, f: seq<string>,
                g: seq<string>, m: string)
    ensures m in a + b + c + d + e + f + g <==>
            m in a || m in b || m in c || m in d || m in e || m in f || m in g
  {
  }

  lemma InReport(nodes: seq<Node>, edges: seq<Edge>, m: string)
    ensures m in Distinct(Report(nodes, edges)) <==>
            || (m == BLANK && AnyBlank(nodes)) || (m == DUPLICATE && !DistinctIds(nodes))
            || m in EdgeErrors(ById(nodes), edges) || (m == CYCLE && HasCycle(ArcsOf(nodes, edges)))
            || (m == NO_ENTRY && !SomeEntry(nodes, edges)) || (m == NO_EXIT && !SomeExit(nodes, edges))
            || (m == SPLIT && IsSplit(nodes, edges))
  {
    DistinctKeeps(Report(nodes, edges), m);
    InParts(Flag(AnyBlank(nodes), BLANK), Flag(!DistinctIds(nodes), DUPLICATE), EdgeErrors(ById(nodes), edges),
            Flag(HasCycle(ArcsOf(nodes, edges)), CYCLE), Flag(!SomeEntry(nodes, edges), NO_ENTRY),
            Flag(!SomeExit(nodes, edges), NO_EXIT), Flag(IsSplit(nodes, edges), SPLIT), m);
  }

  // Each message about nodes and edges is reported exactly for its cause: a blank field, ids that are not distinct,
  // an edge from or to nowhere.
  lemma NodeMessages(nodes: seq<Node>, edges: seq<Edge>)
    ensures var report := Distinct(Report(nodes, edges));
            && (BLANK in report <==> AnyBlank(nodes)) && (DUPLICATE in report <==> !DistinctIds(nodes))
            && (DANGLING in report <==> DANGLING in EdgeErrors(ById(nodes), edges))
  {
    MessagesDiffer();
    EdgeErrorsMeaning(ById(nodes), edges);
    InReport(nodes, edges, BLANK);
    InReport(nodes, edges, DUPLICATE);
    InReport(nodes, edges, DANGLING);
  }

  // And so is each message about the graph.
  lemma GraphMessages(nodes: seq<Node>, edges: seq<Edge>)
    ensures var report := Distinct(Report(nodes, edges));
            && (CYCLE in report <==> HasCycle(ArcsOf(nodes, edges)))
            && (NO_ENTRY in report <==> !SomeEntry(nodes, edges)) && (NO_EXIT in report <==> !SomeExit(nodes, edges))
            && (SPLIT in report <==> IsSplit(nodes, edges))
  {
    MessagesDiffer();
    EdgeErrorsMeaning(ById(nodes), edges);
    InReport(nodes, edges, CYCLE);
    InReport(nodes, edges, NO_ENTRY);
    InReport(nodes, edges, NO_EXIT);
    InReport(nodes, edges, SPLIT);
  }

  // The cycle message appears exactly when the resolved edges contain a directed cycle.
  lemma CycleReportedIffCyclic(nodes: seq<Node>, edges: seq<Edge>)
    ensures CYCLE in Distinct(Report(nodes, edges)) <==> HasCycle(ArcsOf(nodes, edges))
  {
    GraphMessages(nodes, edges);
  }

  // What these causes are: some field is blank; every node has an edge into it; every node has an edge out of it.
  lemma CausesMean(nodes: seq<Node>, edges: seq<Edge>)
    ensures AnyBlank(nodes) <==> exists n :: n in nodes && (IsBlank(n.id) || IsBlank(n.input) || IsBlank(n.output))
    ensures !SomeEntry(nodes, edges) <==> forall n :: n in nodes ==> exists e :: e in edges && e.target == n.id
    ensures !SomeExit(nodes, edges) <==> forall n :: n in nodes ==> exists e :: e in edges && e.source == n.id
  {
  }

  // In an accepted workflow every node lies on some walk from an entry node to an exit node.
  lemma EveryNodeOnEntryToExitPath(nodes: seq<Node>, edges: seq<Edge>, n: Node) returns (entry: Node, exit: Node)
    requires WellFormed(nodes, edges) && n in nodes
    ensures entry in nodes && !IsTarget(edges, entry.id) && Reaches(ArcsOf(nodes, edges), entry.id, n.id)
    ensures exit in nodes && !IsSource(edges, exit.id) && Reaches(ArcsOf(nodes, edges), n.id, exit.id)
  {
    var first, last := EntryToExit(ArcsOf(nodes, edges), Ids(nodes), n.id);
    EntryIsNoTarget(nodes, edges, first);
    ExitIsNoSource(nodes, edges, last);
    entry :| entry in nodes && entry.id == first;
    exit :| exit in nodes && exit.id == last;
  }
}
