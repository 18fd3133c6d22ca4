/** The workflow validator: schema and edge checks, a three-colour depth-first search for
    cycles, and a second traversal for weak connectivity. */
module WorkflowValidation {
  import opened Graphs

  datatype Node = Node(id: string, input: string, output: string)
  datatype Edge = Edge(source: string, target: string)

  const BLANK := "Node possui id ou schema vazio."
  const DUPLICATE := "Node duplicado detectado."
  const DANGLING := "Aresta referencia node inexistente."
  const CYCLE := "Ciclo indevido detectado."
  const NO_ENTRY := "Grafo sem entrada."
  const NO_EXIT := "Grafo sem saida."
  const SPLIT := "Grafo possui componente desconectado."

  function Mismatch(source: Node, target: Node): string {
    "Schema incompativel: " + source.id + " (" + source.output + ") -> " + target.id + " (" + target.input + ")."
  }

  // The characters that ECMAScript's String.prototype.trim removes.
  predicate IsSpace(c: char) {
    || '\t' <= c <= '\r' || c == ' ' || c == '\U{00A0}' || c == '\U{1680}'
    || '\U{2000}' <= c <= '\U{200A}' || c == '\U{2028}' || c == '\U{2029}'
    || c == '\U{202F}' || c == '\U{205F}' || c == '\U{3000}' || c == '\U{FEFF}'
  }

  predicate IsBlank(s: string) {
    forall i :: 0 <= i < |s| ==> IsSpace(s[i])
  }

  predicate HasBlank(n: Node) {
    IsBlank(n.id) || IsBlank(n.input) || IsBlank(n.output)
  }

  function Ids(nodes: seq<Node>): set<string> {
    set n | n in nodes :: n.id
  }

  // The map built from [id, node] pairs: of two nodes with the same id, the later one stays.
  function ById(nodes: seq<Node>): (m: map<string, Node>)
    ensures m.Keys == Ids(nodes)
    ensures forall id :: id in m ==> m[id] in nodes && m[id].id == id
  {
    if nodes == [] then map[]
    else
      var last := nodes[|nodes| - 1];
      assert nodes == nodes[..|nodes| - 1] + [last];
      ById(nodes[..|nodes| - 1])[last.id := last]
  }

  lemma {:induction false} LaterNodeStays(nodes: seq<Node>, i: nat)
    requires i < |nodes| && forall j :: i < j < |nodes| ==> nodes[j].id != nodes[i].id
    ensures nodes[i].id in ById(nodes) && ById(nodes)[nodes[i].id] == nodes[i]
  {
    if i < |nodes| - 1 {
      var init := nodes[..|nodes| - 1];
      assert forall j :: i < j < |init| ==> init[j].id == nodes[j].id;
      LaterNodeStays(init, i);
    }
  }

  predicate DistinctIds(nodes: seq<Node>) {
    forall i, j :: 0 <= i < j < |nodes| ==> nodes[i].id != nodes[j].id
  }

  predicate Resolves(ids: set<string>, e: Edge) {
    e.source in ids && e.target in ids
  }

  // What the graph is, independently of how the validator stores it.
  function ArcsOf(nodes: seq<Node>, edges: seq<Edge>): Arcs {
    set e | e in edges && Resolves(Ids(nodes), e) :: (e.source, e.target)
  }

  function EitherWay(arcs: Arcs): Arcs {
    arcs + set a | a in arcs :: (a.1, a.0)
  }

  ghost function ReachSet(nodes: seq<Node>, edges: seq<Edge>, root: string): set<string> {
    set v | v in Ids(nodes) && Reaches(EitherWay(ArcsOf(nodes, edges)), root, v)
  }

  ghost predicate WeaklyConnected(nodes: seq<Node>, edges: seq<Edge>) {
    forall u, v :: u in Ids(nodes) && v in Ids(nodes) ==> Reaches(EitherWay(ArcsOf(nodes, edges)), u, v)
  }

  // What one edge contributes to the list of errors.
  function EdgeError(byId: map<string, Node>, e: Edge): seq<string> {
    if e.source !in byId || e.target !in byId then [DANGLING]
    else if byId[e.source].output != byId[e.target].input then [Mismatch(byId[e.source], byId[e.target])]
    else []
  }

  function EdgeErrors(byId: map<string, Node>, edges: seq<Edge>): seq<string> {
    if edges == [] then []
    else EdgeErrors(byId, edges[..|edges| - 1]) + EdgeError(byId, edges[|edges| - 1])
  }

  predicate AnyBlank(nodes: seq<Node>) {
    exists n :: n in nodes && HasBlank(n)
  }

  predicate IsTarget(edges: seq<Edge>, id: string) {
    exists e :: e in edges && e.target == id
  }

  predicate IsSource(edges: seq<Edge>, id: string) {
    exists e :: e in edges && e.source == id
  }

  // Like the source, these look at every edge, resolved or not.
  predicate SomeEntry(nodes: seq<Node>, edges: seq<Edge>) {
    exists n :: n in nodes && !IsTarget(edges, n.id)
  }

  predicate SomeExit(nodes: seq<Node>, edges: seq<Edge>) {
    exists n :: n in nodes && !IsSource(edges, n.id)
  }

  function Flag(condition: bool, message: string): seq<string> {
    if condition then [message] else []
  }

  ghost predicate IsSplit(nodes: seq<Node>, edges: seq<Edge>) {
    nodes != [] && |ReachSet(nodes, edges, nodes[0].id)| != |nodes|
  }

  // The report in terms of what the checks mean: cycles and reachability, not traversals.
  ghost function Report(nodes: seq<Node>, edges: seq<Edge>): seq<string> {
    Flag(AnyBlank(nodes), BLANK)
    + Flag(!DistinctIds(nodes), DUPLICATE)
    + EdgeErrors(ById(nodes), edges)
    + Flag(HasCycle(ArcsOf(nodes, edges)), CYCLE)
    + Flag(!SomeEntry(nodes, edges), NO_ENTRY)
    + Flag(!SomeExit(nodes, edges), NO_EXIT)
    + Flag(IsSplit(nodes, edges), SPLIT)
  }

  // Spreading a Set of the messages keeps the first copy of each.
  function Distinct(s: seq<string>): seq<string> {
    if s == [] then []
    else
      var init := Distinct(s[..|s| - 1]);
      if s[|s| - 1] in init then init else init + [s[|s| - 1]]
  }

  lemma {:induction false} DistinctKeeps(s: seq<string>, x: string)
    ensures x in Distinct(s) <==> x in s
    ensures forall i, j :: 0 <= i < j < |Distinct(s)| ==> Distinct(s)[i] != Distinct(s)[j]
  {
    if s != [] {
      assert s == s[..|s| - 1] + [s[|s| - 1]];
      DistinctKeeps(s[..|s| - 1], x);
      DistinctKeeps(s[..|s| - 1], s[|s| - 1]);
    }
  }

  // An adjacency map holds exactly the arcs of the graph.
  ghost predicate Represents(adjacency: map<string, seq<string>>, ids: set<string>, arcs: Arcs) {
    && adjacency.Keys == ids
    && Within(arcs, ids)
    && forall u, v :: u in ids ==> (v in adjacency[u] <==> (u, v) in arcs)
  }

  /** The closure variables of the cycle search: nodes being visited and nodes done. */
  class CycleSearch {
    const adjacency: map<string, seq<string>>
    ghost const arcs: Arcs
    var visiting: set<string>
    var visited: set<string>

    constructor (adjacency: map<string, seq<string>>, ghost arcs: Arcs)
      requires Represents(adjacency, adjacency.Keys, arcs)
      ensures this.adjacency == adjacency && this.arcs == arcs
      ensures visiting == {} && visited == {} && Valid()
    {
      this.adjacency := adjacency;
      this.arcs := arcs;
      visiting, visited := {}, {};
    }

    // Done nodes only lead to done nodes, and no cycle passes through them.
    ghost predicate Valid()
      reads this
    {
      && Represents(adjacency, adjacency.Keys, arcs)
      && visiting <= adjacency.Keys && visited <= adjacency.Keys && visiting !! visited
      && Absorbing(arcs, visited)
      && forall p :: IsCycle(arcs, p) ==> p[0] !in visited
    }

    // `stack` is the chain of open calls: a walk through exactly the nodes being visited.
    ghost predicate IsStack(stack: seq<string>)
      reads this
    {
      && (forall x :: x in visiting <==> x in stack)
      && (stack != [] ==> IsWalk(arcs, stack))
    }

    method Visit(id: string, ghost stack: seq<string>) returns (cyclic: bool)
      requires Valid() && id in adjacency.Keys && IsStack(stack)
      requires stack != [] ==> (stack[|stack| - 1], id) in arcs
      modifies this
      ensures cyclic ==> HasCycle(arcs)
      ensures !cyclic ==> Valid() && id in visited && old(visited) <= visited && visiting == old(visiting)
      decreases adjacency.Keys - visiting - visited
    {
      if id in visiting {
        ghost var i :| 0 <= i < |stack| && stack[i] == id;
        WalkThenArc(arcs, stack, id);
        RepeatGivesCycle(arcs, stack + [id], i, |stack|);
        return true;
      }
      if id in visited { return false; }
      visiting := visiting + {id};
      ghost var inner := stack + [id];
      if stack != [] { WalkThenArc(arcs, stack, id); }
      var next := adjacency[id];
      for k := 0 to |next|
        invariant Valid() && IsStack(inner) && IsWalk(arcs, inner)
        invariant visiting == old(visiting) + {id} && old(visited) <= visited && id !in visited
        invariant forall j :: 0 <= j < k ==> next[j] in visited
      {
        assert next[k] in adjacency[id];
        assert (id, next[k]) in arcs;
        assert id in adjacency.Keys - old(visiting) - old(visited);
        var found := Visit(next[k], inner);
        if found { return true; }
      }
      assert forall a :: a in arcs && a.0 == id ==> a.1 in visited by {
        forall a | a in arcs && a.0 == id ensures a.1 in visited {
          assert a == (id, a.1);
          assert a.1 in adjacency[id];
        }
      }
      NoNewCycle(arcs, visited, id);
      visiting := visiting - {id};
      visited := visited + {id};
      return false;
    }
  }

  /** The closure variable of the connectivity traversal. */
  class Traversal {
    const adjacency: map<string, seq<string>>
    ghost const arcs: Arcs
    ghost const root: string
    var connected: set<string>

    constructor (adjacency: map<string, seq<string>>, ghost arcs: Arcs, ghost root: string)
      requires Represents(adjacency, adjacency.Keys, arcs)
      ensures this.adjacency == adjacency && this.arcs == arcs && this.root == root
      ensures connected == {} && Valid()
    {
      this.adjacency := adjacency;
      this.arcs := arcs;
      this.root := root;
      connected := {};
    }

    ghost predicate Valid()
      reads this
    {
      && Represents(adjacency, adjacency.Keys, arcs)
      && connected <= adjacency.Keys
      && forall x :: x in connected ==> Reaches(arcs, root, x)
    }

    // Every node added by the call has all its neighbours in the set when the call returns.
    method Visit(id: string)
      requires Valid() && id in adjacency.Keys && Reaches(arcs, root, id)
      modifies this
      ensures Valid() && id in connected && old(connected) <= connected
      ensures forall a :: a in arcs && a.0 in connected - old(connected) ==> a.1 in connected
      decreases adjacency.Keys - connected
    {
      if id in connected { return; }
      connected := connected + {id};
      var next := adjacency[id];
      for k := 0 to |next|
        invariant Valid() && old(connected) + {id} <= connected
        invariant forall j :: 0 <= j < k ==> next[j] in connected
        invariant forall a :: a in arcs && a.0 in connected - old(connected) - {id} ==> a.1 in connected
      {
        assert next[k] in adjacency[id];
        assert (id, next[k]) in arcs;
        assert id in adjacency.Keys - old(connected);
        ReachesThenArc(arcs, root, id, next[k]);
        Visit(next[k]);
      }
      forall a | a in arcs && a.0 in connected - old(connected) ensures a.1 in connected {
        if a.0 == id {
          assert a == (id, a.1);
          assert a.1 in adjacency[id];
        }
      }
    }
  }

  lemma CyclesStartWithin(arcs: Arcs, ids: set<string>)
    requires Within(arcs, ids)
    ensures HasCycle(arcs) ==> exists p :: IsCycle(arcs, p) && p[0] in ids
  {
    if HasCycle(arcs) {
      var p :| IsCycle(arcs, p);
      assert (p[0], p[0 + 1]) in arcs;
    }
  }

  method FindCycle(nodes: seq<Node>, adjacency: map<string, seq<string>>, ghost arcs: Arcs) returns (cyclic: bool)
    requires Represents(adjacency, Ids(nodes), arcs)
    ensures cyclic <==> HasCycle(arcs)
  {
    var search := new CycleSearch(adjacency, arcs);
    for k := 0 to |nodes|
      invariant search.Valid() && search.visiting == {}
      invariant search.adjacency == adjacency && search.arcs == arcs
      invariant forall j :: 0 <= j < k ==> nodes[j].id in search.visited
    {
      assert nodes[k] in nodes;
      var found := search.Visit(nodes[k].id, []);
      if found { return true; }
    }
    CyclesStartWithin(arcs, Ids(nodes));
    return false;
  }

  method ReachableFrom(nodes: seq<Node>, adjacency: map<string, seq<string>>, ghost arcs: Arcs, root: string)
    returns (connected: set<string>)
    requires Represents(adjacency, Ids(nodes), arcs) && root in Ids(nodes)
    ensures connected == set v | v in Ids(nodes) && Reaches(arcs, root, v)
  {
    var traversal := new Traversal(adjacency, arcs, root);
    ReachesSelf(arcs, root);
    traversal.Visit(root);
    connected := traversal.connected;
    forall v | v in Ids(nodes) && Reaches(arcs, root, v) ensures v in connected {
      var p :| IsWalkBetween(arcs, p, root, v);
      WalkStays(arcs, connected, p, |p| - 1);
    }
  }

  lemma IdsSnoc(init: seq<Node>, last: Node)
    ensures Ids(init + [last]) == Ids(init) + {last.id}
  {
    var nodes := init + [last];
    forall n | n in init ensures n in nodes {}
    assert last in nodes;
  }

  lemma DistinctSnoc(init: seq<Node>, last: Node)
    ensures DistinctIds(init + [last]) <==> DistinctIds(init) && last.id !in Ids(init)
  {
    var nodes := init + [last];
    if last.id in Ids(init) {
      var n :| n in init && n.id == last.id;
      var i :| 0 <= i < |init| && init[i] == n;
      assert nodes[i].id == nodes[|init|].id;
    }
    if DistinctIds(nodes) {
      forall i, j | 0 <= i < j < |init| ensures init[i].id != init[j].id {
        assert nodes[i].id != nodes[j].id;
      }
    }
    forall i | 0 <= i < |init| ensures init[i].id in Ids(init) {
      assert init[i] in init;
    }
  }

  lemma {:induction false} IdsCount(nodes: seq<Node>)
    ensures |Ids(nodes)| <= |nodes|
    ensures |Ids(nodes)| == |nodes| <==> DistinctIds(nodes)
  {
    if nodes != [] {
      var init, last := nodes[..|nodes| - 1], nodes[|nodes| - 1];
      assert nodes == init + [last];
      IdsCount(init);
      IdsSnoc(init, last);
      DistinctSnoc(init, last);
      assert last.id in Ids(init) ==> Ids(nodes) == Ids(init);
    }
  }

  lemma PrefixArcs(nodes: seq<Node>, edges: seq<Edge>, k: nat)
    requires k < |edges|
    ensures ArcsOf(nodes, edges[..k + 1]) ==
            ArcsOf(nodes, edges[..k])
            + if Resolves(Ids(nodes), edges[k]) then {(edges[k].source, edges[k].target)} else {}
  {
    assert edges[..k + 1] == edges[..k] + [edges[k]];
  }

  lemma PushedArc(adjacency: map<string, seq<string>>, ids: set<string>, arcs: Arcs, u: string, v: string)
    requires Represents(adjacency, ids, arcs) && u in ids && v in ids
    ensures Represents(adjacency[u := adjacency[u] + [v]], ids, arcs + {(u, v)})
  {
  }

  lemma EitherWayPlus(arcs: Arcs, u: string, v: string)
    ensures EitherWay(arcs + {(u, v)}) == EitherWay(arcs) + {(u, v)} + {(v, u)}
  {
  }

  // The loop over the edges: directed adjacency and the two edge errors.
  method LinkEdges(nodes: seq<Node>, edges: seq<Edge>)
    returns (adjacency: map<string, seq<string>>, errors: seq<string>)
    ensures errors == EdgeErrors(ById(nodes), edges)
    ensures Represents(adjacency, Ids(nodes), ArcsOf(nodes, edges))
  {
    errors := [];
    var byId := ById(nodes);
    adjacency := map id | id in Ids(nodes) :: [];
    for k := 0 to |edges|
      invariant errors == EdgeErrors(byId, edges[..k])
      invariant Represents(adjacency, Ids(nodes), ArcsOf(nodes, edges[..k]))
    {
      var edge := edges[k];
      assert edges[..k + 1][..k] == edges[..k];
      PrefixArcs(nodes, edges, k);
      if edge.source !in byId || edge.target !in byId {
        errors := errors + [DANGLING];
        continue;
      }
      var source, target := byId[edge.source], byId[edge.target];
      PushedArc(adjacency, Ids(nodes), ArcsOf(nodes, edges[..k]), source.id, target.id);
      adjacency := adjacency[source.id := adjacency[source.id] + [target.id]];
      if source.output != target.input { errors := errors + [Mismatch(source, target)]; }
    }
    assert edges[..|edges|] == edges;
  }

  lemma PushedBothWays(m: map<string, seq<string>>, ids: set<string>, arcs: Arcs, u: string, v: string)
    requires Represents(m, ids, EitherWay(arcs)) && u in ids && v in ids
    ensures var once := m[u := m[u] + [v]]; Represents(once[v := once[v] + [u]], ids, EitherWay(arcs + {(u, v)}))
  {
    EitherWayPlus(arcs, u, v);
    PushedArc(m, ids, EitherWay(arcs), u, v);
    PushedArc(m[u := m[u] + [v]], ids, EitherWay(arcs) + {(u, v)}, v, u);
  }

  // The second adjacency map, with every resolved edge in both directions.
  method LinkBothWays(nodes: seq<Node>, edges: seq<Edge>) returns (undirected: map<string, seq<string>>)
    ensures Represents(undirected, Ids(nodes), EitherWay(ArcsOf(nodes, edges)))
  {
    undirected := map id | id in Ids(nodes) :: [];
    for k := 0 to |edges|
      invariant Represents(undirected, Ids(nodes), EitherWay(ArcsOf(nodes, edges[..k])))
    {
      PrefixArcs(nodes, edges, k);
      var edge := edges[k];
      if Resolves(Ids(nodes), edge) {
        ghost var arcs := ArcsOf(nodes, edges[..k]);
        PushedBothWays(undirected, Ids(nodes), arcs, edge.source, edge.target);
        undirected := undirected[edge.source := undirected[edge.source] + [edge.target]];
        undirected := undirected[edge.target := undirected[edge.target] + [edge.source]];
      }
    }
    assert edges[..|edges|] == edges;
  }

  method FindSplit(nodes: seq<Node>, edges: seq<Edge>) returns (split: bool)
    ensures split <==> IsSplit(nodes, edges)
  {
    if |nodes| == 0 { return false; }
    var undirected := LinkBothWays(nodes, edges);
    assert nodes[0] in nodes;
    var connected := ReachableFrom(nodes, undirected, EitherWay(ArcsOf(nodes, edges)), nodes[0].id);
    assert connected == ReachSet(nodes, edges, nodes[0].id);
    return |connected| != |nodes|;
  }

  method Validate(nodes: seq<Node>, edges: seq<Edge>) returns (errors: seq<string>)
    ensures errors == Distinct(Report(nodes, edges))
  {
    errors := Flag(AnyBlank(nodes), BLANK);
    IdsCount(nodes);
    errors := errors + Flag(|Ids(nodes)| != |nodes|, DUPLICATE);
    var adjacency, edgeErrors := LinkEdges(nodes, edges);
    errors := errors + edgeErrors;
    var cyclic := FindCycle(nodes, adjacency, ArcsOf(nodes, edges));
    errors := errors + Flag(cyclic, CYCLE);
    errors := errors + Flag(!SomeEntry(nodes, edges), NO_ENTRY);
    errors := errors + Flag(!SomeExit(nodes, edges), NO_EXIT);
    var split := FindSplit(nodes, edges);
    errors := errors + Flag(split, SPLIT);
    errors := Distinct(errors);
  }
}
