/** Walks, cycles and reachability over a finite relation on node ids. */
module Graphs {

  type Arcs = set<(string, string)>

  // A non-empty list of nodes, each joined to the next one by an arc.
  ghost predicate IsWalk(arcs: Arcs, p: seq<string>) {
    && |p| > 0
    && forall i :: 0 <= i < |p| - 1 ==> (p[i], p[i + 1]) in arcs
  }

  ghost predicate IsWalkBetween(arcs: Arcs, p: seq<string>, u: string, v: string) {
    IsWalk(arcs, p) && p[0] == u && p[|p| - 1] == v
  }

  ghost predicate IsCycle(arcs: Arcs, p: seq<string>) {
    IsWalk(arcs, p) && |p| >= 2 && p[0] == p[|p| - 1]
  }

  ghost predicate HasCycle(arcs: Arcs) {
    exists p :: IsCycle(arcs, p)
  }

  ghost predicate Reaches(arcs: Arcs, u: string, v: string) {
    exists p :: IsWalkBetween(arcs, p, u, v)
  }

  // No arc leaves `s`.
  ghost predicate Absorbing(arcs: Arcs, s: set<string>) {
    forall a :: a in arcs && a.0 in s ==> a.1 in s
  }

  // Both ends of every arc are in `ids`.
  ghost predicate Within(arcs: Arcs, ids: set<string>) {
    forall a :: a in arcs ==> a.0 in ids && a.1 in ids
  }

  ghost predicate Symmetric(arcs: Arcs) {
    forall a :: a in arcs ==> (a.1, a.0) in arcs
  }

  lemma ReachesSelf(arcs: Arcs, u: string)
    ensures Reaches(arcs, u, u)
  {
    assert IsWalkBetween(arcs, [u], u, u);
  }

  lemma WalkThenArc(arcs: Arcs, p: seq<string>, v: string)
    requires IsWalk(arcs, p) && (p[|p| - 1], v) in arcs
    ensures IsWalk(arcs, p + [v])
  {
  }

  lemma ReachesThenArc(arcs: Arcs, u: string, v: string, w: string)
    requires Reaches(arcs, u, v) && (v, w) in arcs
    ensures Reaches(arcs, u, w)
  {
    var p :| IsWalkBetween(arcs, p, u, v);
    WalkThenArc(arcs, p, w);
    assert IsWalkBetween(arcs, p + [w], u, w);
  }

  lemma ReachesTransitive(arcs: Arcs, u: string, v: string, w: string)
    requires Reaches(arcs, u, v) && Reaches(arcs, v, w)
    ensures Reaches(arcs, u, w)
  {
    var p :| IsWalkBetween(arcs, p, u, v);
    var q :| IsWalkBetween(arcs, q, v, w);
    var r := p + q[1..];
    forall i | 0 <= i < |r| - 1 ensures (r[i], r[i + 1]) in arcs {
      if i >= |p| - 1 {
        assert r[i] == q[i - (|p| - 1)] && r[i + 1] == q[i - (|p| - 1) + 1];
      }
    }
    assert IsWalkBetween(arcs, r, u, w);
  }

  // In a symmetric relation walks can be taken backwards.
  lemma ReachesBack(arcs: Arcs, u: string, v: string)
    requires Symmetric(arcs) && Reaches(arcs, u, v)
    ensures Reaches(arcs, v, u)
  {
    var p :| IsWalkBetween(arcs, p, u, v);
    var r := seq(|p|, i requires 0 <= i < |p| => p[|p| - 1 - i]);
    forall i | 0 <= i < |r| - 1 ensures (r[i], r[i + 1]) in arcs {
      var k := |p| - 2 - i;
      assert (p[k], p[k + 1]) in arcs;
    }
    assert IsWalkBetween(arcs, r, v, u);
  }

  lemma {:induction false} WalkStays(arcs: Arcs, s: set<string>, p: seq<string>, i: nat)
    requires Absorbing(arcs, s) && IsWalk(arcs, p) && p[0] in s && i < |p|
    ensures p[i] in s
  {
    if i > 0 {
      WalkStays(arcs, s, p, i - 1);
      assert (p[i - 1], p[i - 1 + 1]) in arcs;
    }
  }

  // A walk that repeats a node contains a cycle.
  lemma RepeatGivesCycle(arcs: Arcs, p: seq<string>, i: nat, j: nat)
    requires IsWalk(arcs, p) && i < j < |p| && p[i] == p[j]
    ensures HasCycle(arcs)
  {
    var c := p[i..j + 1];
    forall k | 0 <= k < |c| - 1 ensures (c[k], c[k + 1]) in arcs {
      assert (p[i + k], p[i + k + 1]) in arcs;
    }
    assert IsCycle(arcs, c);
  }

  lemma {:induction false} DistinctFitsIn(p: seq<string>, ids: set<string>)
    requires forall i :: 0 <= i < |p| ==> p[i] in ids
    requires forall i, j :: 0 <= i < j < |p| ==> p[i] != p[j]
    ensures |p| <= |ids|
  {
    if |p| > 0 {
      var last := p[|p| - 1];
      DistinctFitsIn(p[..|p| - 1], ids - {last});
    }
  }

  // Without cycles a walk inside a finite set of nodes cannot be longer than the set.
  lemma AcyclicWalkIsShort(arcs: Arcs, ids: set<string>, p: seq<string>)
    requires !HasCycle(arcs) && IsWalk(arcs, p)
    requires forall i :: 0 <= i < |p| ==> p[i] in ids
    ensures |p| <= |ids|
  {
    forall i, j | 0 <= i < j < |p| ensures p[i] != p[j] {
      if p[i] == p[j] { RepeatGivesCycle(arcs, p, i, j); }
    }
    DistinctFitsIn(p, ids);
  }

  ghost predicate IsExit(arcs: Arcs, v: string) {
    forall a :: a in arcs ==> a.0 != v
  }

  ghost predicate IsEntry(arcs: Arcs, v: string) {
    forall a :: a in arcs ==> a.1 != v
  }

  // In a finite acyclic graph every walk can be prolonged until it ends at a node with no outgoing arc.
  lemma {:induction false} WalkToExit(arcs: Arcs, ids: set<string>, p: seq<string>) returns (q: seq<string>)
    requires Within(arcs, ids) && !HasCycle(arcs) && IsWalk(arcs, p)
    requires forall i :: 0 <= i < |p| ==> p[i] in ids
    ensures IsWalk(arcs, q) && p <= q && q[|q| - 1] in ids && IsExit(arcs, q[|q| - 1])
    decreases |ids| - |p|
  {
    AcyclicWalkIsShort(arcs, ids, p);
    if IsExit(arcs, p[|p| - 1]) {
      q := p;
    } else {
      var a :| a in arcs && a.0 == p[|p| - 1];
      WalkThenArc(arcs, p, a.1);
      AcyclicWalkIsShort(arcs, ids, p + [a.1]);
      q := WalkToExit(arcs, ids, p + [a.1]);
    }
  }

  // ... and, in the other direction, can be started earlier until it begins at a node with no incoming arc.
  lemma {:induction false} WalkFromEntry(arcs: Arcs, ids: set<string>, p: seq<string>) returns (q: seq<string>)
    requires Within(arcs, ids) && !HasCycle(arcs) && IsWalk(arcs, p)
    requires forall i :: 0 <= i < |p| ==> p[i] in ids
    ensures IsWalk(arcs, q) && q[|q| - 1] == p[|p| - 1] && q[0] in ids && IsEntry(arcs, q[0])
    decreases |ids| - |p|
  {
    AcyclicWalkIsShort(arcs, ids, p);
    if IsEntry(arcs, p[0]) {
      q := p;
    } else {
      var a :| a in arcs && a.1 == p[0];
      var r := [a.0] + p;
      forall i | 0 <= i < |r| - 1 ensures (r[i], r[i + 1]) in arcs {
        if i > 0 { assert (p[i - 1], p[i - 1 + 1]) in arcs; }
      }
      AcyclicWalkIsShort(arcs, ids, r);
      q := WalkFromEntry(arcs, ids, r);
    }
  }

  // Every node of a finite acyclic graph lies between an entry and an exit.
  lemma EntryToExit(arcs: Arcs, ids: set<string>, v: string) returns (entry: string, exit: string)
    requires Within(arcs, ids) && !HasCycle(arcs) && v in ids
    ensures entry in ids && IsEntry(arcs, entry) && Reaches(arcs, entry, v)
    ensures exit in ids && IsExit(arcs, exit) && Reaches(arcs, v, exit)
  {
    var q := WalkToExit(arcs, ids, [v]);
    exit := q[|q| - 1];
    assert q[0] == v;
    assert IsWalkBetween(arcs, q, v, exit);
    var r := WalkFromEntry(arcs, ids, [v]);
    entry := r[0];
    assert IsWalkBetween(arcs, r, entry, v);
  }

  // A new node whose arcs all lead into an absorbing, cycle-free set closes no cycle.
  lemma NoNewCycle(arcs: Arcs, s: set<string>, u: string)
    requires Absorbing(arcs, s) && u !in s
    requires forall a :: a in arcs && a.0 == u ==> a.1 in s
    ensures forall p :: IsCycle(arcs, p) ==> p[0] != u
  {
    forall p | IsCycle(arcs, p) ensures p[0] != u {
      if p[0] == u {
        assert (p[0], p[0 + 1]) in arcs;
        var t := p[1..];
        forall i | 0 <= i < |t| - 1 ensures (t[i], t[i + 1]) in arcs {
          assert (p[i + 1], p[i + 1 + 1]) in arcs;
        }
        WalkStays(arcs, s, t, |t| - 1);
      }
    }
  }
}
