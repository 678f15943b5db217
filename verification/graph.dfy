/** The dependency graph of a case file: an edge from a component to each id
    in its `dependencies`; an id the case file does not hold has no edges.
    `hasCircularDependency` asks about the graph in which one component's
    list is replaced by a proposed one (src/store.js:159-160). */
module DependencyGraph {
  import opened Wrappers
  import opened ComponentModel
  import opened CaseFiles

  /** The edges of `cf`, with the list of `over.0` replaced by `over.1`. */
  datatype Graph = Graph(cf: CaseFile, over: Option<(Id, seq<Id>)>)

  function Plain(cf: CaseFile): Graph {
    Graph(cf, None)
  }

  function Proposed(cf: CaseFile, id: Id, deps: seq<Id>): Graph {
    Graph(cf, Some((id, deps)))
  }

  /** `currentId === componentId ? targetDeps : (currentComponent?.dependencies || [])`. */
  function Succ(g: Graph, n: Id): seq<Id> {
    if g.over.Some? && g.over.value.0 == n then g.over.value.1
    else match Get(g.cf, n)
      case Some(c) => c.dependencies
      case None => []
  }

  ghost predicate IsPath(g: Graph, p: seq<Id>) {
    |p| >= 1 && forall k :: 0 <= k < |p| - 1 ==> p[k + 1] in Succ(g, p[k])
  }

  /** A path from `start` whose last node occurs earlier on it: a cycle is
      reachable from `start`. */
  ghost predicate IsLasso(g: Graph, p: seq<Id>, start: Id) {
    IsPath(g, p) && p[0] == start && p[|p| - 1] in p[..|p| - 1]
  }

  ghost predicate CycleReachable(g: Graph, start: Id) {
    exists p :: IsLasso(g, p, start)
  }

  ghost predicate IsCycle(g: Graph, c: seq<Id>) {
    IsPath(g, c) && |c| >= 2 && c[0] == c[|c| - 1]
  }

  ghost predicate Acyclic(g: Graph) {
    forall c :: !IsCycle(g, c)
  }

  ghost predicate Reachable(g: Graph, a: Id, b: Id) {
    exists p :: IsPath(g, p) && p[0] == a && p[|p| - 1] == b
  }

  /** Every edge of `g2` is an edge of `g1`. */
  ghost predicate EdgesWithin(g2: Graph, g1: Graph) {
    forall n, d :: d in Succ(g2, n) ==> d in Succ(g1, n)
  }

  /** Every node an edge can lead to or start from: a finite universe. */
  function Nodes(g: Graph): set<Id> {
    KeySet(g.cf)
    + (set e, d | e in g.cf && d in e.comp.dependencies :: d)
    + (if g.over.Some? then {g.over.value.0} + set d | d in g.over.value.1 else {})
  }

  lemma SuccInNodes(g: Graph, n: Id)
    ensures forall d :: d in Succ(g, n) ==> d in Nodes(g)
  {
    if !(g.over.Some? && g.over.value.0 == n) {
      var r := Get(g.cf, n);
      if r.Some? {
        GetIsEntry(g.cf, n);
        var i :| 0 <= i < |g.cf| && g.cf[i] == Entry(n, r.value);
        assert g.cf[i] in g.cf;
      }
    }
  }

  lemma {:induction false} GetIsEntry(cf: CaseFile, k: Id)
    requires Get(cf, k).Some?
    ensures exists i :: 0 <= i < |cf| && cf[i] == Entry(k, Get(cf, k).value)
    decreases |cf|
  {
    if cf[0].key != k {
      GetIsEntry(cf[1..], k);
      var i :| 0 <= i < |cf[1..]| && cf[1..][i] == Entry(k, Get(cf, k).value);
      assert cf[i + 1] == cf[1..][i];
    }
  }

  /** Listing itself as a dependency closes a cycle at once. */
  lemma SelfDependencyIsCycle(cf: CaseFile, id: Id, deps: seq<Id>)
    requires id in deps
    ensures CycleReachable(Proposed(cf, id, deps), id)
  {
    var p := [id, id];
    assert p[..1] == [id];
    assert IsLasso(Proposed(cf, id, deps), p, id);
  }

  lemma PathSlice(g: Graph, p: seq<Id>, i: int, j: int)
    requires IsPath(g, p) && 0 <= i < j <= |p|
    ensures IsPath(g, p[i..j])
  {
    forall k | 0 <= k < j - i - 1 ensures p[i..j][k + 1] in Succ(g, p[i..j][k]) {
      assert p[i..j][k + 1] == p[i + k + 1] && p[i..j][k] == p[i + k];
    }
  }

  lemma PathJoin(g: Graph, a: seq<Id>, b: seq<Id>)
    requires IsPath(g, a) && IsPath(g, b) && a[|a| - 1] == b[0]
    ensures IsPath(g, a + b[1..])
  {
    var p := a + b[1..];
    forall k | 0 <= k < |p| - 1 ensures p[k + 1] in Succ(g, p[k]) {
      if k < |a| - 1 {
        assert p[k] == a[k] && p[k + 1] == a[k + 1];
      } else {
        assert p[k] == b[k - |a| + 1] && p[k + 1] == b[k - |a| + 2];
      }
    }
  }

  /** An edge followed by a path is a path. */
  lemma EdgeThenReach(g: Graph, a: Id, d: Id, b: Id)
    requires d in Succ(g, a) && Reachable(g, d, b)
    ensures Reachable(g, a, b)
  {
    var p :| IsPath(g, p) && p[0] == d && p[|p| - 1] == b;
    var edge := [a, d];
    assert IsPath(g, edge);
    PathJoin(g, edge, p);
    var q := edge + p[1..];
    assert q[|q| - 1] == b;
  }

  /** The part of a lasso after the first visit to its last node is a cycle. */
  lemma LassoGivesCycle(g: Graph, p: seq<Id>, start: Id)
    requires IsLasso(g, p, start)
    ensures !Acyclic(g)
  {
    var j :| 0 <= j < |p| - 1 && p[..|p| - 1][j] == p[|p| - 1];
    PathSlice(g, p, j, |p|);
    assert IsCycle(g, p[j..]);
  }

  /** A cycle through `id` can be entered from `id` and walked round to it. */
  lemma CycleThroughGivesLasso(g: Graph, c: seq<Id>, m: int)
    requires IsCycle(g, c) && 0 <= m < |c|
    ensures CycleReachable(g, c[m])
  {
    PathSlice(g, c, m, |c|);
    PathSlice(g, c, 0, m + 1);
    PathJoin(g, c[m..], c[..m + 1]);
    var p := c[m..] + c[..m + 1][1..];
    assert p[0] == c[m] && p[|p| - 1] == c[m];
    assert p[..|p| - 1][0] == c[m];
    assert IsLasso(g, p, c[m]);
  }

  /** Removing edges cannot create a cycle. */
  lemma AcyclicSubgraph(g1: Graph, g2: Graph)
    requires Acyclic(g1) && EdgesWithin(g2, g1)
    ensures Acyclic(g2)
  {
    forall c | IsCycle(g2, c) ensures false {
      assert IsCycle(g1, c);
    }
  }

  /** Two graphs with the same successor lists have the same cycles. */
  lemma SameEdgesAcyclic(g1: Graph, g2: Graph)
    requires forall n :: Succ(g1, n) == Succ(g2, n)
    ensures Acyclic(g1) <==> Acyclic(g2)
  {
    forall c ensures IsCycle(g1, c) <==> IsCycle(g2, c) {
    }
  }

  /** If the case file is acyclic, a proposed list for `id` creates a cycle
      exactly when a cycle can be reached from `id`. */
  lemma ProposalCycleIff(cf: CaseFile, id: Id, deps: seq<Id>)
    requires Acyclic(Plain(cf))
    ensures CycleReachable(Proposed(cf, id, deps), id) <==> !Acyclic(Proposed(cf, id, deps))
  {
    var g := Proposed(cf, id, deps);
    if CycleReachable(g, id) {
      var p :| IsLasso(g, p, id);
      LassoGivesCycle(g, p, id);
    }
    if !Acyclic(g) {
      var c :| IsCycle(g, c);
      if m :| 0 <= m < |c| && c[m] == id {
        CycleThroughGivesLasso(g, c, m);
      } else {
        assert IsCycle(Plain(cf), c) by {
          forall k | 0 <= k < |c| - 1 ensures c[k + 1] in Succ(Plain(cf), c[k]) {
            assert c[k] != id;
          }
        }
      }
    }
  }

  /** Position of the first occurrence of x. */
  function FirstIndex(s: seq<Id>, x: Id): (r: nat)
    requires x in s
    ensures r < |s| && s[r] == x && x !in s[..r]
  {
    if s[0] == x then 0 else 1 + FirstIndex(s[1..], x)
  }

  /** Each listed node's successors are listed before it: the nodes of
      `order` can reach no cycle. */
  ghost predicate Finished(g: Graph, order: seq<Id>) {
    forall k, d :: 0 <= k < |order| && d in Succ(g, order[k]) ==> d in order[..k]
  }

  lemma FirstIndexBelow(s: seq<Id>, x: Id, m: int)
    requires 0 <= m <= |s| && x in s[..m]
    ensures FirstIndex(s, x) < m
  {
    var i :| 0 <= i < m && s[..m][i] == x;
    assert s[i] == x;
  }

  /** Along a path from a finished node, first positions strictly decrease. */
  lemma {:induction false} FinishedPathDescends(g: Graph, order: seq<Id>, p: seq<Id>, k: int)
    requires Finished(g, order) && IsPath(g, p) && p[0] in order && 0 <= k < |p|
    ensures p[k] in order
    ensures forall j :: 0 <= j < k ==> p[j] in order && FirstIndex(order, p[k]) < FirstIndex(order, p[j])
    decreases k
  {
    if k > 0 {
      FinishedPathDescends(g, order, p, k - 1);
      var m := FirstIndex(order, p[k - 1]);
      assert p[k] in Succ(g, order[m]);
      assert p[k] in order[..m];
      FirstIndexBelow(order, p[k], m);
    }
  }

  /** No cycle is reachable from a finished node. */
  lemma NoLassoFromFinished(g: Graph, order: seq<Id>, start: Id)
    requires Finished(g, order) && start in order
    ensures !CycleReachable(g, start)
  {
    if p :| IsLasso(g, p, start) {
      var j :| 0 <= j < |p| - 1 && p[..|p| - 1][j] == p[|p| - 1];
      FinishedPathDescends(g, order, p, |p| - 1);
      assert false;
    }
  }
}
