/** `hasCircularDependency` (src/store.js:142-175): a depth-first search
    with a visited set and a recursion stack, both shared by every recursive
    call (the source passes the same `Set` objects down). */
module CycleCheck {
  import opened Wrappers
  import opened Seqs
  import opened ComponentModel
  import opened CaseFiles
  import opened DependencyGraph

  function Elems(p: seq<Id>): set<Id> {
    set x | x in p
  }

  /** What holds between calls: the stack is the current path from the
      start, and every visited node off the stack is finished. */
  ghost predicate DfsState(g: Graph, start: Id, visited: set<Id>, stack: set<Id>, path: seq<Id>, order: seq<Id>) {
    && stack == Elems(path)
    && (path != [] ==> IsPath(g, path) && path[0] == start)
    && visited == stack + Elems(order)
    && stack !! Elems(order)
    && Finished(g, order)
    && visited <= Nodes(g)
  }

  /** Meeting a node on the stack closes a lasso from the start. */
  lemma LassoOnStack(g: Graph, start: Id, stack: set<Id>, path: seq<Id>, cur: Id)
    requires stack == Elems(path) && path != [] && IsPath(g, path) && path[0] == start
    requires cur in Succ(g, path[|path| - 1]) && cur in stack
    ensures CycleReachable(g, start)
  {
    var edge := [path[|path| - 1], cur];
    assert IsPath(g, edge);
    PathJoin(g, path, edge);
    var lasso := path + edge[1..];
    assert lasso[..|lasso| - 1] == path;
    assert IsLasso(g, lasso, start);
  }

  /** Entering an unvisited node pushes it on the stack. */
  lemma Push(g: Graph, start: Id, visited: set<Id>, stack: set<Id>, path: seq<Id>, order: seq<Id>, cur: Id)
    requires DfsState(g, start, visited, stack, path, order) && cur !in visited
    requires path == [] ==> cur == start && start in Nodes(g)
    requires path != [] ==> cur in Succ(g, path[|path| - 1])
    ensures DfsState(g, start, visited + {cur}, stack + {cur}, path + [cur], order)
  {
    if path != [] {
      SuccInNodes(g, path[|path| - 1]);
    }
    var path' := path + [cur];
    assert Elems(path') == stack + {cur};
    assert IsPath(g, path');
  }

  /** Leaving a node whose successors are all finished finishes it. */
  lemma Pop(g: Graph, start: Id, visited: set<Id>, stack: set<Id>, path: seq<Id>, finished: seq<Id>, cur: Id)
    requires DfsState(g, start, visited, stack + {cur}, path + [cur], finished)
    requires cur !in stack && Elems(path) == stack && (path != [] ==> IsPath(g, path) && path[0] == start)
    requires forall d :: d in Succ(g, cur) ==> d in finished
    ensures DfsState(g, start, visited, stack, path, finished + [cur])
  {
    var order := finished + [cur];
    assert order[..|finished|] == finished;
    forall k, d | 0 <= k < |order| && d in Succ(g, order[k]) ensures d in order[..k] {
      if k < |finished| {
        assert order[k] == finished[k] && order[..k] == finished[..k];
      }
    }
    assert Elems(order) == Elems(finished) + {cur};
  }

  /** After the search below the i-th dependency returns without a cycle,
      the first i + 1 dependencies are finished, and the finished list only
      grew. */
  lemma ChildFinished(ds: seq<Id>, i: int, order: seq<Id>, before: seq<Id>, after: seq<Id>)
    requires 0 <= i < |ds| && order <= before <= after && ds[i] in after
    requires forall d :: d in ds[..i] ==> d in before
    ensures order <= after
    ensures forall d :: d in ds[..i + 1] ==> d in after
  {
    forall d | d in ds[..i + 1] ensures d in after {
      if d != ds[i] {
        assert d in ds[..i];
        PrefixMember(before, after, d);
      }
    }
  }

  /** The list the source walks is the node's successor list. */
  lemma DepsToCheck(cf: CaseFile, componentId: Id, deps: seq<Id>, currentId: Id)
    requires currentId != componentId
    ensures Succ(Proposed(cf, componentId, deps), currentId)
      == (if Get(cf, currentId).Some? then Get(cf, currentId).value.dependencies else [])
  {
  }

  /** `hasCycle(currentId, targetDeps, visited, recursionStack)`. */
  method HasCycle(
    cf: CaseFile, componentId: Id, currentId: Id, targetDeps: seq<Id>,
    visited: set<Id>, recursionStack: set<Id>,
    ghost deps: seq<Id>, ghost path: seq<Id>, ghost order: seq<Id>)
    returns (found: bool, visitedOut: set<Id>, stackOut: set<Id>, ghost orderOut: seq<Id>)
    requires DfsState(Proposed(cf, componentId, deps), componentId, visited, recursionStack, path, order)
    requires path == [] ==> currentId == componentId
    requires path != [] ==> currentId in Succ(Proposed(cf, componentId, deps), path[|path| - 1])
    requires currentId == componentId && currentId !in recursionStack ==> targetDeps == deps
    ensures found ==> CycleReachable(Proposed(cf, componentId, deps), componentId)
    ensures !found ==>
      && DfsState(Proposed(cf, componentId, deps), componentId, visitedOut, stackOut, path, orderOut)
      && stackOut == recursionStack && currentId in orderOut && order <= orderOut
    ensures visited <= visitedOut
    decreases Nodes(Proposed(cf, componentId, deps)) - visited
  {
    ghost var g := Proposed(cf, componentId, deps);
    if currentId in recursionStack {
      LassoOnStack(g, componentId, recursionStack, path, currentId);
      return true, visited, recursionStack, order;
    }
    if currentId in visited {
      return false, visited, recursionStack, order;
    }
    Push(g, componentId, visited, recursionStack, path, order, currentId);
    visitedOut := visited + {currentId};
    stackOut := recursionStack + {currentId};
    var depsToCheck: seq<Id>;
    if currentId == componentId {
      depsToCheck := targetDeps;
    } else {
      DepsToCheck(cf, componentId, deps, currentId);
      var current := Get(cf, currentId);
      depsToCheck := if current.Some? then current.value.dependencies else [];
    }
    ghost var path' := path + [currentId];
    orderOut := order;
    var i := 0;
    while i < |depsToCheck|
      invariant 0 <= i <= |depsToCheck|
      invariant DfsState(g, componentId, visitedOut, stackOut, path', orderOut)
      invariant stackOut == recursionStack + {currentId}
      invariant visited + {currentId} <= visitedOut
      invariant order <= orderOut
      invariant forall d :: d in depsToCheck[..i] ==> d in orderOut
    {
      var f;
      ghost var before := orderOut;
      f, visitedOut, stackOut, orderOut :=
        HasCycle(cf, componentId, depsToCheck[i], [], visitedOut, stackOut, deps, path', orderOut);
      if f {
        return true, visitedOut, stackOut, orderOut;
      }
      ChildFinished(depsToCheck, i, order, before, orderOut);
      i := i + 1;
    }
    assert depsToCheck[..i] == depsToCheck;
    Pop(g, componentId, visitedOut, recursionStack, path, orderOut, currentId);
    stackOut := recursionStack;
    orderOut := orderOut + [currentId];
    found := false;
  }

  /** `hasCircularDependency(componentId, dependencies)`: true exactly when,
      with the component's list replaced by `dependencies`, a cycle can be
      reached from the component. */
  method HasCircularDependency(cf: CaseFile, componentId: Id, dependencies: seq<Id>) returns (result: bool)
    ensures result <==> CycleReachable(Proposed(cf, componentId, dependencies), componentId)
  {
    ghost var orderOut;
    var visited, recursionStack;
    assert DfsState(Proposed(cf, componentId, dependencies), componentId, {}, {}, [], []);
    result, visited, recursionStack, orderOut := HasCycle(cf, componentId, componentId, dependencies, {}, {}, dependencies, [], []);
    if !result {
      NoLassoFromFinished(Proposed(cf, componentId, dependencies), orderOut, componentId);
    }
  }

  /** A component listing itself is always refused. */
  method SelfDependencyRefused(cf: CaseFile, componentId: Id, dependencies: seq<Id>) returns (result: bool)
    requires componentId in dependencies
    ensures result
  {
    result := HasCircularDependency(cf, componentId, dependencies);
    SelfDependencyIsCycle(cf, componentId, dependencies);
  }
}
