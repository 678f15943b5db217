/** Queries over the case file (src/utils/componentUtils.js:111-233): the
    dependency chain handed to content generation, reverse lookup and the
    delete guard, search, sorting and unique titles. */
module ComponentQueries {
  import opened Wrappers
  import opened Seqs
  import opened Text
  import opened Ordering
  import opened ComponentModel
  import opened CaseFiles
  import opened DependencyGraph

  // ---------------------------------------------------------------------
  // getDependencyChain

  /** The chain of `id` given the ids already on the way to it: nothing for
      a visited or unknown id, otherwise the chains of its dependencies, the
      last-listed first, then the component itself. */
  function Chain(cf: CaseFile, id: Id, visited: set<Id>): seq<Component>
    decreases KeySet(cf) - visited, 0, 0
  {
    if id in visited then []
    else match Get(cf, id)
      case None => []
      case Some(c) =>
        KeySetIsKeys(cf, id);
        DepsChains(cf, c.dependencies, visited + {id}) + [c]
  }

  /** `chain.unshift(...depChain)` for each dependency in turn: the chain of
      the last dependency ends up in front. */
  function DepsChains(cf: CaseFile, ds: seq<Id>, visited: set<Id>): seq<Component>
    decreases KeySet(cf) - visited, 1, |ds|
  {
    if ds == [] then []
    else Chain(cf, ds[|ds| - 1], visited) + DepsChains(cf, ds[..|ds| - 1], visited)
  }

  /** `getDependencyChain(componentId, caseFile, visited)`: each recursive
      call gets its own copy of the visited set. */
  method GetDependencyChain(componentId: Id, cf: CaseFile, visited: set<Id>) returns (chain: seq<Component>)
    ensures chain == Chain(cf, componentId, visited)
    ensures chain == [] <==> componentId in visited || Get(cf, componentId).None?
    ensures chain != [] ==> Get(cf, componentId) == Some(chain[|chain| - 1])
    decreases KeySet(cf) - visited
  {
    if componentId in visited {
      return [];
    }
    var component := Get(cf, componentId);
    if component.None? {
      return [];
    }
    KeySetIsKeys(cf, componentId);
    var c := component.value;
    var seen := visited + {componentId};
    chain := [c];
    var ds := c.dependencies;
    var i := 0;
    while i < |ds|
      invariant 0 <= i <= |ds|
      invariant chain == DepsChains(cf, ds[..i], seen) + [c]
    {
      var depChain := GetDependencyChain(ds[i], cf, seen);
      assert ds[..i + 1][..i] == ds[..i];
      chain := depChain + chain;
      i := i + 1;
    }
    assert ds[..i] == ds;
  }

  /** Every component on the chain is held by a node reachable from the
      start along dependency edges. */
  lemma {:induction false} ChainReachable(cf: CaseFile, id: Id, visited: set<Id>, x: Component)
    requires x in Chain(cf, id, visited)
    ensures exists n :: Reachable(Plain(cf), id, n) && Get(cf, n) == Some(x)
    decreases KeySet(cf) - visited, 0, 0
  {
    var c := Get(cf, id).value;
    KeySetIsKeys(cf, id);
    assert Chain(cf, id, visited) == DepsChains(cf, c.dependencies, visited + {id}) + [c];
    if x == c {
      assert IsPath(Plain(cf), [id]);
      assert Reachable(Plain(cf), id, id);
    } else {
      DepsChainsReachable(cf, c.dependencies, visited + {id}, x);
      var d, n :| d in c.dependencies && Reachable(Plain(cf), d, n) && Get(cf, n) == Some(x);
      StepThenReach(cf, id, c, d, n);
    }
  }

  /** An edge followed by a path is a path. */
  lemma StepThenReach(cf: CaseFile, id: Id, c: Component, d: Id, n: Id)
    requires Get(cf, id) == Some(c) && d in c.dependencies && Reachable(Plain(cf), d, n)
    ensures Reachable(Plain(cf), id, n)
  {
    assert d in Succ(Plain(cf), id);
    EdgeThenReach(Plain(cf), id, d, n);
  }

  lemma {:induction false} DepsChainsReachable(cf: CaseFile, ds: seq<Id>, visited: set<Id>, x: Component)
    requires x in DepsChains(cf, ds, visited)
    ensures exists d, n :: d in ds && Reachable(Plain(cf), d, n) && Get(cf, n) == Some(x)
    decreases KeySet(cf) - visited, 1, |ds|
  {
    var last := ds[|ds| - 1];
    if x in Chain(cf, last, visited) {
      ChainReachable(cf, last, visited, x);
      var n :| Reachable(Plain(cf), last, n) && Get(cf, n) == Some(x);
      assert last in ds;
    } else {
      DepsChainsReachable(cf, ds[..|ds| - 1], visited, x);
      var d, n :| d in ds[..|ds| - 1] && Reachable(Plain(cf), d, n) && Get(cf, n) == Some(x);
      assert d in ds;
    }
  }

  /** The dependencies' chains, listed as the dependencies are. */
  function ChainsOf(cf: CaseFile, ds: seq<Id>, visited: set<Id>): (r: seq<seq<Component>>)
    ensures |r| == |ds| && forall i :: 0 <= i < |ds| ==> r[i] == Chain(cf, ds[i], visited)
  {
    if ds == [] then [] else [Chain(cf, ds[0], visited)] + ChainsOf(cf, ds[1..], visited)
  }

  lemma ChainsOfSnoc(cf: CaseFile, ds: seq<Id>, visited: set<Id>)
    requires ds != []
    ensures ChainsOf(cf, ds, visited) == ChainsOf(cf, ds[..|ds| - 1], visited) + [Chain(cf, ds[|ds| - 1], visited)]
  {
  }

  /** The dependencies' chains appear in reverse listing order: a later
      dependency's chain comes before an earlier one's. */
  lemma {:induction false} DepsChainsReversed(cf: CaseFile, ds: seq<Id>, visited: set<Id>)
    ensures DepsChains(cf, ds, visited) == Flatten(Reverse(ChainsOf(cf, ds, visited)))
    decreases |ds|
  {
    if ds != [] {
      var n := |ds|;
      DepsChainsReversed(cf, ds[..n - 1], visited);
      ChainsOfSnoc(cf, ds, visited);
      FlattenReverseSnoc(ChainsOf(cf, ds[..n - 1], visited), Chain(cf, ds[n - 1], visited));
    }
  }

  /** A component's chain, read off its dependency list. */
  lemma ChainOfComponent(cf: CaseFile, id: Id, visited: set<Id>)
    requires id !in visited && Get(cf, id).Some?
    ensures var c := Get(cf, id).value;
      Chain(cf, id, visited) == Flatten(Reverse(ChainsOf(cf, c.dependencies, visited + {id}))) + [c]
  {
    DepsChainsReversed(cf, Get(cf, id).value.dependencies, visited + {id});
  }

  function Node(id: Id, deps: seq<Id>): Component {
    Component(id, DOCUMENT, id, SKETCH, Some(""), "", "", None, None, deps, None, None, 0)
  }

  /** C with no dependencies, B on C, A on B: the chain of A is [C, B, A]. */
  lemma LinearChainExample()
    ensures var cf := [Entry("C", Node("C", [])), Entry("B", Node("B", ["C"])), Entry("A", Node("A", ["B"]))];
      Chain(cf, "A", {}) == [Node("C", []), Node("B", ["C"]), Node("A", ["B"])]
  {
    var cf := [Entry("C", Node("C", [])), Entry("B", Node("B", ["C"])), Entry("A", Node("A", ["B"]))];
    var a, b, c := Node("A", ["B"]), Node("B", ["C"]), Node("C", []);
    assert Get(cf, "A") == Some(a);
    assert Get(cf, "B") == Some(b);
    assert Get(cf, "C") == Some(c);
    assert DepsChains(cf, [], {"A", "B", "C"}) == [];
    assert Chain(cf, "C", {"A", "B"}) == [c];
    assert ["C"][..0] == [];
    assert DepsChains(cf, ["C"], {"A", "B"}) == [c];
    assert {"A"} + {"B"} == {"A", "B"};
    assert Chain(cf, "B", {"A"}) == [c, b];
    assert ["B"][..0] == [];
    assert DepsChains(cf, ["B"], {"A"}) == [c, b];
    assert {} + {"A"} == {"A"};
  }

  function DiamondFile(): CaseFile {
    [Entry("D", Node("D", [])), Entry("B", Node("B", ["D"])), Entry("C", Node("C", ["D"])), Entry("A", Node("A", ["B", "C"]))]
  }

  /** Below A and one of B, C, the shared D has no dependencies. */
  lemma DiamondLeaf(x: Id)
    requires x == "B" || x == "C"
    ensures DepsChains(DiamondFile(), ["D"], {"A", x}) == [Node("D", [])]
  {
    var cf := DiamondFile();
    var d := Node("D", []);
    assert Get(cf, "D") == Some(d);
    assert DepsChains(cf, [], {"A", x, "D"}) == [];
    assert {"A", x} + {"D"} == {"A", x, "D"};
    assert Chain(cf, "D", {"A", x}) == [d];
    assert ["D"][..0] == [];
  }

  /** Below A, each of B and C contributes D then itself. */
  lemma DiamondBranch(x: Id)
    requires x == "B" || x == "C"
    ensures Chain(DiamondFile(), x, {"A"}) == [Node("D", []), Node(x, ["D"])]
  {
    var cf := DiamondFile();
    assert Get(cf, x) == Some(Node(x, ["D"]));
    DiamondLeaf(x);
    assert {"A"} + {x} == {"A", x};
  }

  /** Below A, the chains of B and C, the later dependency's first. */
  lemma DiamondDeps()
    ensures DepsChains(DiamondFile(), ["B", "C"], {"A"})
         == [Node("D", []), Node("C", ["D"]), Node("D", []), Node("B", ["D"])]
  {
    var cf := DiamondFile();
    var b, c, d := Node("B", ["D"]), Node("C", ["D"]), Node("D", []);
    DiamondBranch("B");
    DiamondBranch("C");
    assert ["B", "C"][..1] == ["B"];
    assert ["B"][..0] == [];
    assert DepsChains(cf, ["B"], {"A"}) == [d, b];
  }

  /** A on B and C, both on D: D occurs twice, C's part first. */
  lemma DiamondChainExample()
    ensures Chain(DiamondFile(), "A", {}) == [Node("D", []), Node("C", ["D"]), Node("D", []), Node("B", ["D"]), Node("A", ["B", "C"])]
  {
    var cf := DiamondFile();
    assert Get(cf, "A") == Some(Node("A", ["B", "C"]));
    DiamondDeps();
    assert {} + {"A"} == {"A"};
  }

  /** A and B depend on each other: the walk stops at the visited A. */
  lemma CyclicChainExample()
    ensures var cf := [Entry("A", Node("A", ["B"])), Entry("B", Node("B", ["A"]))];
      Chain(cf, "A", {}) == [Node("B", ["A"]), Node("A", ["B"])]
  {
    var cf := [Entry("A", Node("A", ["B"])), Entry("B", Node("B", ["A"]))];
    var a, b := Node("A", ["B"]), Node("B", ["A"]);
    assert Get(cf, "A") == Some(a);
    assert Get(cf, "B") == Some(b);
    assert Chain(cf, "A", {"A", "B"}) == [];
    assert ["A"][..0] == [];
    assert DepsChains(cf, ["A"], {"A", "B"}) == [];
    assert {"A"} + {"B"} == {"A", "B"};
    assert Chain(cf, "B", {"A"}) == [b];
    assert ["B"][..0] == [];
    assert DepsChains(cf, ["B"], {"A"}) == [b];
    assert {} + {"A"} == {"A"};
  }

  // ---------------------------------------------------------------------
  // getDependents / canDeleteComponent

  /** Whether a component lists `id` among its dependencies. */
  function ListsId(id: Id): Component -> bool {
    (c: Component) => id in c.dependencies
  }

  /** The components, in case-file order, whose dependencies list `id`. */
  function Dependents(cf: CaseFile, id: Id): seq<Component> {
    Filter(ListsId(id), Values(cf))
  }

  /** Exactly the components that list `id` are returned. */
  lemma DependentsExact(cf: CaseFile, id: Id)
    ensures forall x :: x in Dependents(cf, id) <==> x in Values(cf) && id in x.dependencies
  {
    FilterMembers(ListsId(id), Values(cf));
  }

  /** Concatenated case files have concatenated dependents: case-file order is kept. */
  lemma DependentsAppend(a: CaseFile, b: CaseFile, id: Id)
    ensures Dependents(a + b, id) == Dependents(a, id) + Dependents(b, id)
  {
    assert Values(a + b) == Values(a) + Values(b);
    FilterAppend(ListsId(id), Values(a), Values(b));
  }

  /** `getDependents(componentId, caseFile)`: the push loop. */
  method GetDependents(componentId: Id, cf: CaseFile) returns (dependents: seq<Component>)
    ensures dependents == Dependents(cf, componentId)
  {
    ghost var values := Values(cf);
    dependents := [];
    var i := 0;
    while i < |cf|
      invariant 0 <= i <= |cf|
      invariant dependents == Filter(ListsId(componentId), values[..i])
    {
      var c := cf[i].comp;
      assert values[..i + 1] == values[..i] + [c];
      FilterAppend(ListsId(componentId), values[..i], [c]);
      assert [c][1..] == [];
      if componentId in c.dependencies {
        dependents := dependents + [c];
      }
      i := i + 1;
    }
    assert values[..i] == values;
  }

  /** `canDeleteComponent`: nothing depends on the component. */
  function CanDeleteComponent(componentId: Id, cf: CaseFile): bool {
    |Dependents(cf, componentId)| == 0
  }

  lemma CanDeleteIffUnreferenced(componentId: Id, cf: CaseFile)
    ensures CanDeleteComponent(componentId, cf) <==> forall i :: 0 <= i < |cf| ==> componentId !in cf[i].comp.dependencies
  {
    DependentsExact(cf, componentId);
    if !CanDeleteComponent(componentId, cf) {
      var x := Dependents(cf, componentId)[0];
      assert x in Values(cf);
    } else {
      forall i | 0 <= i < |cf| ensures componentId !in cf[i].comp.dependencies {
        assert Values(cf)[i] == cf[i].comp;
      }
    }
  }

  // ---------------------------------------------------------------------
  // filterComponents

  /** The query text the filter looks for. */
  function Needle(searchQuery: string): string {
    Trim(Lower(searchQuery))
  }

  /** The title or the type's display name contains the query. */
  predicate MatchesLabel(c: Component, needle: string) {
    Contains(Lower(c.title), needle) || Contains(Lower(TypeDisplayName(c.kind)), needle)
  }

  /** Title, content (a missing content read as empty) or type display name. */
  predicate Matches(c: Component, needle: string) {
    Contains(Lower(c.title), needle)
    || Contains(Lower(c.content.GetOr("")), needle)
    || Contains(Lower(TypeDisplayName(c.kind)), needle)
  }

  function MatchesQuery(needle: string): Component -> bool {
    (c: Component) => Matches(c, needle)
  }

  /** The matching components, in their given order. */
  function Keep(cs: seq<Component>, needle: string): seq<Component> {
    Filter(MatchesQuery(needle), cs)
  }

  /** `filterComponents(components, searchQuery)` with a component that has
      no `content` read as having empty content. */
  function FilterComponents(cs: seq<Component>, searchQuery: string): seq<Component> {
    if IsBlank(searchQuery) then cs else Keep(cs, Needle(searchQuery))
  }

  /** `filterComponents` as written: `component.content.toLowerCase()` throws
      a TypeError (None here) on a component with no content whose title does
      not match. */
  function FilterComponentsAsWritten(cs: seq<Component>, searchQuery: string): (r: Option<seq<Component>>)
    ensures r.Some? ==> r.value == FilterComponents(cs, searchQuery)
    ensures r.None? <==> !IsBlank(searchQuery) && exists i :: 0 <= i < |cs| && cs[i].content.None? && !Contains(Lower(cs[i].title), Needle(searchQuery))
  {
    if IsBlank(searchQuery) then Some(cs) else KeepAsWritten(cs, Needle(searchQuery))
  }

  function KeepAsWritten(cs: seq<Component>, needle: string): (r: Option<seq<Component>>)
    ensures r.Some? ==> r.value == Keep(cs, needle)
    ensures r.None? <==> exists i :: 0 <= i < |cs| && cs[i].content.None? && !Contains(Lower(cs[i].title), needle)
  {
    if cs == [] then Some([])
    else
      var c := cs[0];
      var rest := KeepAsWritten(cs[1..], needle);
      assert forall i :: 1 <= i < |cs| ==> cs[i] == cs[1..][i - 1];
      if !Contains(Lower(c.title), needle) && c.content.None? then None
      else if rest.None? then None
      else Some((if Matches(c, needle) then [c] else []) + rest.value)
  }

  /** A blank query returns the list as it is. */
  lemma FilterBlankIdentity(cs: seq<Component>, searchQuery: string)
    requires IsBlank(searchQuery)
    ensures FilterComponents(cs, searchQuery) == cs
  {
  }

  /** A component is kept exactly when it matches. */
  lemma KeepExact(cs: seq<Component>, needle: string)
    ensures forall x :: x in Keep(cs, needle) <==> x in cs && Matches(x, needle)
    ensures |Keep(cs, needle)| <= |cs|
  {
    FilterMembers(MatchesQuery(needle), cs);
  }

  /** Filtering keeps the given order. */
  lemma KeepAppend(a: seq<Component>, b: seq<Component>, needle: string)
    ensures Keep(a + b, needle) == Keep(a, needle) + Keep(b, needle)
  {
    FilterAppend(MatchesQuery(needle), a, b);
  }

  /** Filtering twice with the same query is filtering once. */
  lemma KeepIdempotent(cs: seq<Component>, needle: string)
    ensures Keep(Keep(cs, needle), needle) == Keep(cs, needle)
  {
    FilterIdempotent(MatchesQuery(needle), cs);
  }

  /** A component added from the sidebar (no content) makes a search that its
      title does not match throw. */
  lemma FilterThrowsOnMissingContent(c: Component)
    requires c.kind == WITNESS && c.title == "New Witness" && c.content.None?
    ensures FilterComponentsAsWritten([c], "zz").None? && FilterComponents([c], "zz") == []
  {
    NewWitnessUnmatched(c);
    assert [c][1..] == [];
    assert KeepAsWritten([c], "zz") == None;
    assert Keep([c], "zz") == [];
  }

  lemma NewWitnessUnmatched(c: Component)
    requires c.kind == WITNESS && c.title == "New Witness" && c.content.None?
    ensures Needle("zz") == "zz" && !IsBlank("zz")
    ensures !Contains(Lower(c.title), "zz") && !Matches(c, "zz")
  {
    NeedleZZ();
    NewWitnessTitleZZ();
    WitnessNameZZ();
    assert !Contains(Lower(""), "zz");
  }

  lemma NeedleZZ()
    ensures Needle("zz") == "zz" && !IsBlank("zz")
  {
    assert Lower("zz") == "zz";
    assert !IsBlank("zz") by { BlankIffAllSpace("zz"); }
  }

  lemma NewWitnessTitleZZ()
    ensures !Contains(Lower("New Witness"), "zz")
  {
    NoLowerZZ("New Witness");
  }

  lemma WitnessNameZZ()
    ensures !Contains(Lower(TypeDisplayName(WITNESS)), "zz")
  {
    assert TypeDisplayName(WITNESS) == "Witness";
    NoLowerZZ("Witness");
  }

  /** Text without a 'z' of either case does not contain "zz" once lowered. */
  lemma NoLowerZZ(s: string)
    requires forall i :: 0 <= i < |s| ==> s[i] != 'z' && s[i] != 'Z'
    ensures !Contains(Lower(s), "zz")
  {
    var l := Lower(s);
    assert 'z' !in l[0..|s|] by {
      forall i | 0 <= i < |s| ensures l[0..|s|][i] != 'z' {
        assert l[i] == LowerChar(s[i]);
      }
    }
    NoMatchByAbsentChar(l, "zz", 0, 0, |s|);
    NotContainsIfNoMatch(l, "zz", |s|);
  }

  // ---------------------------------------------------------------------
  // sortComponents

  function TitleKey(c: Component): Key { Text(Lower(c.title)) }
  function TypeKey(c: Component): Key { Text(c.kind) }
  function StatusKey(c: Component): Key { Text(c.status) }
  function TimeKey(c: Component): Key { Time(c.lastUpdated) }

  /** The value compared for a `sortBy`; anything else sorts by `lastUpdated`. */
  function SortKey(sortBy: string): Component -> Key {
    if sortBy == "title" then TitleKey
    else if sortBy == "type" then TypeKey
    else if sortBy == "status" then StatusKey
    else TimeKey
  }

  /** `sortComponents(components, sortBy, sortOrder)` on a copy: descending
      unless the order is 'asc'. */
  function SortComponents(cs: seq<Component>, sortBy: string, sortOrder: string): seq<Component> {
    SortBy(cs, SortKey(sortBy), sortOrder != "asc")
  }

  /** The sorted copy holds the same components, ordered by the key. */
  lemma SortComponentsCorrect(cs: seq<Component>, sortBy: string, sortOrder: string)
    ensures multiset(SortComponents(cs, sortBy, sortOrder)) == multiset(cs)
    ensures Sorted(SortComponents(cs, sortBy, sortOrder), SortKey(sortBy), sortOrder != "asc")
  {
    SortBySorted(cs, SortKey(sortBy), sortOrder != "asc");
  }

  /** The sort is stable: components with the same title, type, status or
      time keep the order they had. */
  lemma SortComponentsStable(cs: seq<Component>, sortBy: string, sortOrder: string, k: Key)
    ensures Filter(HasKey(SortKey(sortBy), k), SortComponents(cs, sortBy, sortOrder))
         == Filter(HasKey(SortKey(sortBy), k), cs)
  {
    SortByStable(cs, SortKey(sortBy), sortOrder != "asc", k);
  }

  /** The sidebar's default, `lastUpdated` descending: newest first. */
  lemma DefaultSortNewestFirst(cs: seq<Component>, i: int, j: int)
    requires 0 <= i < j < |cs|
    ensures SortComponents(cs, "lastUpdated", "desc")[i].lastUpdated >= SortComponents(cs, "lastUpdated", "desc")[j].lastUpdated
  {
    SortComponentsCorrect(cs, "lastUpdated", "desc");
    var r := SortComponents(cs, "lastUpdated", "desc");
    assert !Before(TimeKey, true, r[j], r[i]);
  }

  // ---------------------------------------------------------------------
  // generateUniqueTitle

  /** The n-th title tried: the base, then "base 2", "base 3", ... */
  function Candidate(base: string, n: nat): string {
    if n <= 1 then base else base + " " + NatToString(n)
  }

  lemma CandidateInjective(base: string, a: nat, b: nat)
    requires 1 <= a && 1 <= b && Candidate(base, a) == Candidate(base, b)
    ensures a == b
  {
    if a > 1 && b > 1 {
      var sa, sb := NatToString(a), NatToString(b);
      assert Candidate(base, a)[|base| + 1..] == sa;
      assert Candidate(base, b)[|base| + 1..] == sb;
      NatToStringInjective(a, b);
    }
  }

  /** Some component of this type already has the title. */
  predicate TitleTaken(cf: CaseFile, kind: string, title: string) {
    exists i :: 0 <= i < |cf| && cf[i].comp.kind == kind && cf[i].comp.title == title
  }

  /** `baseTitle || \`New ${getComponentTypeDisplayName(type)}\``. */
  function BaseTitle(baseTitle: string, kind: string): string {
    if baseTitle == "" then "New " + TypeDisplayName(kind) else baseTitle
  }

  /** Candidate n is free and every earlier candidate is taken. */
  ghost predicate FirstFree(cf: CaseFile, kind: string, base: string, n: nat) {
    1 <= n && !TitleTaken(cf, kind, Candidate(base, n))
    && forall k :: 1 <= k < n ==> TitleTaken(cf, kind, Candidate(base, k))
  }

  /** `generateUniqueTitle(baseTitle, type, caseFile)`: the first candidate
      no component of the type holds. */
  method GenerateUniqueTitle(baseTitle: string, kind: string, cf: CaseFile) returns (title: string)
    ensures !TitleTaken(cf, kind, title)
    ensures exists n :: FirstFree(cf, kind, BaseTitle(baseTitle, kind), n) && title == Candidate(BaseTitle(baseTitle, kind), n)
  {
    var base := BaseTitle(baseTitle, kind);
    title := base;
    var counter := 1;
    var existingTitles: set<string> := {};
    var i := 0;
    while i < |cf|
      invariant 0 <= i <= |cf|
      invariant forall t :: t in existingTitles <==> TitleTaken(cf[..i], kind, t)
    {
      if cf[i].comp.kind == kind {
        existingTitles := existingTitles + {cf[i].comp.title};
      }
      assert forall t :: TitleTaken(cf[..i + 1], kind, t) <==> TitleTaken(cf[..i], kind, t) || (cf[i].comp.kind == kind && cf[i].comp.title == t) by {
        forall t ensures TitleTaken(cf[..i + 1], kind, t) <==> TitleTaken(cf[..i], kind, t) || (cf[i].comp.kind == kind && cf[i].comp.title == t) {
          if TitleTaken(cf[..i], kind, t) {
            var j :| 0 <= j < i && cf[..i][j].comp.kind == kind && cf[..i][j].comp.title == t;
            assert cf[..i + 1][j] == cf[..i][j];
          }
          if TitleTaken(cf[..i + 1], kind, t) {
            var j :| 0 <= j < i + 1 && cf[..i + 1][j].comp.kind == kind && cf[..i + 1][j].comp.title == t;
            if j < i {
              assert cf[..i][j] == cf[..i + 1][j];
            }
          }
          if cf[i].comp.kind == kind && cf[i].comp.title == t {
            assert cf[..i + 1][i] == cf[i];
          }
        }
      }
      i := i + 1;
    }
    assert cf[..i] == cf;
    ghost var tried: set<string> := {};
    while title in existingTitles
      invariant 1 <= counter && title == Candidate(base, counter)
      invariant tried <= existingTitles
      invariant forall k :: 1 <= k < counter ==> Candidate(base, k) in tried
      invariant forall t :: t in tried ==> exists k :: 1 <= k < counter && t == Candidate(base, k)
      decreases existingTitles - tried
    {
      if title in tried {
        var k :| 1 <= k < counter && title == Candidate(base, k);
        CandidateInjective(base, k, counter);
      }
      tried := tried + {title};
      counter := counter + 1;
      title := base + " " + NatToString(counter);
    }
    assert FirstFree(cf, kind, base, counter);
  }
}
