/** The value-level rules inside the store's actions (src/store.js): what
    `deleteComponent` does to the other components, which dependency
    updates are refused and why acyclicity survives, the notification list,
    the classifier of generation errors, and the status change of a
    reported issue. The store class applies them to its fields. */
module StoreRules {
  import opened Wrappers
  import opened Text
  import opened ComponentModel
  import opened CaseFiles
  import opened DependencyGraph
  import opened Consistency
  import opened OpenAI

  // ---------------------------------------------------------------------
  // deleteComponent

  /** `dependencies.filter(dep => dep !== id)`. */
  function Without(deps: seq<Id>, id: Id): (r: seq<Id>)
    ensures |r| <= |deps|
  {
    if deps == [] then [] else (if deps[0] != id then [deps[0]] else []) + Without(deps[1..], id)
  }

  /** The filter keeps every other id, in order, and drops every occurrence
      of `id`. */
  lemma {:induction false} WithoutExact(deps: seq<Id>, id: Id)
    ensures forall d :: d in Without(deps, id) <==> d in deps && d != id
    decreases |deps|
  {
    if deps != [] {
      WithoutExact(deps[1..], id);
      assert deps == [deps[0]] + deps[1..];
    }
  }

  /** One entry after the back-reference loop: rewritten, with a new
      timestamp, only when it lists the deleted id. */
  function PruneEntry(e: Entry, id: Id, now: nat): Entry {
    if id in e.comp.dependencies
    then Entry(e.key, e.comp.(dependencies := Without(e.comp.dependencies, id), lastUpdated := now))
    else e
  }

  function Prune(cf: CaseFile, id: Id, now: nat): (r: CaseFile)
    ensures |r| == |cf| && forall i :: 0 <= i < |cf| ==> r[i] == PruneEntry(cf[i], id, now)
  {
    if cf == [] then [] else [PruneEntry(cf[0], id, now)] + Prune(cf[1..], id, now)
  }

  /** The case file `deleteComponent(id)` leaves. */
  function Deleted(cf: CaseFile, id: Id, now: nat): CaseFile {
    Prune(Remove(cf, id), id, now)
  }

  /** Looking a key up after the loop: the entry found before, pruned. */
  lemma {:induction false} GetPrune(cf: CaseFile, id: Id, now: nat, k: Id)
    ensures Get(Prune(cf, id, now), k).None? <==> Get(cf, k).None?
    ensures Get(cf, k).Some? ==> Get(Prune(cf, id, now), k) == Some(PruneEntry(Entry(k, Get(cf, k).value), id, now).comp)
    decreases |cf|
  {
    if cf != [] {
      var r := Prune(cf, id, now);
      assert r[1..] == Prune(cf[1..], id, now);
      GetPrune(cf[1..], id, now, k);
    }
  }

  /** The loop keeps every key where it was. */
  lemma PruneKeys(cf: CaseFile, id: Id, now: nat)
    ensures Keys(Prune(cf, id, now)) == Keys(cf)
    ensures KeysUnique(cf) ==> KeysUnique(Prune(cf, id, now))
  {
  }

  lemma PruneEntryDropsId(e: Entry, id: Id, now: nat)
    ensures PruneEntry(e, id, now).key == e.key
    ensures id !in PruneEntry(e, id, now).comp.dependencies
  {
    WithoutExact(e.comp.dependencies, id);
  }

  /** After a delete the id is gone and no component lists it any more. */
  lemma DeleteLeavesNoReference(cf: CaseFile, id: Id, now: nat)
    ensures id !in Keys(Deleted(cf, id, now))
    ensures forall e :: e in Deleted(cf, id, now) ==> id !in e.comp.dependencies
  {
    var rest := Remove(cf, id);
    var r := Prune(rest, id, now);
    PruneKeys(rest, id, now);
    forall e | e in r ensures id !in e.comp.dependencies {
      var i :| 0 <= i < |r| && r[i] == e;
      PruneEntryDropsId(rest[i], id, now);
    }
  }

  /** Every other component survives; one that did not list the id is
      unchanged, one that did loses exactly that id and gets the new time. */
  lemma DeleteKeepsOthers(cf: CaseFile, id: Id, now: nat, k: Id)
    requires k != id
    ensures Get(Deleted(cf, id, now), k).Some? <==> Get(cf, k).Some?
    ensures Get(cf, k).Some? && id !in Get(cf, k).value.dependencies ==>
      Get(Deleted(cf, id, now), k) == Get(cf, k)
    ensures Get(cf, k).Some? && id in Get(cf, k).value.dependencies ==>
      Get(Deleted(cf, id, now), k) == Some(Get(cf, k).value.(dependencies := Without(Get(cf, k).value.dependencies, id), lastUpdated := now))
  {
    GetPrune(Remove(cf, id), id, now, k);
  }

  /** Deleting removes edges only, so it cannot create a cycle. */
  lemma DeleteKeepsAcyclic(cf: CaseFile, id: Id, now: nat)
    requires Acyclic(Plain(cf))
    ensures Acyclic(Plain(Deleted(cf, id, now)))
  {
    var r := Deleted(cf, id, now);
    forall n, d | d in Succ(Plain(r), n) ensures d in Succ(Plain(cf), n) {
      if n == id {
        DeleteLeavesNoReference(cf, id, now);
      } else {
        DeleteKeepsOthers(cf, id, now, n);
        var c := Get(cf, n).value;
        if id in c.dependencies {
          WithoutExact(c.dependencies, id);
        }
      }
    }
    AcyclicSubgraph(Plain(cf), Plain(r));
  }

  // ---------------------------------------------------------------------
  // updateComponent

  /** `updateComponent` refuses a dependency list that closes a cycle. */
  ghost predicate Refused(cf: CaseFile, id: Id, updates: Patch) {
    Get(cf, id).Some? && updates.dependencies.Some?
    && CycleReachable(Proposed(cf, id, updates.dependencies.value), id)
  }

  /** The case file a successful update leaves. */
  function Patched(cf: CaseFile, id: Id, c: Component, updates: Patch, now: nat): CaseFile {
    Put(cf, id, ApplyPatch(c, updates, now))
  }

  /** A patch that passes the cycle check keeps an acyclic case file
      acyclic: either the edges are unchanged, or they are the proposed
      ones, which the check found free of cycles. */
  lemma PatchKeepsAcyclic(cf: CaseFile, id: Id, c: Component, updates: Patch, now: nat)
    requires Get(cf, id) == Some(c) && Acyclic(Plain(cf)) && !Refused(cf, id, updates)
    ensures Acyclic(Plain(Patched(cf, id, c, updates, now)))
  {
    var r := Patched(cf, id, c, updates, now);
    PutGet(cf, id, ApplyPatch(c, updates, now));
    if updates.dependencies.Some? {
      var deps := updates.dependencies.value;
      ProposalCycleIff(cf, id, deps);
      assert forall n :: Succ(Plain(r), n) == Succ(Proposed(cf, id, deps), n);
      SameEdgesAcyclic(Plain(r), Proposed(cf, id, deps));
    } else {
      assert forall n :: Succ(Plain(r), n) == Succ(Plain(cf), n);
      SameEdgesAcyclic(Plain(r), Plain(cf));
    }
  }

  // ---------------------------------------------------------------------
  // Notifications

  /** A notification; the source takes both `id` and `timestamp` from the
      clock, so notifications raised in the same millisecond share an id. */
  datatype Notification = Notification(id: nat, message: string, kind: string, timestamp: nat)

  const INFO := "info"
  const SUCCESS := "success"
  const WARNING := "warning"
  const ERROR_KIND := "error"

  /** `notifications.filter(n => n.id !== notificationId)`. */
  function DropNotification(ns: seq<Notification>, id: nat): (r: seq<Notification>)
    ensures |r| <= |ns|
  {
    if ns == [] then [] else (if ns[0].id != id then [ns[0]] else []) + DropNotification(ns[1..], id)
  }

  /** Removal keeps every notification with another id, in order, and no
      notification with this one. */
  lemma {:induction false} DropNotificationExact(ns: seq<Notification>, id: nat)
    ensures forall n :: n in DropNotification(ns, id) <==> n in ns && n.id != id
    decreases |ns|
  {
    if ns != [] {
      DropNotificationExact(ns[1..], id);
      assert ns == [ns[0]] + ns[1..];
    }
  }

  lemma {:induction false} DropAppend(a: seq<Notification>, b: seq<Notification>, id: nat)
    ensures DropNotification(a + b, id) == DropNotification(a, id) + DropNotification(b, id)
    decreases |a|
  {
    if a == [] {
      assert a + b == b;
    } else {
      DropAppend(a[1..], b, id);
      assert (a + b)[0] == a[0] && (a + b)[1..] == a[1..] + b;
      var head := if a[0].id != id then [a[0]] else [];
      calc {
        DropNotification(a + b, id);
        head + DropNotification(a[1..] + b, id);
        head + (DropNotification(a[1..], id) + DropNotification(b, id));
        (head + DropNotification(a[1..], id)) + DropNotification(b, id);
      }
    }
  }

  /** Dismissing a new notification also dismisses every older one raised
      in the same millisecond. */
  lemma DismissSharedId(ns: seq<Notification>, n: Notification)
    ensures DropNotification(ns + [n], n.id) == DropNotification(ns, n.id)
  {
    DropAppend(ns, [n], n.id);
  }

  // ---------------------------------------------------------------------
  // generateAIContent

  const MsgInFlight := "Content generation already in progress for this component"
  const MsgComponentNotFound := "Component not found"
  const MsgGenerationKeyRequired := "OpenAI API key required for content generation"
  const MsgGenerationInputRequired := "User input is required for content generation"
  const MsgGenerated := "Content generated successfully!"

  /** The notification, if any, with which `generateAIContent` gives up
      before starting: the guards in the order the source tests them. */
  function GenerationGuard(inFlight: bool, component: Option<Component>, hasKey: bool): (r: Option<(string, string)>)
    ensures r.None? <==> !inFlight && component.Some? && hasKey && !IsBlank(component.value.userInput)
    ensures inFlight ==> r == Some((MsgInFlight, WARNING))
    ensures r.Some? && !inFlight ==> r.value.1 == ERROR_KIND
  {
    if inFlight then Some((MsgInFlight, WARNING))
    else if component.None? then Some((MsgComponentNotFound, ERROR_KIND))
    else if !hasKey then Some((MsgGenerationKeyRequired, ERROR_KIND))
    else if IsBlank(component.value.userInput) then Some((MsgGenerationInputRequired, ERROR_KIND))
    else None
  }

  function StatusPatch(status: string): Patch {
    EmptyPatch.(status := Some(status))
  }

  /** The update a finished request makes: the content on success, the
      error status on failure. */
  function FinishPatch(outcome: Result<string>): (p: Patch)
    ensures p.dependencies.None?
    ensures p.status == Some(if outcome.Success? then GENERATED else ERROR)
  {
    match outcome
    case Success(content) => StatusPatch(GENERATED).(aiGeneratedContent := Some(content))
    case Failure(_) => StatusPatch(ERROR)
  }

  const AdviceKey := "Invalid API key. Please check your OpenAI configuration."
  const AdviceRateLimit := "API rate limit exceeded. Please try again later."
  const AdviceTooLarge := "Context too large. Try reducing dependencies or input length."
  const AdviceNetwork := "Network error. Please check your internet connection."
  const AdviceGeneric := "Failed to generate content"

  /** The message shown for a failed generation: the first matching
      substring of the error's message decides. */
  function ClassifyGenerationError(message: string): string {
    if Contains(message, "API key") then AdviceKey
    else if Contains(message, "rate limit") then AdviceRateLimit
    else if Contains(message, "too large") then AdviceTooLarge
    else if Contains(message, "network") || Contains(message, "fetch") then AdviceNetwork
    else AdviceGeneric
  }

  /** A missing key and a rejected key both read as an invalid key. */
  lemma ClassifyKeyErrors()
    ensures ClassifyGenerationError(MsgKeyNotFound) == AdviceKey
    ensures ClassifyGenerationError(MsgUnauthorized) == AdviceKey
  {
    assert MatchAt(MsgKeyNotFound, "API key", 7);
    assert MatchAt(MsgUnauthorized, "API key", 8);
  }

  lemma ClassifyRateLimited()
    ensures ClassifyGenerationError(MsgRateLimited) == AdviceRateLimit
  {
    AbsentCharNotContains(MsgRateLimited, "API key", 4);
    assert MatchAt(MsgRateLimited, "rate limit", 4);
  }

  lemma TooLargeLacksRateLimit()
    ensures !Contains(MsgContextTooLarge, "rate limit")
  {
    var m := MsgContextTooLarge;
    NoMatchByAbsentChar(m, "rate limit", 7, 0, 34);
    NoMatchByAbsentChar(m, "rate limit", 5, 34, 82);
    NotContainsIfNoMatch(m, "rate limit", 82);
  }

  lemma ClassifyContextTooLarge()
    ensures ClassifyGenerationError(MsgContextTooLarge) == AdviceTooLarge
  {
    AbsentCharNotContains(MsgContextTooLarge, "API key", 0);
    TooLargeLacksRateLimit();
    assert MatchAt(MsgContextTooLarge, "too large", 11);
  }

  lemma TimeoutLacksRateLimit()
    ensures !Contains(MsgTimeout, "rate limit")
  {
    NoMatchByAbsentChar(MsgTimeout, "rate limit", 0, 0, 14);
    NoMatchByAbsentChar(MsgTimeout, "rate limit", 0, 14, 27);
    NotContainsIfNoMatch(MsgTimeout, "rate limit", 27);
  }

  lemma TimeoutLacksTooLarge()
    ensures !Contains(MsgTimeout, "too large")
  {
    NoMatchByAbsentChar(MsgTimeout, "too large", 7, 0, 24);
    NoMatchByAbsentChar(MsgTimeout, "too large", 1, 24, 28);
    NotContainsIfNoMatch(MsgTimeout, "too large", 28);
  }

  /** A request aborted by the timer matches none of the substrings: the
      user sees the generic message, not the timeout. */
  lemma ClassifyTimeout()
    ensures ClassifyGenerationError(MsgTimeout) == AdviceGeneric
  {
    AbsentCharNotContains(MsgTimeout, "API key", 0);
    TimeoutLacksRateLimit();
    TimeoutLacksTooLarge();
    AbsentCharNotContains(MsgTimeout, "network", 3);
    AbsentCharNotContains(MsgTimeout, "fetch", 0);
  }

  /** A failed `fetch` ("Failed to fetch") reads as a network error. */
  lemma ClassifyFetchFailure()
    ensures ClassifyGenerationError("Failed to fetch") == AdviceNetwork
  {
    var m := "Failed to fetch";
    AbsentCharNotContains(m, "API key", 0);
    AbsentCharNotContains(m, "rate limit", 7);
    AbsentCharNotContains(m, "too large", 7);
    assert MatchAt(m, "fetch", 10);
  }

  // ---------------------------------------------------------------------
  // runConsistencyCheck and the report

  const MsgAnalysisKeyRequired := "OpenAI API key required for consistency analysis"
  const MsgNothingToAnalyze := "Please add some content to analyze for inconsistencies"
  const MsgAnalyzing := "Analyzing case for inconsistencies..."
  const MsgConsistent := "No inconsistencies found! Your case appears consistent."
  const MsgAnalysisFailed := "Failed to analyze consistency"

  /** `components.some(c => c.aiGeneratedContent || c.userInput)`. */
  predicate HasContent(cs: seq<Component>) {
    exists i :: 0 <= i < |cs| && (cs[i].aiGeneratedContent != "" || cs[i].userInput != "")
  }

  function FoundMessage(n: nat): string {
    "Found " + NatToString(n) + " potential inconsistencies"
  }

  /** The analysis result the store keeps and shows. */
  datatype Report = Report(inconsistencies: seq<Issue>, analyzedAt: nat, showModal: bool)

  /** `inconsistencies.map(issue => issue.id === issueId ? {...issue, status} : issue)`. */
  function SetIssueStatus(issues: seq<Issue>, issueId: string, status: string): (r: seq<Issue>)
    ensures |r| == |issues|
  {
    if issues == [] then []
    else
      var first := if issues[0].id == issueId then issues[0].(status := status) else issues[0];
      [first] + SetIssueStatus(issues[1..], issueId, status)
  }

  /** Only the issues with that id change, and only in their status. */
  lemma {:induction false} SetIssueStatusExact(issues: seq<Issue>, issueId: string, status: string)
    ensures forall i :: 0 <= i < |issues| ==>
      SetIssueStatus(issues, issueId, status)[i]
        == if issues[i].id == issueId then issues[i].(status := status) else issues[i]
    decreases |issues|
  {
    if issues != [] {
      SetIssueStatusExact(issues[1..], issueId, status);
    }
  }

  /** The number of issues with that id. */
  function IdCount(issues: seq<Issue>, issueId: string): (n: nat)
    ensures n <= |issues|
  {
    if issues == [] then 0
    else (if issues[0].id == issueId then 1 else 0) + IdCount(issues[1..], issueId)
  }

  /** The number of issues with that id and that status. */
  function IdStatusCount(issues: seq<Issue>, issueId: string, status: string): (n: nat)
    ensures n <= IdCount(issues, issueId) && n <= Count(issues, status)
  {
    if issues == [] then 0
    else
      var here := if issues[0].id == issueId && issues[0].status == status then 1 else 0;
      here + IdStatusCount(issues[1..], issueId, status)
  }

  /** Setting a status takes the issues with that id out of the count of
      their old status and adds them all to the count of the new one; every
      other count, and the total, stay as they were. */
  lemma {:induction false} SetIssueStatusCounts(issues: seq<Issue>, issueId: string, status: string, s: string)
    ensures Count(SetIssueStatus(issues, issueId, status), s) + IdStatusCount(issues, issueId, s)
         == Count(issues, s) + (if s == status then IdCount(issues, issueId) else 0)
    ensures |SetIssueStatus(issues, issueId, status)| == |issues|
    decreases |issues|
  {
    if issues != [] {
      SetIssueStatusCounts(issues[1..], issueId, status, s);
      var first := if issues[0].id == issueId then issues[0].(status := status) else issues[0];
      var rest := SetIssueStatus(issues[1..], issueId, status);
      assert ([first] + rest)[0] == first && ([first] + rest)[1..] == rest;
    }
  }

  /** When every issue with that id has status a, the issues with that id
      and status s are all of them for s == a and none otherwise. */
  lemma {:induction false} IdStatusCountUniform(issues: seq<Issue>, issueId: string, a: string, s: string)
    requires forall j :: 0 <= j < |issues| && issues[j].id == issueId ==> issues[j].status == a
    ensures IdStatusCount(issues, issueId, s) == if s == a then IdCount(issues, issueId) else 0
    decreases |issues|
  {
    if issues != [] {
      IdStatusCountUniform(issues[1..], issueId, a, s);
    }
  }

  /** Resolving the one pending issue with that id moves one issue from
      pending to resolved in the summary shown by the report; the total
      and the dismissed count stay. */
  lemma ResolveOnePendingSummary(issues: seq<Issue>, issueId: string)
    requires IdCount(issues, issueId) == 1
    requires forall j :: 0 <= j < |issues| && issues[j].id == issueId ==> issues[j].status == PENDING
    ensures var before, after := SummaryOf(issues), SummaryOf(SetIssueStatus(issues, issueId, RESOLVED));
      && after.total == before.total && after.dismissed == before.dismissed
      && after.resolved == before.resolved + 1 && after.pending + 1 == before.pending
  {
    SetIssueStatusCounts(issues, issueId, RESOLVED, RESOLVED);
    SetIssueStatusCounts(issues, issueId, RESOLVED, PENDING);
    SetIssueStatusCounts(issues, issueId, RESOLVED, DISMISSED);
    IdStatusCountUniform(issues, issueId, PENDING, RESOLVED);
    IdStatusCountUniform(issues, issueId, PENDING, PENDING);
    IdStatusCountUniform(issues, issueId, PENDING, DISMISSED);
  }
}
