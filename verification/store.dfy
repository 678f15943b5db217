/** The zustand store of src/store.js as a class: the case file, its undo
    history, the selection, the notifications, the requests in flight and
    the consistency report, with one method per action. The clock, the key
    slot, local storage and the network are parameters of the actions that
    read them. */
module Store {
  import opened Wrappers
  import opened Text
  import opened ComponentModel
  import opened CaseFiles
  import opened DependencyGraph
  import opened CycleCheck
  import opened ComponentQueries
  import opened Consistency
  import opened OpenAI
  import opened History
  import opened StoreRules

  const MsgCircular := "Cannot create dependency. This would cause a circular reference."
  const MsgSaveFailed := "Failed to save data locally"
  const MsgImported := "Case file imported successfully"
  const MsgImportFailed := "Failed to import case file"

  /** What `autoSave` writes to local storage: the entries and the time. */
  datatype Saved = Saved(caseFile: seq<Entry>, timestamp: nat)

  /** The fields outside the document and its history, grouped so that an
      action can say in one line that it leaves them alone. */
  datatype Session = Session(
    currentComponentId: Option<Id>,
    searchQuery: string,
    isGenerating: bool,
    lastSaveTimestamp: Option<nat>,
    activeGenerationRequests: set<Id>,
    consistencyReport: Option<Report>)

  class CaseStore {
    var caseFile: CaseFile
    var history: seq<CaseFile>
    var historyIndex: int
    var currentComponentId: Option<Id>
    var searchQuery: string
    var isGenerating: bool
    var lastSaveTimestamp: Option<nat>
    var notifications: seq<Notification>
    var activeGenerationRequests: set<Id>
    var consistencyReport: Option<Report>

    /** The document and its history. */
    function Versions(): Timeline
      reads this
    {
      Timeline(caseFile, history, historyIndex)
    }

    function CurrentSession(): Session
      reads this
    {
      Session(currentComponentId, searchQuery, isGenerating, lastSaveTimestamp, activeGenerationRequests, consistencyReport)
    }

    /** The history is well formed, and the case file and every snapshot
        are maps: each id at most once. */
    ghost predicate Valid()
      reads this
    {
      WellFormed(Versions()) && KeysUnique(caseFile)
      && forall s :: s in history ==> KeysUnique(s)
    }

    /** The store as the module creates it. */
    constructor ()
      ensures Valid() && Versions() == Initial
      ensures CurrentSession() == Session(None, "", false, None, {}, None)
      ensures notifications == []
    {
      caseFile := [];
      history := [];
      historyIndex := -1;
      currentComponentId := None;
      searchQuery := "";
      isGenerating := false;
      lastSaveTimestamp := None;
      notifications := [];
      activeGenerationRequests := {};
      consistencyReport := None;
    }

    /** The history step shared by add, update and delete: keep the
        snapshots up to the position, push the case file as it was, move to
        the end, and install `next`. */
    method Record(next: CaseFile)
      requires Valid() && KeysUnique(next)
      modifies this
      ensures Valid() && Versions() == Commit(old(Versions()), next)
      ensures CurrentSession() == old(CurrentSession()) && notifications == old(notifications)
    {
      history := history[..historyIndex + 1] + [caseFile];
      historyIndex := |history| - 1;
      caseFile := next;
    }

    /** `addNotification(message, type)`: the id and the timestamp both
        come from the clock. */
    method AddNotification(message: string, kind: string, now: nat)
      modifies this
      ensures notifications == old(notifications) + [Notification(now, message, kind, now)]
      ensures Versions() == old(Versions()) && CurrentSession() == old(CurrentSession())
    {
      notifications := notifications + [Notification(now, message, kind, now)];
    }

    /** `removeNotification(id)`: every notification with that id goes. */
    method RemoveNotification(id: nat)
      modifies this
      ensures notifications == DropNotification(old(notifications), id)
      ensures forall n :: n in notifications <==> n in old(notifications) && n.id != id
      ensures Versions() == old(Versions()) && CurrentSession() == old(CurrentSession())
    {
      DropNotificationExact(notifications, id);
      notifications := DropNotification(notifications, id);
    }

    /** `addComponent(component)`: the stored component is the defaults
        overridden by whatever the caller supplied, under the supplied id or
        one made from the type and the clock; an existing entry with that id
        is overwritten in place. The new component becomes the current one. */
    method AddComponent(d: Draft, now: nat)
      requires Valid()
      modifies this
      ensures Valid()
      ensures Versions() == Commit(old(Versions()), Put(old(caseFile), Materialize(d, now).id, Materialize(d, now)))
      ensures Get(caseFile, Materialize(d, now).id) == Some(Materialize(d, now))
      ensures forall k :: k != Materialize(d, now).id ==> Get(caseFile, k) == Get(old(caseFile), k)
      ensures CurrentSession() == old(CurrentSession()).(currentComponentId := Some(Materialize(d, now).id))
      ensures notifications == old(notifications)
    {
      var component := Materialize(d, now);
      PutUnique(caseFile, component.id, component);
      PutGet(caseFile, component.id, component);
      Record(Put(caseFile, component.id, component));
      currentComponentId := Some(component.id);
    }

    /** `updateComponent(id, updates)`: nothing for an unknown id; a
        notification and nothing else for a dependency list that would close
        a cycle; otherwise the component's fields overridden by the patch,
        with a new time, and one history step. */
    method UpdateComponent(id: Id, updates: Patch, now: nat)
      requires Valid()
      modifies this
      ensures Valid() && CurrentSession() == old(CurrentSession())
      ensures Get(old(caseFile), id).None? ==>
        Versions() == old(Versions()) && notifications == old(notifications)
      ensures Refused(old(caseFile), id, updates) ==>
        Versions() == old(Versions())
        && notifications == old(notifications) + [Notification(now, MsgCircular, ERROR_KIND, now)]
      ensures Get(old(caseFile), id).Some? && !Refused(old(caseFile), id, updates) ==>
        Versions() == Commit(old(Versions()), Patched(old(caseFile), id, Get(old(caseFile), id).value, updates, now))
        && notifications == old(notifications)
      ensures Acyclic(Plain(old(caseFile))) ==> Acyclic(Plain(caseFile))
    {
      var found := Get(caseFile, id);
      if found.None? {
        return;
      }
      if updates.dependencies.Some? {
        var cyclic := HasCircularDependency(caseFile, id, updates.dependencies.value);
        if cyclic {
          AddNotification(MsgCircular, ERROR_KIND, now);
          return;
        }
      }
      ghost var before := caseFile;
      PutUnique(caseFile, id, ApplyPatch(found.value, updates, now));
      Record(Patched(caseFile, id, found.value, updates, now));
      if Acyclic(Plain(before)) {
        PatchKeepsAcyclic(before, id, found.value, updates, now);
      }
    }

    /** The back-reference loop of `deleteComponent`, over the copied map
        with the component already removed: each entry listing the id is
        rewritten where it stands. */
    method PruneReferences(rest: CaseFile, id: Id, now: nat) returns (pruned: CaseFile)
      ensures pruned == Prune(rest, id, now)
    {
      pruned := rest;
      for i := 0 to |rest|
        invariant |pruned| == |rest|
        invariant forall j :: 0 <= j < i ==> pruned[j] == PruneEntry(rest[j], id, now)
        invariant forall j :: i <= j < |rest| ==> pruned[j] == rest[j]
      {
        var e := rest[i];
        if id in e.comp.dependencies {
          pruned := pruned[i := Entry(e.key, e.comp.(dependencies := Without(e.comp.dependencies, id), lastUpdated := now))];
        }
      }
    }

    /** `deleteComponent(id)`: the entry goes, every other component stops
        listing it, a history step is taken even when the id was absent,
        and the selection is cleared only when it was this component. */
    method DeleteComponent(id: Id, now: nat)
      requires Valid()
      modifies this
      ensures Valid()
      ensures Versions() == Commit(old(Versions()), Deleted(old(caseFile), id, now))
      ensures id !in Keys(caseFile) && forall e :: e in caseFile ==> id !in e.comp.dependencies
      ensures currentComponentId == if old(currentComponentId) == Some(id) then None else old(currentComponentId)
      ensures CurrentSession() == old(CurrentSession()).(currentComponentId := currentComponentId)
      ensures notifications == old(notifications)
      ensures Acyclic(Plain(old(caseFile))) ==> Acyclic(Plain(caseFile))
    {
      ghost var before := caseFile;
      var rest := Remove(caseFile, id);
      var next := PruneReferences(rest, id, now);
      PruneKeys(rest, id, now);
      DeleteLeavesNoReference(before, id, now);
      Record(next);
      if currentComponentId == Some(id) {
        currentComponentId := None;
      }
      if Acyclic(Plain(before)) {
        DeleteKeepsAcyclic(before, id, now);
      }
    }

    /** `undo`. */
    method Undo()
      requires Valid()
      modifies this
      ensures Valid() && Versions() == History.Undo(old(Versions()))
      ensures CurrentSession() == old(CurrentSession()) && notifications == old(notifications)
    {
      if historyIndex > 0 {
        historyIndex := historyIndex - 1;
        caseFile := history[historyIndex];
      }
    }

    /** `redo`. */
    method Redo()
      requires Valid()
      modifies this
      ensures Valid() && Versions() == History.Redo(old(Versions()))
      ensures CurrentSession() == old(CurrentSession()) && notifications == old(notifications)
    {
      if historyIndex < |history| - 1 {
        historyIndex := historyIndex + 1;
        caseFile := history[historyIndex];
      }
    }

    method SetCurrentComponent(id: Option<Id>)
      modifies this
      ensures CurrentSession() == old(CurrentSession()).(currentComponentId := id)
      ensures Versions() == old(Versions()) && notifications == old(notifications)
    {
      currentComponentId := id;
    }

    method SetSearchQuery(query: string)
      modifies this
      ensures CurrentSession() == old(CurrentSession()).(searchQuery := query)
      ensures Versions() == old(Versions()) && notifications == old(notifications)
    {
      searchQuery := query;
    }

    method SetGenerating(generating: bool)
      modifies this
      ensures CurrentSession() == old(CurrentSession()).(isGenerating := generating)
      ensures Versions() == old(Versions()) && notifications == old(notifications)
    {
      isGenerating := generating;
    }

    /** `autoSave`: with a successful write the saved data are the entries
        and the time, which becomes the last save time; a failed write
        only raises a notification. */
    method AutoSave(now: nat, writeOk: bool) returns (saved: Option<Saved>)
      modifies this
      ensures writeOk ==> (
        saved == Some(Saved(caseFile, now))
        && CurrentSession() == old(CurrentSession()).(lastSaveTimestamp := Some(now))
        && notifications == old(notifications))
      ensures !writeOk ==> (
        saved.None? && CurrentSession() == old(CurrentSession())
        && notifications == old(notifications) + [Notification(now, MsgSaveFailed, ERROR_KIND, now)])
      ensures Versions() == old(Versions())
    {
      if writeOk {
        saved := Some(Saved(caseFile, now));
        lastSaveTimestamp := Some(now);
      } else {
        AddNotification(MsgSaveFailed, ERROR_KIND, now);
        saved := None;
      }
    }

    /** `loadFromStorage`: saved data replace the case file, which becomes
        the only snapshot; without saved data nothing changes. */
    method LoadFromStorage(stored: Option<Saved>) returns (loaded: bool)
      requires Valid()
      modifies this
      ensures Valid() && loaded == stored.Some? && notifications == old(notifications)
      ensures loaded ==> (
        Versions() == Loaded(FromEntries(stored.value.caseFile))
        && CurrentSession() == old(CurrentSession()).(lastSaveTimestamp := Some(stored.value.timestamp)))
      ensures !loaded ==> Versions() == old(Versions()) && CurrentSession() == old(CurrentSession())
    {
      if stored.None? {
        return false;
      }
      caseFile := FromEntries(stored.value.caseFile);
      history := [caseFile];
      historyIndex := 0;
      lastSaveTimestamp := Some(stored.value.timestamp);
      loaded := true;
    }

    /** `importCaseFile`, once the file is read and decoded: the decoded
        entries replace the case file and the old one is appended to the
        whole history; a file that does not decode only raises an error. */
    method ImportCaseFile(decoded: Option<seq<Entry>>, now: nat)
      requires Valid()
      modifies this
      ensures Valid() && CurrentSession() == old(CurrentSession())
      ensures decoded.Some? ==> (
        Versions() == Import(old(Versions()), FromEntries(decoded.value))
        && notifications == old(notifications) + [Notification(now, MsgImported, SUCCESS, now)])
      ensures decoded.None? ==> (
        Versions() == old(Versions())
        && notifications == old(notifications) + [Notification(now, MsgImportFailed, ERROR_KIND, now)])
    {
      if decoded.None? {
        AddNotification(MsgImportFailed, ERROR_KIND, now);
        return;
      }
      var next := FromEntries(decoded.value);
      history := history + [caseFile];
      historyIndex := |history| - 1;
      caseFile := next;
      AddNotification(MsgImported, SUCCESS, now);
    }

    /** `clearAllData`: back to the empty document with no selection, no
        query and no notifications; the flags, the save time, the requests
        in flight and the report stay. */
    method ClearAllData()
      modifies this
      ensures Valid() && Versions() == Initial && notifications == []
      ensures CurrentSession() == old(CurrentSession()).(currentComponentId := None, searchQuery := "")
    {
      caseFile := [];
      history := [];
      historyIndex := -1;
      currentComponentId := None;
      searchQuery := "";
      notifications := [];
    }

    /** The synchronous part of `generateAIContent(id)` up to the request:
        the guards, each ending in a notification and no other change; then
        the id is marked in flight, the flag set, the component marked
        GENERATING, and the component and its dependency chain, both taken
        from the case file as it was, returned for the request. */
    method BeginGeneration(id: Id, keys: KeyStore, now: nat) returns (request: Option<(Component, seq<Component>)>)
      requires Valid()
      modifies this
      ensures Valid()
      ensures request.Some? <==> (
        id !in old(activeGenerationRequests) && Get(old(caseFile), id).Some?
        && keys.HasApiKey() && !IsBlank(Get(old(caseFile), id).value.userInput))
      ensures request.Some? ==> activeGenerationRequests == old(activeGenerationRequests) + {id}
      ensures request.None? ==> activeGenerationRequests == old(activeGenerationRequests)
      ensures id in old(activeGenerationRequests) ==> (
        Versions() == old(Versions()) && CurrentSession() == old(CurrentSession())
        && notifications == old(notifications) + [Notification(now, MsgInFlight, WARNING, now)])
      ensures
        var guard := GenerationGuard(id in old(activeGenerationRequests), Get(old(caseFile), id), keys.HasApiKey());
        (guard.Some? ==>
          request.None? && Versions() == old(Versions()) && CurrentSession() == old(CurrentSession())
          && notifications == old(notifications) + [Notification(now, guard.value.0, guard.value.1, now)])
        && (guard.None? ==>
          request == Some((Get(old(caseFile), id).value, Chain(old(caseFile), id, {})))
          && Versions() == Commit(old(Versions()), Patched(old(caseFile), id, Get(old(caseFile), id).value, StatusPatch(GENERATING), now))
          && CurrentSession() == old(CurrentSession()).(isGenerating := true, activeGenerationRequests := old(activeGenerationRequests) + {id})
          && notifications == old(notifications))
    {
      var found := Get(caseFile, id);
      var guard := GenerationGuard(id in activeGenerationRequests, found, keys.HasApiKey());
      if guard.Some? {
        AddNotification(guard.value.0, guard.value.1, now);
        return None;
      }
      var before := caseFile;
      activeGenerationRequests := activeGenerationRequests + {id};
      isGenerating := true;
      UpdateComponent(id, StatusPatch(GENERATING), now);
      var chain := GetDependencyChain(id, before, {});
      request := Some((found.value, chain));
    }

    /** The rest of `generateAIContent(id)` once the request has ended:
        a component deleted meanwhile is not written; otherwise success
        stores the content as GENERATED and failure marks it ERROR. Success
        on a live component and every failure raise a notification, the
        failure's text chosen by the classifier. On every path the id leaves
        the requests in flight and the flag is cleared. */
    method FinishGeneration(id: Id, outcome: Result<string>, now: nat)
      requires Valid()
      modifies this
      ensures Valid()
      ensures id !in activeGenerationRequests
      ensures CurrentSession() == old(CurrentSession()).(isGenerating := false, activeGenerationRequests := old(activeGenerationRequests) - {id})
      ensures Get(old(caseFile), id).None? ==> Versions() == old(Versions())
      ensures Get(old(caseFile), id).Some? ==>
        Versions() == Commit(old(Versions()), Patched(old(caseFile), id, Get(old(caseFile), id).value, FinishPatch(outcome), now))
      ensures outcome.Success? ==> (
        notifications == old(notifications)
          + (if Get(old(caseFile), id).Some? then [Notification(now, MsgGenerated, SUCCESS, now)] else []))
      ensures outcome.Failure? ==> (
        notifications == old(notifications) + [Notification(now, ClassifyGenerationError(outcome.error), ERROR_KIND, now)])
    {
      var present := Get(caseFile, id).Some?;
      if present {
        UpdateComponent(id, FinishPatch(outcome), now);
      }
      if outcome.Success? && present {
        AddNotification(MsgGenerated, SUCCESS, now);
      } else if outcome.Failure? {
        AddNotification(ClassifyGenerationError(outcome.error), ERROR_KIND, now);
      }
      activeGenerationRequests := activeGenerationRequests - {id};
      isGenerating := false;
    }

    /** `runConsistencyCheck`, with the analysis's outcome as an input: no
        key or no content ends with a notification; otherwise issues found
        open the report, none found says so, and a failure shows its
        message or a fallback. The flag is cleared at the end. */
    method RunConsistencyCheck(keys: KeyStore, analysis: Result<(seq<Issue>, nat)>, now: nat)
      modifies this
      ensures Versions() == old(Versions())
      ensures !keys.HasApiKey() ==> (
        CurrentSession() == old(CurrentSession())
        && notifications == old(notifications) + [Notification(now, MsgAnalysisKeyRequired, ERROR_KIND, now)])
      ensures keys.HasApiKey() && !HasContent(Values(caseFile)) ==> (
        CurrentSession() == old(CurrentSession())
        && notifications == old(notifications) + [Notification(now, MsgNothingToAnalyze, WARNING, now)])
      ensures keys.HasApiKey() && HasContent(Values(caseFile)) ==>
        |notifications| == |old(notifications)| + 2
        && notifications[..|old(notifications)| + 1] == old(notifications) + [Notification(now, MsgAnalyzing, INFO, now)]
        && CurrentSession() == old(CurrentSession()).(isGenerating := false, consistencyReport := consistencyReport)
        && (analysis.Success? && |analysis.value.0| > 0 ==>
              consistencyReport == Some(Report(analysis.value.0, analysis.value.1, true))
              && notifications[|old(notifications)| + 1] == Notification(now, FoundMessage(|analysis.value.0|), WARNING, now))
        && (analysis.Success? && |analysis.value.0| == 0 ==>
              consistencyReport == old(consistencyReport)
              && notifications[|old(notifications)| + 1] == Notification(now, MsgConsistent, SUCCESS, now))
        && (analysis.Failure? ==>
              consistencyReport == old(consistencyReport)
              && notifications[|old(notifications)| + 1]
                 == Notification(now, if analysis.error == "" then MsgAnalysisFailed else analysis.error, ERROR_KIND, now))
    {
      if !keys.HasApiKey() {
        AddNotification(MsgAnalysisKeyRequired, ERROR_KIND, now);
        return;
      }
      if !HasContent(Values(caseFile)) {
        AddNotification(MsgNothingToAnalyze, WARNING, now);
        return;
      }
      isGenerating := true;
      AddNotification(MsgAnalyzing, INFO, now);
      match analysis {
        case Success((issues, analyzedAt)) =>
          if |issues| > 0 {
            consistencyReport := Some(Report(issues, analyzedAt, true));
            AddNotification(FoundMessage(|issues|), WARNING, now);
          } else {
            AddNotification(MsgConsistent, SUCCESS, now);
          }
        case Failure(message) =>
          AddNotification(if message == "" then MsgAnalysisFailed else message, ERROR_KIND, now);
      }
      isGenerating := false;
    }

    /** `updateConsistencyStatus(issueId, status)`: without a report nothing
        happens; with one, the matching issues get the new status. */
    method UpdateConsistencyStatus(issueId: string, status: string)
      modifies this
      ensures Versions() == old(Versions()) && notifications == old(notifications)
      ensures old(consistencyReport).None? ==> CurrentSession() == old(CurrentSession())
      ensures old(consistencyReport).Some? ==> CurrentSession() == old(CurrentSession()).(consistencyReport :=
        Some(old(consistencyReport).value.(inconsistencies := SetIssueStatus(old(consistencyReport).value.inconsistencies, issueId, status))))
    {
      if consistencyReport.Some? {
        var report := consistencyReport.value;
        consistencyReport := Some(report.(inconsistencies := SetIssueStatus(report.inconsistencies, issueId, status)));
      }
    }

    /** `closeConsistencyReport`: the report stays but is hidden. */
    method CloseConsistencyReport()
      modifies this
      ensures Versions() == old(Versions()) && notifications == old(notifications)
      ensures CurrentSession() == old(CurrentSession()).(consistencyReport :=
        if old(consistencyReport).Some? then Some(old(consistencyReport).value.(showModal := false)) else None)
    {
      if consistencyReport.Some? {
        consistencyReport := Some(consistencyReport.value.(showModal := false));
      }
    }
  }
}
