/** The editing panel of src/components/DetailView.jsx: the local copy of the
    selected component's fields, the unsaved-changes indicator, the image URL
    check, and the save, delete and dependency-toggle handlers. The `URL`
    constructor is abstracted to the protocol it would report (None when it
    would throw); the confirmation dialog is a boolean parameter. */
module DetailView {
  import opened Wrappers
  import opened Seqs
  import opened Text
  import opened Ordering
  import opened ComponentModel
  import opened CaseFiles
  import opened ComponentQueries
  import opened StoreRules
  import opened History
  import Store

  // The notices, spelled in short pieces: the verifier reads a concatenation
  // of short literals far more cheaply than one long literal; the joined text
  // is the source's, character for character.
  const MsgBadProtocol := "URL must start " + "with http:// or https://"
  const MsgInvalidUrl := "Please enter " + "a valid URL"
  const MsgFixImageUrl := "Please fix the image URL " + "error before saving"
  const MsgSaved := "Component saved " + "successfully"
  const MsgDeleted := "Component deleted " + "successfully"

  /** The panel's local state: the edited fields, the selected
      dependencies and the current image URL error ("" for none). */
  datatype Editor = Editor(
    title: string,
    content: string,
    imageUrl: string,
    imageAltText: string,
    selected: seq<Id>,
    imageUrlError: string)

  /** The component the panel shows: the store's current id, when it is set
      and not empty, looked up in the case file. */
  function Shown(store: Store.CaseStore): Option<Component>
    reads store
  {
    if store.currentComponentId.Some? && store.currentComponentId.value != "" then
      Get(store.caseFile, store.currentComponentId.value)
    else None
  }

  /** The local state after the panel syncs with a newly shown component:
      missing text fields become "", the dependencies are copied and the
      error is cleared. */
  function Synced(c: Component): (e: Editor)
    ensures e.selected == c.dependencies && e.imageUrlError == ""
    ensures e.content == c.content.GetOr("") && e.imageUrl == c.imageUrl.GetOr("")
  {
    Editor(c.title, c.content.GetOr(""), c.imageUrl.GetOr(""), c.imageAltText.GetOr(""), c.dependencies, "")
  }

  /** The local state when no component is shown. */
  const Cleared := Editor("", "", "", "", [], "")

  // ---------------------------------------------------------------------
  // validateImageUrl

  predicate WebProtocol(protocol: Option<string>) {
    protocol == Some("http:") || protocol == Some("https:")
  }

  /** `validateImageUrl(url)`: whether the URL is accepted and the error the
      panel then shows. `protocol` is what `new URL(url).protocol` would
      give, None when the constructor would throw. */
  function ValidateImageUrl(url: string, protocol: Option<string>): (r: (bool, string))
    ensures r.1 in {"", MsgBadProtocol, MsgInvalidUrl}
  {
    if IsBlank(url) then (true, "")
    else if protocol.None? then (false, MsgInvalidUrl)
    else if !WebProtocol(protocol) then (false, MsgBadProtocol)
    else (true, "")
  }

  /** A URL is accepted exactly when it is blank or has the http: or https:
      protocol, and the error shown is empty exactly when it is accepted. */
  lemma ImageUrlVerdict(url: string, protocol: Option<string>)
    ensures ValidateImageUrl(url, protocol).0 <==> IsBlank(url) || WebProtocol(protocol)
    ensures ValidateImageUrl(url, protocol).1 == "" <==> ValidateImageUrl(url, protocol).0
    ensures !IsBlank(url) && protocol.None? ==> ValidateImageUrl(url, protocol).1 == MsgInvalidUrl
  {
    assert |MsgBadProtocol| > 0 && |MsgInvalidUrl| > 0;
  }

  /** `handleImageUrlChange(url)`: the URL is stored and its error recorded. */
  function ImageUrlChanged(e: Editor, url: string, protocol: Option<string>): (r: Editor)
    ensures r.imageUrl == url && r == e.(imageUrl := url, imageUrlError := r.imageUrlError)
    ensures r.imageUrlError == "" <==> IsBlank(url) || WebProtocol(protocol)
  {
    ImageUrlVerdict(url, protocol);
    e.(imageUrl := url, imageUrlError := ValidateImageUrl(url, protocol).1)
  }

  // ---------------------------------------------------------------------
  // The unsaved-changes indicator and the save patch

  /** The content comparison as the source writes it: the local text
      against the stored property, which a component made from the sidebar
      lacks altogether. */
  predicate ContentChangedAsWritten(e: Editor, c: Component) {
    Some(e.content) != c.content
  }

  /** The content comparison as the image fields do it: a missing property
      counts as "". */
  predicate ContentChanged(e: Editor, c: Component) {
    e.content != c.content.GetOr("")
  }

  /** The dependency comparison: sorted copies of both lists. */
  predicate DependenciesChanged(e: Editor, c: Component) {
    SortStrings(e.selected) != SortStrings(c.dependencies)
  }

  /** The indicator as written. */
  predicate HasChangesAsWritten(e: Editor, c: Component) {
    e.title != c.title || ContentChangedAsWritten(e, c)
    || e.imageUrl != c.imageUrl.GetOr("") || e.imageAltText != c.imageAltText.GetOr("")
    || DependenciesChanged(e, c)
  }

  /** The indicator with the content compared as the image fields are. */
  predicate HasChanges(e: Editor, c: Component) {
    e.title != c.title || ContentChanged(e, c)
    || e.imageUrl != c.imageUrl.GetOr("") || e.imageAltText != c.imageAltText.GetOr("")
    || DependenciesChanged(e, c)
  }

  /** The `updates` object of `handleSave`, given whether the content counts
      as changed: one property per changed field; the dependencies are the
      selection as `sort()` leaves it. */
  function PatchOf(e: Editor, c: Component, contentChanged: bool): Patch {
    EmptyPatch.(
      title := if e.title != c.title then Some(e.title) else None,
      content := if contentChanged then Some(e.content) else None,
      imageUrl := if e.imageUrl != c.imageUrl.GetOr("") then Some(e.imageUrl) else None,
      imageAltText := if e.imageAltText != c.imageAltText.GetOr("") then Some(e.imageAltText) else None,
      dependencies := if DependenciesChanged(e, c) then Some(SortStrings(e.selected)) else None)
  }

  function SavePatchAsWritten(e: Editor, c: Component): Patch {
    PatchOf(e, c, ContentChangedAsWritten(e, c))
  }

  function SavePatch(e: Editor, c: Component): Patch {
    PatchOf(e, c, ContentChanged(e, c))
  }

  /** Comparing sorted copies is comparing the lists as multisets. */
  lemma DependenciesChangedIff(e: Editor, c: Component)
    ensures DependenciesChanged(e, c) <==> multiset(e.selected) != multiset(c.dependencies)
  {
    SortedEqualIffSameElements(e.selected, c.dependencies);
  }

  /** The patch holds a field exactly when the local value differs from the
      stored one, and holds the local value; nothing else is patched. */
  lemma SavePatchExact(e: Editor, c: Component)
    ensures var p := SavePatch(e, c);
      && (p.title.Some? <==> e.title != c.title) && (p.title.Some? ==> p.title.value == e.title)
      && (p.content.Some? <==> e.content != c.content.GetOr("")) && (p.content.Some? ==> p.content.value == e.content)
      && (p.imageUrl.Some? <==> e.imageUrl != c.imageUrl.GetOr("")) && (p.imageUrl.Some? ==> p.imageUrl.value == e.imageUrl)
      && (p.imageAltText.Some? <==> e.imageAltText != c.imageAltText.GetOr(""))
      && (p.imageAltText.Some? ==> p.imageAltText.value == e.imageAltText)
      && (p.dependencies.Some? <==> multiset(e.selected) != multiset(c.dependencies))
      && (p.dependencies.Some? ==> multiset(p.dependencies.value) == multiset(e.selected))
      && p.status.None? && p.userInput.None? && p.aiGeneratedContent.None?
      && p.aiProposal.None? && p.hasProposal.None?
  {
    DependenciesChangedIff(e, c);
  }

  /** The indicator is on exactly when saving would send a non-empty patch,
      both as written and as corrected. */
  lemma UnsavedIffPatchNonEmpty(e: Editor, c: Component)
    ensures HasChanges(e, c) <==> SavePatch(e, c) != EmptyPatch
    ensures HasChangesAsWritten(e, c) <==> SavePatchAsWritten(e, c) != EmptyPatch
  {
  }

  /** Reordering the selection never turns the indicator on or off. */
  lemma ChangesIgnoreOrder(e: Editor, c: Component, reordered: seq<Id>)
    requires multiset(reordered) == multiset(e.selected)
    ensures HasChanges(e.(selected := reordered), c) == HasChanges(e, c)
    ensures SavePatch(e.(selected := reordered), c) == SavePatch(e, c)
  {
    SortedEqualIffSameElements(reordered, e.selected);
    SortedStringsUnique(SortStrings(reordered), SortStrings(e.selected)) by {
      SortBySorted(reordered, AsText, false);
      SortBySorted(e.selected, AsText, false);
    }
  }

  /** A freshly synced panel shows no unsaved changes. */
  lemma SyncedHasNoChanges(c: Component)
    ensures !HasChanges(Synced(c), c)
    ensures SavePatch(Synced(c), c) == EmptyPatch
  {
    UnsavedIffPatchNonEmpty(Synced(c), c);
  }

  /** As written, a component without content (one made from the sidebar)
      shows unsaved changes as soon as it is synced, and saving it writes an
      empty content and reports success. */
  lemma ContentlessLooksChangedAsWritten(c: Component)
    requires c.content.None?
    ensures HasChangesAsWritten(Synced(c), c)
    ensures SavePatchAsWritten(Synced(c), c) == EmptyPatch.(content := Some(""))
  {
    SortedEqualIffSameElements(c.dependencies, c.dependencies);
  }

  /** The two comparisons disagree only for a missing content and an empty
      local text. */
  lemma AsWrittenDiffersOnlyWhenContentless(e: Editor, c: Component)
    requires HasChangesAsWritten(e, c) != HasChanges(e, c)
    ensures c.content.None? && e.content == ""
  {
  }

  /** After the patch is applied, the panel's local state matches the
      stored component: the indicator goes off. */
  lemma SavedEditorIsClean(e: Editor, c: Component, now: nat)
    ensures !HasChanges(e, ApplyPatch(c, SavePatch(e, c), now))
  {
    var p := SavePatch(e, c);
    var r := ApplyPatch(c, p, now);
    SortedEqualIffSameElements(r.dependencies, e.selected);
    if p.dependencies.None? {
      SortedEqualIffSameElements(c.dependencies, e.selected);
    }
  }

  /** What handing a non-empty patch to `updateComponent`, then notifying
      success, does to the versions t0 and the notifications n0: nothing
      for an unknown id, a commit of the patched component, or, for a
      refused dependency list, the cycle error; the success notice follows
      in every case. */
  ghost predicate Submitted(t0: Timeline, n0: seq<Notification>, id: Id, updates: Patch, now: nat,
                            t1: Timeline, n1: seq<Notification>)
    requires WellFormed(t0)
  {
    var found := Get(t0.caseFile, id);
    && (found.None? ==> t1 == t0 && n1 == n0 + [Notification(now, MsgSaved, SUCCESS, now)])
    && (found.Some? && !Refused(t0.caseFile, id, updates) ==>
          t1 == Commit(t0, Patched(t0.caseFile, id, found.value, updates, now))
          && n1 == n0 + [Notification(now, MsgSaved, SUCCESS, now)])
    && (Refused(t0.caseFile, id, updates) ==>
          t1 == t0
          && n1 == n0 + [Notification(now, Store.MsgCircular, ERROR_KIND, now), Notification(now, MsgSaved, SUCCESS, now)])
  }

  /** The whole effect of a save: a pending image URL error only adds an
      error notification and builds no patch; an empty patch does nothing;
      a non-empty one is submitted. */
  ghost predicate SaveOutcome(t0: Timeline, n0: seq<Notification>, id: Id, imageUrlError: string,
                              updates: Patch, now: nat, t1: Timeline, n1: seq<Notification>)
    requires WellFormed(t0)
  {
    if imageUrlError != "" then
      updates == EmptyPatch && t1 == t0 && n1 == n0 + [Notification(now, MsgFixImageUrl, ERROR_KIND, now)]
    else if updates == EmptyPatch then t1 == t0 && n1 == n0
    else Submitted(t0, n0, id, updates, now, t1, n1)
  }

  /** `updateComponent(id, updates)` followed by the success notification. */
  method Submit(store: Store.CaseStore, id: Id, updates: Patch, now: nat)
    requires store.Valid()
    modifies store
    ensures store.Valid() && store.CurrentSession() == old(store.CurrentSession())
    ensures Submitted(old(store.Versions()), old(store.notifications), id, updates, now,
                      store.Versions(), store.notifications)
  {
    store.UpdateComponent(id, updates, now);
    store.AddNotification(MsgSaved, SUCCESS, now);
  }

  /** The body of `handleSave()` on the shown component c, given how the
      content comparison came out: the patch is built field by field and
      submitted when it is not empty. */
  method SaveWith(store: Store.CaseStore, e: Editor, contentChanged: bool, now: nat) returns (updates: Patch)
    requires store.Valid() && Shown(store).Some?
    modifies store
    ensures store.Valid() && store.CurrentSession() == old(store.CurrentSession())
    ensures e.imageUrlError == "" ==> updates == PatchOf(e, old(Shown(store)).value, contentChanged)
    ensures SaveOutcome(old(store.Versions()), old(store.notifications), old(Shown(store)).value.id,
                        e.imageUrlError, updates, now, store.Versions(), store.notifications)
  {
    var c := Shown(store).value;
    if e.imageUrlError != "" {
      store.AddNotification(MsgFixImageUrl, ERROR_KIND, now);
      return EmptyPatch;
    }
    updates := EmptyPatch;
    if e.title != c.title {
      updates := updates.(title := Some(e.title));
    }
    if contentChanged {
      updates := updates.(content := Some(e.content));
    }
    if e.imageUrl != c.imageUrl.GetOr("") {
      updates := updates.(imageUrl := Some(e.imageUrl));
    }
    if e.imageAltText != c.imageAltText.GetOr("") {
      updates := updates.(imageAltText := Some(e.imageAltText));
    }
    var sortedSelection := SortStrings(e.selected);
    if sortedSelection != SortStrings(c.dependencies) {
      updates := updates.(dependencies := Some(sortedSelection));
    }
    if updates != EmptyPatch {
      Submit(store, c.id, updates, now);
    }
  }

  /** `handleSave()` as written: the content is compared with the stored
      property itself, so a component without content that the panel shows
      as "" is saved with an empty content and a success notification
      (DetailView.ContentlessLooksChangedAsWritten). */
  method HandleSave(store: Store.CaseStore, e: Editor, now: nat) returns (updates: Patch)
    requires store.Valid() && Shown(store).Some?
    modifies store
    ensures store.Valid() && store.CurrentSession() == old(store.CurrentSession())
    ensures e.imageUrlError == "" ==> updates == SavePatchAsWritten(e, old(Shown(store)).value)
    ensures SaveOutcome(old(store.Versions()), old(store.notifications), old(Shown(store)).value.id,
                        e.imageUrlError, updates, now, store.Versions(), store.notifications)
  {
    var c := Shown(store).value;
    updates := SaveWith(store, e, Some(e.content) != c.content, now);
  }

  /** `handleSave()` with the content compared as the image fields are, a
      missing content counting as "": a synced panel saves nothing
      (DetailView.SyncedHasNoChanges). */
  method HandleSaveIntended(store: Store.CaseStore, e: Editor, now: nat) returns (updates: Patch)
    requires store.Valid() && Shown(store).Some?
    modifies store
    ensures store.Valid() && store.CurrentSession() == old(store.CurrentSession())
    ensures e.imageUrlError == "" ==> updates == SavePatch(e, old(Shown(store)).value)
    ensures SaveOutcome(old(store.Versions()), old(store.notifications), old(Shown(store)).value.id,
                        e.imageUrlError, updates, now, store.Versions(), store.notifications)
  {
    var c := Shown(store).value;
    updates := SaveWith(store, e, e.content != c.content.GetOr(""), now);
  }

  // ---------------------------------------------------------------------
  // handleDelete

  /** The refusal names how many components depend on this one. */
  function DeleteBlockedMessage(n: nat): string {
    "Cannot delete: " + NatToString(n) + " other component(s) depend on this one"
  }

  /** Different counts give different refusals. */
  lemma DeleteBlockedMessageInjective(a: nat, b: nat)
    requires DeleteBlockedMessage(a) == DeleteBlockedMessage(b)
    ensures a == b
  {
    var head, tail := "Cannot delete: ", " other component(s) depend on this one";
    var sa, sb := NatToString(a), NatToString(b);
    var ma, mb := head + sa + tail, head + sb + tail;
    assert |sa| == |sb|;
    assert sa == ma[|head|..|head| + |sa|];
    assert sb == mb[|head|..|head| + |sb|];
    NatToStringInjective(a, b);
  }

  /** `handleDelete()` on the shown component, with the user's answer to
      the confirmation dialog: a component others depend on is never
      deleted, only reported; otherwise a confirmed delete removes it and
      reports success, and a declined one does nothing. */
  method HandleDelete(store: Store.CaseStore, confirmed: bool, now: nat)
    requires store.Valid() && Shown(store).Some?
    modifies store
    ensures store.Valid()
    ensures var c := old(Shown(store)).value;
      var n := |Dependents(old(store.caseFile), c.id)|;
      && (n > 0 ==>
            store.Versions() == old(store.Versions()) && store.CurrentSession() == old(store.CurrentSession())
            && store.notifications == old(store.notifications) + [Notification(now, DeleteBlockedMessage(n), ERROR_KIND, now)])
      && (n == 0 && !confirmed ==>
            store.Versions() == old(store.Versions()) && store.CurrentSession() == old(store.CurrentSession())
            && store.notifications == old(store.notifications))
      && (n == 0 && confirmed ==>
            store.Versions() == Commit(old(store.Versions()), Deleted(old(store.caseFile), c.id, now))
            && store.notifications == old(store.notifications) + [Notification(now, MsgDeleted, SUCCESS, now)])
    ensures store.Versions() != old(store.Versions()) ==>
      CanDeleteComponent(old(Shown(store)).value.id, old(store.caseFile)) && confirmed
  {
    var c := Shown(store).value;
    var dependents := GetDependents(c.id, store.caseFile);
    if |dependents| > 0 {
      store.AddNotification(DeleteBlockedMessage(|dependents|), ERROR_KIND, now);
      return;
    }
    if confirmed {
      store.DeleteComponent(c.id, now);
      store.AddNotification(MsgDeleted, SUCCESS, now);
    }
  }

  // ---------------------------------------------------------------------
  // handleDependencyToggle and the offered choices

  function OtherThan(id: Id): Id -> bool {
    (x: Id) => x != id
  }

  /** `handleDependencyToggle(componentId)`: a selected id is dropped (every
      occurrence), any other is appended. */
  function ToggleDependency(selected: seq<Id>, id: Id): seq<Id> {
    if id in selected then Filter(OtherThan(id), selected) else selected + [id]
  }

  /** Toggling flips the id's membership and leaves every other id as it was. */
  lemma ToggleFlips(selected: seq<Id>, id: Id)
    ensures id in ToggleDependency(selected, id) <==> id !in selected
    ensures forall x :: x != id ==> (x in ToggleDependency(selected, id) <==> x in selected)
  {
    FilterMembers(OtherThan(id), selected);
  }

  /** Selecting an id and toggling it again gives back the selection. */
  lemma ToggleTwice(selected: seq<Id>, id: Id)
    requires id !in selected
    ensures ToggleDependency(ToggleDependency(selected, id), id) == selected
  {
    var added := selected + [id];
    assert id in added;
    FilterAppend(OtherThan(id), selected, [id]);
    FilterAll(OtherThan(id), selected);
    assert Filter(OtherThan(id), [id]) == [] by { assert [id][1..] == []; }
  }

  function NotId(id: Id): Component -> bool {
    (c: Component) => c.id != id
  }

  /** The components offered as dependencies: every stored component but
      the shown one, in case-file order. */
  function AvailableComponents(cf: CaseFile, current: Component): seq<Component> {
    Filter(NotId(current.id), Values(cf))
  }

  /** Exactly the stored components with another id are offered; in
      particular the shown component never is. */
  lemma AvailableExact(cf: CaseFile, current: Component)
    ensures forall x :: x in AvailableComponents(cf, current) <==> x in Values(cf) && x.id != current.id
    ensures current !in AvailableComponents(cf, current)
  {
    FilterMembers(NotId(current.id), Values(cf));
  }
}
