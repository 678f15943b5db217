# PedagogicCaseBuilder core, modelled in Dafny

PedagogicCaseBuilder is an editor for pedagogic case files. A case file is
an insertion-ordered map from component ids to components. There are four
component types: learning goals, a case description, witnesses and
documents. Each component can list the ids of the components it depends
on. This project models the following parts of the application:

- **The store** (`src/store.js`): a single state container.
  - Its case file and its undo/redo history are a class, `Store.CaseStore`, whose methods update the fields in place.
  - It adds, updates and deletes components. An update is refused when it would close a dependency cycle. A delete prunes back-references.
  - It handles undo and redo, autosave, loading and importing, and clearing.
  - It marks an AI generation's start and finish.
  - It runs the consistency check and manages the consistency report's statuses.
  - It keeps a notification list.
- **The component utilities** (`src/utils/componentUtils.js`):
  - creation, validation, display names and status badges;
  - the dependency chain and the dependents of a component, and whether it can be deleted;
  - search, sorting, and unique titles.
- **The templates** (`src/utils/templates.js`):
  - the three built-in templates;
  - `processTemplate`, which gives every entry a fresh id and resolves the slug and title references between entries;
  - the template lookup and listing, and template validation.
- **The consistency analysis text** (`src/services/consistencyAnalysis.js`):
  - the prompt body that groups components by type;
  - parsing the model's markdown table into issues;
  - the Markdown, CSV and JSON exports.
- **The OpenAI adapter** (`src/services/openai.js`):
  - the API-key slot;
  - prompt construction;
  - the size pre-check;
  - the error messages by HTTP status;
  - the key test.
- **The detail editor** (`src/components/DetailView.jsx`):
  - image-URL validation;
  - the unsaved-changes check and the save patch;
  - the delete guard;
  - dependency toggling and the list of offered dependencies.
- **The header** (`src/components/Header.jsx`): whether undo and redo are enabled, and the "last saved" label.

The main properties proved:

- **Cycle check.**
  - The store's recursive cycle check (a depth-first search with a visited set and a recursion stack) answers true exactly when a dependency cycle is reachable from the edited component in the proposed graph.
  - Updates and deletes keep an acyclic case file acyclic.
- **Deletion.**
  - After a delete, no component refers to the deleted id.
  - Every other component is kept, and only its reference to the deleted id is removed.
- **Undo, redo and import.** These are specified on the history timeline, together with the quirks of the store's history:
  - the first change cannot be undone;
  - undo after two changes skips a state;
  - import keeps the redo tail.
- **processTemplate.**
  - It yields one component per entry, in order.
  - Every resolved dependency is the id of another created component.
  - A reference that matches no title or slug is dropped. This happens in the built-in civil-lawsuit template: 'business-owner-plaintiff' is not the slug of "Business Owner (Plaintiff)", so the Financial Records document loses that dependency.
- **Validation and parsing.**
  - Template and component validation report each failing check exactly once, in check order.
  - Parsed consistency issues are pending and carry distinct ids.
  - CSV quote escaping round-trips.
- **Detail editor.**
  - The save patch holds exactly the changed fields.
  - The editor shows no unsaved changes right after a save.
  - Delete is never reached while dependents exist.
- **Header.** The toolbar's undo/redo buttons are enabled exactly when the store's undo and redo would change something.

Notes on the modelling:

- **Case file and component.**
  - The case file is a sequence of key/component entries, kept in insertion order like a JS `Map`.
  - A component's JS `type` field is called `kind`, because `type` is a Dafny keyword.
  - Status badge labels are called `caption`.
  - A component's `content` is optional: components created from the sidebar have none.
- **Inputs.**
  - Timestamps are whole milliseconds passed in as parameters. The store's ISO text timestamps become these numbers.
  - Random id suffixes are parameters.
  - Network replies, storage contents, and the locale's date and time text are parameters.
- **Messages.** Long user-facing messages are written as concatenations of shorter literals. They spell exactly the source's text.

## Model

| member | source | states |
|---|---|---|
| CaseFiles.Get | src/store.js:67 | the lookup fails exactly when the key is absent |
| CaseFiles.Put | src/store.js:91 | a key not yet present is appended at the end |
| CaseFiles.PutKeys | src/store.js:91 | `set` keeps the key order: an existing key stays where it is, a new one comes last |
| CaseFiles.PutGet | src/store.js:91 | after `set`, the key reads back the new component and every other key reads as before |
| CaseFiles.PutUnique | src/store.js:91 | `set` keeps the keys of the map unique |
| CaseFiles.Remove | src/store.js:113 | the key is gone, every other entry stays, uniqueness is kept, and removing an absent key changes nothing |
| CaseFiles.FromEntries | src/store.js:298 | `new Map(entries)` yields a map with unique keys |
| CaseFiles.EntriesRoundTrip | src/store.js:298 | rebuilding a map from its own entries gives back the same map |
| ComponentModel.ApplyPatch | src/store.js:85-89 | the updated component takes each field the patch holds (title, content, status, dependencies, user input, generated content, proposal and its flag, image URL and alt text) and keeps every other field; id and type are unchanged and the time is the update time |
| ComponentModel.Materialize | src/store.js:30-45 | `addComponent` fills a missing id from the lower-cased type and the time, a missing status with sketch, a missing title with "New <type>", and missing dependencies with an empty list |
| ComponentModel.CreateComponent | src/utils/componentUtils.js:22-36 | a new component is a sketch with no dependencies and no proposal; its title defaults to "New <type>"; its id starts with the lower-cased type |
| ComponentModel.CreatedComponentIsValid | src/utils/componentUtils.js:22-36 | a component created for one of the four types and then added is a sketch without dependencies that passes the id, type and status checks, and the title check unless its given title is spaces only |
| ComponentModel.TypeDisplayName | src/utils/componentUtils.js:39-47 | GOALS is shown as "Learning Goals", CASE as "Case Description", WITNESS as "Witness" and DOCUMENT as "Document"; any other type is shown as it is |
| ComponentModel.TypeDisplayNameInjective | src/utils/componentUtils.js:39-47 | no two types share a display name |
| ComponentModel.GetStatusInfo | src/utils/componentUtils.js:50-74 | generating, generated and error have their own label and icon; any other status shows the sketch badge |
| ComponentModel.StatusLabelsDistinct | src/utils/componentUtils.js:50-74 | the four statuses have four different labels |
| ComponentModel.ValidateComponent | src/utils/componentUtils.js:77-109 | a missing component gives the single "required" error; otherwise the errors are the failed checks |
| ComponentModel.FailuresExact | src/utils/componentUtils.js:87-105 | each message is reported exactly when its check fails; no errors exactly when all five checks pass |
| ComponentModel.FailuresOrdered | src/utils/componentUtils.js:87-105 | errors come in the order id, type, title, status, dependencies |
| History.Commit | src/store.js:93-100 | a change drops the redo tail, stores the old case file as the newest snapshot, and points the index at it |
| History.Undo | src/store.js:178-195 | with the index above 0 it steps back and restores that snapshot; otherwise nothing changes |
| History.Redo | src/store.js:198-215 | below the last snapshot it steps forward and restores that snapshot; otherwise nothing changes |
| History.Import | src/store.js:392-400 | an import appends the current case file to the whole history, with no truncation, and points the index at it |
| History.Loaded | src/store.js:300-305 | a loaded case file is the only snapshot, at index 0 |
| History.CommitThenUndo | src/store.js:93-100 | after a change, redo does nothing; undo moves exactly when a snapshot was current, and restores the snapshot that was current before the change |
| History.FirstChangeCannotBeUndone | src/store.js:182 | from the initial empty history, the first change cannot be undone |
| History.UndoSkipsAState | src/store.js:94-95 | after two changes, one undo returns to the empty case file, not the first change |
| History.UndoRedo | src/store.js:182-209 | redo after undo returns the index to where it was, but restores the snapshot stored there |
| History.UndoRedoLosesLatest | src/store.js:94-95 | after two changes, undo then redo does not return to the latest case file |
| History.ImportKeepsRedoTail | src/store.js:392 | unlike a change, an import keeps the redo tail in the history |
| DependencyGraph.SelfDependencyIsCycle | src/store.js:160-163 | listing oneself as a dependency makes a cycle reachable |
| DependencyGraph.ProposalCycleIff | src/store.js:142-175 | in an acyclic case file, a cycle reachable from the edited component is exactly a cycle anywhere in the proposed graph |
| DependencyGraph.LassoGivesCycle | src/store.js:147-149 | a path that comes back to a node on it means the graph has a cycle |
| DependencyGraph.NoLassoFromFinished | src/store.js:152-169 | once the search has finished a node without finding a cycle, no cycle is reachable from it |
| DependencyGraph.AcyclicSubgraph | src/store.js:115-125 | removing edges keeps a graph acyclic |
| CycleCheck.HasCycle | src/store.js:146-170 | the recursive search, with its visited set and recursion stack shared across calls, answers true only when a cycle is reachable; when it answers false, every node it visited is finished |
| CycleCheck.HasCircularDependency | src/store.js:142-175 | true exactly when the proposed dependencies make a cycle reachable from the component |
| CycleCheck.SelfDependencyRefused | src/store.js:160-163 | a component listing itself is always reported circular |
| StoreRules.Without | src/store.js:120 | the filter never grows the list |
| StoreRules.WithoutExact | src/store.js:120 | the filtered list holds exactly the other ids |
| StoreRules.Prune | src/store.js:115-125 | the pruned case file keeps every entry in place, one pruned entry for each |
| StoreRules.GetPrune | src/store.js:115-125 | pruning keeps every key; each component reads back with the deleted id filtered out of its dependencies |
| StoreRules.PruneKeys | src/store.js:115-125 | pruning keeps the keys and their uniqueness |
| StoreRules.PruneEntryDropsId | src/store.js:117-123 | a pruned entry keeps its key and no longer lists the deleted id |
| StoreRules.DeleteLeavesNoReference | src/store.js:107-125 | after a delete, the id is gone and no component depends on it |
| StoreRules.DeleteKeepsOthers | src/store.js:115-125 | every other component survives; one that did not list the id is untouched, and one that did loses only that id and gets the new time |
| StoreRules.DeleteKeepsAcyclic | src/store.js:107-139 | deleting keeps an acyclic case file acyclic |
| StoreRules.PatchKeepsAcyclic | src/store.js:74-91 | an update the cycle check lets through keeps an acyclic case file acyclic |
| StoreRules.DropNotification | src/store.js:253-266 | dismissing never grows the list |
| StoreRules.DropNotificationExact | src/store.js:253-266 | dismissing removes exactly the notifications with that id |
| StoreRules.DropAppend | src/store.js:253-266 | dismissing distributes over the parts of the list, keeping order |
| StoreRules.DismissSharedId | src/store.js:233-234 | notifications made within the same millisecond share an id, so dismissing one dismisses both |
| StoreRules.GenerationGuard | src/store.js:446-472 | a generation proceeds exactly when the id is not in flight, the component exists, a key is set and the input is not blank; a request in flight gives a warning and every other refusal an error |
| StoreRules.FinishPatch | src/store.js:488-534 | success marks the component generated, failure marks it error; dependencies are untouched |
| StoreRules.ClassifyKeyErrors | src/store.js:523-532 | the missing-key and invalid-key errors get the configure-your-key advice |
| StoreRules.ClassifyRateLimited | src/store.js:523-532 | the rate-limit error gets the rate-limit advice |
| StoreRules.ClassifyContextTooLarge | src/store.js:523-532 | the context-too-large error gets the reduce-dependencies advice |
| StoreRules.ClassifyTimeout | src/store.js:523-532 | the timeout error matches no pattern and gets the generic advice |
| StoreRules.ClassifyFetchFailure | src/store.js:523-532 | a network failure gets the connection advice |
| StoreRules.SetIssueStatus | src/store.js:607-609 | the status update keeps the number of issues |
| StoreRules.SetIssueStatusExact | src/store.js:607-609 | exactly the issues with that id take the new status; everything else is kept |
| StoreRules.SetIssueStatusCounts | src/store.js:607-609 | for every status, setting a status removes the issues with that id from their old status's count and adds all of them to the new status's count; the total is kept |
| StoreRules.IdStatusCountUniform | src/store.js:607-609 | when every issue with an id has one status, counting that id by status finds them all under that status and none under another |
| StoreRules.ResolveOnePendingSummary | src/store.js:603-617 | resolving the single pending issue with an id raises the resolved count by one and lowers the pending count by one; the total and the dismissed count stay |
| Store.CaseStore.constructor | src/store.js:10-19 | the store starts with an empty case file and history, index -1, no selection, no query, no report and no notifications |
| Store.CaseStore.Record | src/store.js:93-100 | records a change on the history and changes nothing else |
| Store.CaseStore.AddNotification | src/store.js:230-251 | appends one notification stamped with the time; nothing else changes |
| Store.CaseStore.RemoveNotification | src/store.js:253-266 | removes exactly the notifications with that id; nothing else changes |
| Store.CaseStore.AddComponent | src/store.js:24-61 | the filled-in component is stored under its id, every other key is unchanged, the change is recorded, and the new component is selected |
| Store.CaseStore.UpdateComponent | src/store.js:64-104 | an unknown id changes nothing; dependencies that would close a cycle are refused with one error notification; otherwise the patched component is stored and the change recorded; acyclicity is kept |
| Store.CaseStore.PruneReferences | src/store.js:115-125 | the loop gives the pruned case file |
| Store.CaseStore.DeleteComponent | src/store.js:107-139 | the component is deleted, back-references are pruned, and the change is recorded; a selection of the deleted id is cleared; acyclicity is kept |
| Store.CaseStore.Undo | src/store.js:178-195 | the store's undo is the timeline's undo; nothing else changes |
| Store.CaseStore.Redo | src/store.js:198-215 | the store's redo is the timeline's redo; nothing else changes |
| Store.CaseStore.SetCurrentComponent | src/store.js:218-221 | sets only the selection |
| Store.CaseStore.SetSearchQuery | src/store.js:224-227 | sets only the query |
| Store.CaseStore.SetGenerating | src/store.js:415-418 | sets only the generating flag |
| Store.CaseStore.AutoSave | src/store.js:269-288 | a successful write saves the case file with the time and records it as the last save; a failed write only adds an error notification |
| Store.CaseStore.LoadFromStorage | src/store.js:291-315 | saved data replace the case file as the only snapshot and set the last save time; without saved data nothing changes |
| Store.CaseStore.ImportCaseFile | src/store.js:383-412 | a decoded file replaces the case file, the old one is appended to the history, and a success notification is added; a file that fails to decode only adds an error |
| Store.CaseStore.ClearAllData | src/store.js:421-438 | back to the initial empty history with no selection, no query and no notifications |
| Store.CaseStore.BeginGeneration | src/store.js:441-485 | a refused guard adds its notification and nothing else; otherwise the id goes in flight, the flag is set, the component is marked generating, and the component with its dependency chain from before is returned |
| Store.CaseStore.FinishGeneration | src/store.js:488-542 | the id leaves the in-flight set and the flag is cleared on every path; a live component gets the content or the error status; success notifies only for a live component, and a failure always notifies with the classified advice |
| Store.CaseStore.RunConsistencyCheck | src/store.js:546-600 | no key, or nothing with content, ends in one notification; otherwise an analyzing notice is followed by the report with a count, a none-found message, or the failure; the case file is never changed |
| Store.CaseStore.UpdateConsistencyStatus | src/store.js:603-617 | without a report nothing changes; otherwise only the issues with that id change status |
| Store.CaseStore.CloseConsistencyReport | src/store.js:620-625 | the report is hidden and its issues are kept |
| ComponentQueries.GetDependencyChain | src/utils/componentUtils.js:112-137 | the chain is empty exactly for a visited or missing id, and otherwise ends with the component itself |
| ComponentQueries.ChainReachable | src/utils/componentUtils.js:112-137 | every component in the chain is reachable from the start along dependencies |
| ComponentQueries.DepsChainsReversed | src/utils/componentUtils.js:130-133 | because each sub-chain is prepended, the dependencies' chains appear in reverse order of the list |
| ComponentQueries.ChainOfComponent | src/utils/componentUtils.js:112-137 | the chain of a present, unvisited component is its dependencies' chains followed by the component |
| ComponentQueries.DiamondChainExample | src/utils/componentUtils.js:126-133 | the visited set is copied, not shared, so a diamond's shared dependency appears twice |
| ComponentQueries.CyclicChainExample | src/utils/componentUtils.js:115-118 | on a cycle the visited set stops the recursion |
| ComponentQueries.LinearChainExample | src/utils/componentUtils.js:112-137 | a linear chain lists the deepest dependency first |
| ComponentQueries.DependentsExact | src/utils/componentUtils.js:140-153 | the dependents are exactly the components that list the id |
| ComponentQueries.DependentsAppend | src/utils/componentUtils.js:140-153 | dependents keep case-file order |
| ComponentQueries.GetDependents | src/utils/componentUtils.js:140-153 | the loop returns the dependents |
| ComponentQueries.CanDeleteIffUnreferenced | src/utils/componentUtils.js:156-159 | a component can be deleted exactly when no component lists it |
| ComponentQueries.FilterComponentsAsWritten | src/utils/componentUtils.js:162-177 | as written, the filter fails exactly when the query is not blank and some component has no content and a title that does not match |
| ComponentQueries.FilterThrowsOnMissingContent | src/utils/componentUtils.js:173 | a sidebar-made "New Witness" with no content makes the search "zz" fail |
| ComponentQueries.FilterBlankIdentity | src/utils/componentUtils.js:163 | a blank query returns the list unchanged |
| ComponentQueries.KeepExact | src/utils/componentUtils.js:166-176 | the result holds exactly the components whose title, content or type name contains the query |
| ComponentQueries.KeepAppend | src/utils/componentUtils.js:166-176 | filtering keeps the input order |
| ComponentQueries.KeepIdempotent | src/utils/componentUtils.js:166-176 | filtering twice is filtering once |
| ComponentQueries.SortComponentsCorrect | src/utils/componentUtils.js:180-212 | the result is a permutation of the input, ordered by the chosen key, descending unless asc is asked for |
| ComponentQueries.SortComponentsStable | src/utils/componentUtils.js:180-212 | components with equal sort keys keep their input order |
| ComponentQueries.DefaultSortNewestFirst | src/utils/componentUtils.js:180 | the default sort puts the most recently updated first |
| ComponentQueries.CandidateInjective | src/utils/componentUtils.js:226-229 | different counters give different titles |
| ComponentQueries.GenerateUniqueTitle | src/utils/componentUtils.js:215-233 | the title is not taken by a component of that type, and is the first free one in the numbered sequence |
| Ordering.KeyLessStrictTotal | src/utils/componentUtils.js:186-210 | the comparator is a strict total order on the sort keys |
| Ordering.SortBySorted | src/utils/componentUtils.js:183 | the sort returns a sorted permutation |
| Ordering.SortByStable | src/utils/componentUtils.js:183 | the sort is stable: for every key, the elements with that key come out in their input order |
| Ordering.InsertKeepsKeyOrder | src/utils/componentUtils.js:183 | inserting an element puts it in front of the elements with its own key and keeps the order of every key's elements |
| Ordering.SortedEqualIffSameElements | src/components/DetailView.jsx:103 | two sorted lists of ids are equal exactly when they hold the same ids with the same counts |
| Templates.Slug | src/utils/templates.js:166 | the slug has the title's length; each character is lower-cased and anything other than a-z or 0-9 becomes '-' |
| Templates.SlugIdempotent | src/utils/templates.js:166 | the slug of a slug is itself |
| Templates.Create | src/utils/templates.js:162-174 | each entry gets a component with an id |
| Templates.FirstPass | src/utils/templates.js:162-174 | the first pass creates one component per entry and maps each slug and title to the newest id |
| Templates.SecondPass | src/utils/templates.js:177-191 | the second pass resolves each component's references |
| Templates.ProcessTemplate | src/utils/templates.js:155-195 | the two passes give the processed components |
| Templates.ProcessedShape | src/utils/templates.js:155-195 | one component per entry, in order, with the entry's type, title and content |
| Templates.ResolveDepsExact | src/utils/templates.js:177-191 | the resolved list holds exactly the ids some reference looks up, and never the component's own id |
| Templates.TitleIndexLatest | src/utils/templates.js:167-168 | a slug or title named by several entries maps to the last of them |
| Templates.ProcessedDependenciesCreated | src/utils/templates.js:155-195 | every resolved dependency is the id of another component of the same template |
| Templates.CreatedIdFirst | src/utils/componentUtils.js:26 | a created id starts with the first letter of its lower-cased type |
| Templates.TypeInitials | src/utils/componentUtils.js:26 | the four lower-cased types start with g, c, w and d, so the initial tells the type |
| Templates.KnownTypeIdsDiffer | src/utils/componentUtils.js:26 | ids created for two different known types differ, in their first letter, whatever their time and suffix |
| Templates.CreatedIdNonEmpty | src/utils/componentUtils.js:26 | a created id is never empty |
| Templates.FindTemplate | src/utils/templates.js:202 | finds a template with that id, and fails exactly when there is none |
| Templates.AvailableTemplates | src/utils/templates.js:215-222 | one summary per template, in order, with id, name, description and component count |
| Templates.ValidateTemplate | src/utils/templates.js:225-243 | the header checks, then four checks per entry in order; a components value that is not an array throws |
| Templates.EntryErrorsEmptyIff | src/utils/templates.js:233-240 | an entry draws no error exactly when it has type, title, content and an array of dependencies |
| Templates.TemplateValidIff | src/utils/templates.js:225-243 | a template is valid exactly when the header fields are present and every entry is complete |
| TemplateLibrary.LoadTemplate | src/utils/templates.js:198-212 | an unknown id fails with "Template not found: <id>"; a known one gives that template's processed components |
| TemplateLibrary.BuiltInSummaries | src/utils/templates.js:8-152 | there are three built-in templates, with six components each |
| TemplateLibrary.FinancialRecordsLosesPlaintiff | src/utils/templates.js:50 | the civil template's Financial Records keeps only its case-background dependency; the plaintiff reference matches nothing |
| Consistency.FormatCaseFileForAnalysis | src/services/consistencyAnalysis.js:7-73 | the text is the four sections in the order goals, case, witness, document |
| Consistency.GroupByType | src/services/consistencyAnalysis.js:21-25 | each group holds the components of its type, in case-file order |
| Consistency.OfKindMembers | src/services/consistencyAnalysis.js:21-25 | a group holds exactly the components of its type |
| Consistency.SectionPresentIff | src/services/consistencyAnalysis.js:28-69 | a section appears exactly when some component has its type |
| Consistency.OtherKindIgnored | src/services/consistencyAnalysis.js:21-25 | a component of any other type adds nothing |
| Consistency.FormattedEmptyIff | src/services/consistencyAnalysis.js:7-73 | the text is empty exactly when no component has one of the four types |
| Consistency.TableRows | src/services/consistencyAnalysis.js:90 | the rows kept are exactly the lines that are not blank and not separators |
| Consistency.CleanSources | src/services/consistencyAnalysis.js:98-100 | the cleaned sources are never empty and never more than the pieces |
| Consistency.StripNumberNumbered | src/services/consistencyAnalysis.js:99 | a piece made of one or more digits, a full stop and a rest becomes the rest with its leading whitespace dropped |
| Consistency.StripNumberUnnumbered | src/services/consistencyAnalysis.js:99 | a piece in which no full stop follows a run of digits from the start is left unchanged |
| Consistency.StripNumberSuffix | src/services/consistencyAnalysis.js:99 | stripping the number leaves a tail of the piece |
| Consistency.CleanSourcesIsMapFilter | src/services/consistencyAnalysis.js:98-100 | the sources are exactly, in order, the non-empty results of stripping the number from each piece and trimming it |
| Consistency.CleanSourcesMembers | src/services/consistencyAnalysis.js:98-100 | a text is a source exactly when it is non-empty and some piece cleans to it |
| Consistency.CleanPieceEnds | src/services/consistencyAnalysis.js:99 | a cleaned piece, when not empty, starts and ends with a non-whitespace character |
| Consistency.CleanPieceChars | src/services/consistencyAnalysis.js:99 | a cleaned piece holds only characters of the piece |
| Consistency.CleanPieceShape | src/services/consistencyAnalysis.js:99 | a piece without line breaks cleans to a text without line breaks, trimmed at both ends |
| Consistency.CleanSourcesShape | src/services/consistencyAnalysis.js:98-100 | pieces without line breaks give sources that are non-empty, trimmed at both ends and without line breaks |
| Consistency.SourcesShape | src/services/consistencyAnalysis.js:98-100 | every source read from the first cell is non-empty, trimmed at both ends and free of line breaks |
| Consistency.ParseConsistencyTable | src/services/consistencyAnalysis.js:76-118 | the loop gives the parsed issues of the rows after the header |
| Consistency.RowIssueShape | src/services/consistencyAnalysis.js:93-110 | a row gives at most one issue: pending, with a nature and a fix, and numbered by its row |
| Consistency.ParsedIssuesShape | src/services/consistencyAnalysis.js:93-110 | at most one issue per row after the header; all pending, each numbered by a row |
| Consistency.ParsedIdsDistinct | src/services/consistencyAnalysis.js:103 | issues from one parse have distinct ids |
| Consistency.HeaderIgnored | src/services/consistencyAnalysis.js:93 | the header row never becomes an issue |
| Consistency.NoTableNoIssues | src/services/consistencyAnalysis.js:84-93 | no table, or only a header row, gives no issues |
| Consistency.IssueIdInjective | src/services/consistencyAnalysis.js:103 | different rows give different ids |
| Consistency.SummaryBounded | src/services/consistencyAnalysis.js:233-240 | the total is the number of issues, and the three status counts add up to at most the total |
| Consistency.ExportAsMarkdown | src/services/consistencyAnalysis.js:180-215 | the head with the summary, then one numbered entry per issue |
| Consistency.EscapeRoundTrip | src/services/consistencyAnalysis.js:222 | undoubling the quotes gives back the field's text |
| Consistency.ExportAsCsv | src/services/consistencyAnalysis.js:217-229 | the header line, then one numbered row per issue |
| Consistency.ExportAsJson | src/services/consistencyAnalysis.js:231-244 | the exported object holds all issues and a summary whose total is their number |
| Consistency.ExportConsistencyReport | src/services/consistencyAnalysis.js:161-178 | markdown is the default; csv and json pick their exporter; any other format fails with "Unknown export format: <format>" |
| OpenAI.KeyStore.SetApiKey | src/services/openai.js:19-28 | a non-blank key is stored trimmed and reported; a blank one clears the slot; afterwards a key is present exactly when the call succeeded |
| OpenAI.SystemPromptFallback | src/services/openai.js:43-58 | each of the four types has its own system prompt; any other type gets the generic one |
| OpenAI.Excerpt | src/services/openai.js:67-69 | `substring(0, n)` is the first min(n, length) characters |
| OpenAI.BuildPrompt | src/services/openai.js:36-87 | the system prompt by type, and the user prompt around the dependency context |
| OpenAI.BuildContext | src/services/openai.js:61-72 | the loop gives the context block |
| OpenAI.ContextEmptyIff | src/services/openai.js:61-72 | the context is empty exactly when there are no dependencies |
| OpenAI.DepLinesAppend | src/services/openai.js:64-71 | the dependencies appear in the order given |
| OpenAI.EstimatedTokens | src/services/openai.js:255 | the estimate is the rounded-up third of the prompt length |
| OpenAI.PreparedPromptFits | src/services/openai.js:241-261 | a request is prepared exactly when the input is not blank and the estimate is within the limit |
| OpenAI.StatusError | src/services/openai.js:213-227 | 401, 429 and 403 have their own messages; any other status gives "API error (<status>): " followed by the error detail, or "Unknown error" when the detail is missing or empty, and never one of the three special messages |
| OpenAI.GenerateContent | src/services/openai.js:236-288 | a failed pre-check is the result, whatever the network did; after it, a missing key, a timeout, a thrown error and a non-OK status give their messages; an OK answer gives its content when that is non-empty and the no-content error otherwise |
| OpenAI.PrecheckBeforeNetwork | src/services/openai.js:241-261 | when the pre-check fails, the reply does not matter |
| OpenAI.TestApiKey | src/services/openai.js:291-323 | the key is valid exactly for an OK or 429 answer; 401 is an invalid key; no answer is a network error |
| OpenAI.TestApiKeyInconclusive | src/services/openai.js:291-323 | any other status leaves the key unverified |
| DetailView.Synced | src/components/DetailView.jsx:69-89 | the editor takes the component's fields, with missing text read as empty, and clears the URL error |
| DetailView.ValidateImageUrl | src/components/DetailView.jsx:41-60 | the error is one of the two messages or empty |
| DetailView.ImageUrlVerdict | src/components/DetailView.jsx:41-60 | a URL is accepted exactly when it is blank or its protocol is http: or https:; the error is empty exactly when accepted; a URL that does not parse gives "Please enter a valid URL" |
| DetailView.ImageUrlChanged | src/components/DetailView.jsx:62-65 | the URL is taken and the error is set by the rule above |
| DetailView.DependenciesChangedIff | src/components/DetailView.jsx:103 | dependencies count as changed exactly when the two lists differ as multisets |
| DetailView.SavePatchExact | src/components/DetailView.jsx:133-140 | the patch holds a field exactly when it changed, with the local value; every other field is absent |
| DetailView.UnsavedIffPatchNonEmpty | src/components/DetailView.jsx:98-142 | the unsaved marker is on exactly when saving would write something |
| DetailView.ChangesIgnoreOrder | src/components/DetailView.jsx:103-138 | reordering the selection changes neither the marker nor the patch |
| DetailView.SyncedHasNoChanges | src/components/DetailView.jsx:69-103 | right after sync nothing is unsaved and the patch is empty |
| DetailView.ContentlessLooksChangedAsWritten | src/components/DetailView.jsx:98-135 | as written, a component without content looks changed right after sync, and saving writes empty content |
| DetailView.AsWrittenDiffersOnlyWhenContentless | src/components/DetailView.jsx:98-135 | the comparison as written and the corrected one disagree only for a component with no content and an empty local text |
| DetailView.SavedEditorIsClean | src/components/DetailView.jsx:124-146 | after the patch is applied the editor shows no unsaved changes |
| DetailView.Submit | src/components/DetailView.jsx:142-145 | the store's update runs and the success notification follows: nothing changes for an unknown id, the patched component is committed, or a refused dependency list adds the cycle error before the success notice |
| DetailView.SaveWith | src/components/DetailView.jsx:124-146 | with a URL error only an error notification; otherwise the patch holds exactly the changed fields, an empty patch does nothing, and a non-empty one is submitted |
| DetailView.HandleSave | src/components/DetailView.jsx:124-146 | as written: the patch compares the content with the stored property itself, so a component without content is saved with empty content and a success notice; URL errors, empty and non-empty patches as in SaveWith |
| DetailView.HandleSaveIntended | src/components/DetailView.jsx:124-146 | corrected: the patch holds exactly the fields that differ, a missing content counting as ""; URL errors, empty and non-empty patches as in SaveWith |
| DetailView.DeleteBlockedMessageInjective | src/components/DetailView.jsx:164 | different dependent counts give different messages |
| DetailView.HandleDelete | src/components/DetailView.jsx:158-174 | with dependents only an error notification; without confirmation nothing; otherwise the delete and a success notification; the case file changes only when deletion is allowed and confirmed |
| DetailView.ToggleFlips | src/components/DetailView.jsx:176-184 | toggling flips the id's membership and leaves every other id as it was |
| DetailView.ToggleTwice | src/components/DetailView.jsx:176-184 | toggling an unselected id twice restores the selection |
| DetailView.AvailableExact | src/components/DetailView.jsx:187-189 | the offered components are all components except the current one |
| Header.CanUndoIffUndoMoves | src/components/Header.jsx:12 | the undo button is enabled exactly when the store's undo would change something |
| Header.CanRedoIffRedoMoves | src/components/Header.jsx:13 | the redo button is enabled exactly when the store's redo would change something |
| Header.LastSaveLabels | src/components/Header.jsx:27-40 | under a minute, a future time included, is "just now"; the second minute is "1 minute ago"; minutes 2 to 59 are counted; from an hour on, the time is shown |
| Header.NeverSavedIffNoTimestamp | src/components/Header.jsx:28 | "Never saved" is shown exactly when there is no save time |
| Header.MinutesAgoInjective | src/components/Header.jsx:37 | different minute counts give different labels |

## Left out

- **Network.** The bodies of `fetch` and the `AbortController` timer in `src/services/openai.js`, and `analyzeConsistency`, are not modelled. Their outcome (a reply status, a detail, a content, a timeout, a network failure, or no key) is an input.
- **Timers.** The auto-dismiss of notifications (`setTimeout`) and the autosave interval are timers. Only the state they change is modelled.
- **Browser storage.** `localStorage`, `sessionStorage` and `FileReader` are replaced by parameters: the stored data, the write outcome, the decoded entries. `exportCaseFile` only downloads a file and is not modelled.
- **JSON.** `JSON.parse` and `JSON.stringify` are not modelled. The exports are modelled up to the value handed to `JSON.stringify`. Comparing `JSON.stringify` of two sorted id arrays is modelled as sequence equality.
- **Clock and randomness.** `Date.now`, `toISOString`, `Math.random` suffixes, and the locale's date and time text are parameters.
- **Table extraction.** The regular expression that extracts the markdown table (src/services/consistencyAnalysis.js:83) is not modelled. The parse starts from the extracted table text.
- **URL parsing.** The `URL` constructor (src/components/DetailView.jsx:48) is abstracted to its protocol: absent when the text does not parse.
- **Case folding.** Lower-casing is ASCII only. Unicode case folding is not modelled.
- **Whitespace.** Text.IsSpace knows only the ASCII whitespace characters. JavaScript's `trim` and `\s` also remove Unicode spaces such as the no-break space and the line separators, which the model keeps.
- ComponentModel.TypeDisplayName: a type that names an Object.prototype member ("constructor", "toString", "hasOwnProperty", "__proto__") is treated as unknown and shown as it is. The source's object lookup at src/utils/componentUtils.js:46 finds the inherited member and returns it instead of the type text.
- ComponentModel.GetStatusInfo: a status that names an Object.prototype member is treated as unknown and gets the sketch badge. The source's lookup at src/utils/componentUtils.js:73 returns the inherited member instead.
- Consistency.FormatCaseFileForAnalysis: a component whose type names an Object.prototype member is treated as being of an unknown type and left out of the text. The source throws a TypeError at the `push` of src/services/consistencyAnalysis.js:22-23. Imports are not validated (src/store.js:389-390), so such a type is reachable.
- Consistency.GroupByType: the TypeError of src/services/consistencyAnalysis.js:22-23 for a type that names an Object.prototype member is not modelled: such a component joins no group.
- Consistency.OtherKindIgnored: covers only types that are not Object.prototype member names. For those names the source throws rather than leaving the text unchanged.
- ComponentQueries.FilterComponentsAsWritten: its "fails exactly when" covers only a missing content. A component whose type names an Object.prototype member and whose title does not match also makes the source throw, at the `toLowerCase()` of the inherited display name (src/utils/componentUtils.js:174). The model searches the type text instead.
- **UTF-16 code units.** A Dafny string is a sequence of characters, and JavaScript's `length`, `substring` and `<` work on UTF-16 code units. The two agree for text inside the Basic Multilingual Plane. For text with characters outside it, OpenAI.EstimatedTokens counts fewer units than the source, OpenAI.Excerpt may cut at a different place, Ordering.StrLess may order differently, and Templates.Slug writes one '-' where the source, whose pattern has no `u` flag, writes two.
- **UI.** Rendering, modals and the UI files outside the detail editor and the header are not modelled. The `confirm` dialog is a boolean input.
- DetailView.HandleSave: the in-place `sort()` at src/components/DetailView.jsx:138 is not modelled. That sort reorders the stored component's own dependency array, which history snapshots share. The model leaves the stored list as it was, and the patch carries the sorted selection. After a save, the source's stored dependency list is sorted, so its dependency chain and the order of the dependency context in the prompt can differ from the model's. This is true even when the patch turns out empty.
- Store.CaseStore.BeginGeneration: `generateAIContent` is one async function. The model splits it into this method and Store.CaseStore.FinishGeneration, with the request's outcome as an input in between. Interleavings with other actions during the request are not modelled. `handleGenerate` (src/components/DetailView.jsx:148-156) is DetailView.HandleSave followed by these two, and is not modelled as a composite.
- **Templates.**
  - The `imageUrl` and `imageAltText` fields of template entries are not modelled.
  - Template entries are typed records. Only validateTemplate looks at values of unknown shape, through Templates.ValidateTemplate's own shape datatype.
- **Logging.** The `console` logging throughout is not modelled.

## Findings

| source | as written | input that shows it | evidently intended | confidence | as-written member | corrected member |
|---|---|---|---|---|---|---|
| src/utils/componentUtils.js:173 | `component.content.toLowerCase()` is called on a component without content, so the search throws a TypeError | a "New Witness" created from the sidebar (no content) and the query "zz" | a missing content searched as empty text | not executed | ComponentQueries.FilterComponentsAsWritten, ComponentQueries.FilterThrowsOnMissingContent | ComponentQueries.FilterComponents, ComponentQueries.KeepExact, ComponentQueries.KeepIdempotent |
| src/components/DetailView.jsx:100 | local content is compared (here and at line 135) with `currentComponent.content` without `\|\| ''`, unlike the image fields. A component without content shows unsaved changes right after sync, and saving it writes empty content with a success notice | any component created from the sidebar, which passes no content, opened in the editor | compare against `content \|\| ''`, as for the image fields | not executed | DetailView.HasChangesAsWritten, DetailView.SavePatchAsWritten, DetailView.HandleSave, DetailView.ContentlessLooksChangedAsWritten | DetailView.HasChanges, DetailView.SavePatch, DetailView.HandleSaveIntended, DetailView.SyncedHasNoChanges, DetailView.SavedEditorIsClean |
