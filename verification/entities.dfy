/** The case component: its types, statuses, construction, display lookups
    and validation (src/utils/componentUtils.js). */
module ComponentModel {
  import opened Wrappers
  import opened Text

  type Id = string

  const GOALS: string := "GOALS"
  const CASE: string := "CASE"
  const WITNESS: string := "WITNESS"
  const DOCUMENT: string := "DOCUMENT"

  const SKETCH: string := "SKETCH"
  const GENERATING: string := "GENERATING"
  const GENERATED: string := "GENERATED"
  const ERROR: string := "ERROR"

  const ComponentTypes: seq<string> := [GOALS, CASE, WITNESS, DOCUMENT]
  const ComponentStatuses: seq<string> := [SKETCH, GENERATING, GENERATED, ERROR]

  /** A component as the store holds it. Properties a component may lack
      (a component created from the sidebar has no `content`, one created
      from a template no `userInput` until it is added) are options; a
      timestamp is a number of milliseconds. */
  datatype Component = Component(
    id: Id,
    kind: string,
    title: string,
    status: string,
    content: Option<string>,
    userInput: string,
    aiGeneratedContent: string,
    aiProposal: Option<string>,
    hasProposal: Option<bool>,
    dependencies: seq<Id>,
    imageUrl: Option<string>,
    imageAltText: Option<string>,
    lastUpdated: nat)

  /** The object a caller hands to `addComponent`: every property but the
      type may be missing. */
  datatype Draft = Draft(
    id: Option<Id>,
    kind: string,
    title: Option<string>,
    status: Option<string>,
    content: Option<string>,
    userInput: Option<string>,
    aiGeneratedContent: Option<string>,
    aiProposal: Option<string>,
    hasProposal: Option<bool>,
    dependencies: Option<seq<Id>>,
    imageUrl: Option<string>,
    imageAltText: Option<string>,
    lastUpdated: Option<nat>)

  /** The `updates` object of `updateComponent`: the properties to overwrite.
      No caller passes an id or a type. */
  datatype Patch = Patch(
    title: Option<string>,
    status: Option<string>,
    content: Option<string>,
    userInput: Option<string>,
    aiGeneratedContent: Option<string>,
    aiProposal: Option<string>,
    hasProposal: Option<bool>,
    dependencies: Option<seq<Id>>,
    imageUrl: Option<string>,
    imageAltText: Option<string>)

  const EmptyPatch: Patch := Patch(None, None, None, None, None, None, None, None, None, None)

  /** `{...component, ...updates, lastUpdated}`: the patch's properties win. */
  function ApplyPatch(c: Component, p: Patch, now: nat): (r: Component)
    ensures r.id == c.id && r.kind == c.kind && r.lastUpdated == now
    ensures r.title == p.title.GetOr(c.title) && r.status == p.status.GetOr(c.status)
    ensures r.dependencies == p.dependencies.GetOr(c.dependencies)
    ensures p.content.Some? ==> r.content == p.content
    ensures p.content.None? ==> r.content == c.content
    ensures r.userInput == p.userInput.GetOr(c.userInput)
    ensures r.aiGeneratedContent == p.aiGeneratedContent.GetOr(c.aiGeneratedContent)
    ensures r.aiProposal == (if p.aiProposal.Some? then p.aiProposal else c.aiProposal)
    ensures r.hasProposal == (if p.hasProposal.Some? then p.hasProposal else c.hasProposal)
    ensures r.imageUrl == (if p.imageUrl.Some? then p.imageUrl else c.imageUrl)
    ensures r.imageAltText == (if p.imageAltText.Some? then p.imageAltText else c.imageAltText)
    ensures p == EmptyPatch ==> r == c.(lastUpdated := now)
  {
    Component(
      c.id, c.kind,
      p.title.GetOr(c.title),
      p.status.GetOr(c.status),
      if p.content.Some? then p.content else c.content,
      p.userInput.GetOr(c.userInput),
      p.aiGeneratedContent.GetOr(c.aiGeneratedContent),
      if p.aiProposal.Some? then p.aiProposal else c.aiProposal,
      if p.hasProposal.Some? then p.hasProposal else c.hasProposal,
      p.dependencies.GetOr(c.dependencies),
      if p.imageUrl.Some? then p.imageUrl else c.imageUrl,
      if p.imageAltText.Some? then p.imageAltText else c.imageAltText,
      now)
  }

  /** `createComponent(type, title, content)`: the id joins the lower-cased
      kind, the clock reading and nine random characters (`suffix`). */
  function CreateComponent(kind: string, title: string, content: string, now: nat, suffix: string): (d: Draft)
    ensures d.kind == kind
    ensures d.status == Some(SKETCH) && d.dependencies == Some([])
    ensures d.aiProposal == Some("") && d.hasProposal == Some(false)
    ensures d.content == Some(content) && d.lastUpdated == Some(now)
    ensures d.title == Some(if title == "" then "New " + kind else title)
    ensures d.id.Some? && |d.id.value| > |kind| && d.id.value[..|kind|] == Lower(kind)
    ensures d.userInput.None? && d.aiGeneratedContent.None?
  {
    Draft(
      Some(Lower(kind) + "-" + NatToString(now) + "-" + suffix),
      kind,
      Some(if title == "" then "New " + kind else title),
      Some(SKETCH),
      Some(content),
      None,
      None,
      Some(""),
      Some(false),
      Some([]),
      None,
      None,
      Some(now))
  }

  /** `getComponentTypeDisplayName`: the four known types have a label; any
      other type is shown as itself. */
  function TypeDisplayName(kind: string): (name: string)
    ensures kind !in ComponentTypes ==> name == kind
    ensures kind in ComponentTypes ==> name in ["Learning Goals", "Case Description", "Witness", "Document"]
    ensures kind == GOALS ==> name == "Learning Goals"
    ensures kind == CASE ==> name == "Case Description"
    ensures kind == WITNESS ==> name == "Witness"
    ensures kind == DOCUMENT ==> name == "Document"
  {
    if kind == GOALS then "Learning Goals"
    else if kind == CASE then "Case Description"
    else if kind == WITNESS then "Witness"
    else if kind == DOCUMENT then "Document"
    else kind
  }

  lemma TypeDisplayNameInjective(a: string, b: string)
    requires a in ComponentTypes && b in ComponentTypes
    requires TypeDisplayName(a) == TypeDisplayName(b)
    ensures a == b
  {
  }

  datatype StatusInfo = StatusInfo(caption: string, color: string, icon: string)

  const SketchInfo: StatusInfo := StatusInfo("Draft", "text-gray-600 bg-gray-100", "📝")

  /** `getComponentStatusInfo`: an unknown status is shown as a draft. */
  function GetStatusInfo(status: string): (info: StatusInfo)
    ensures status !in [GENERATING, GENERATED, ERROR] ==> info == SketchInfo
    ensures status == GENERATING ==> info.caption == "Generating..." && info.icon == "⚡"
    ensures status == GENERATED ==> info.caption == "Generated" && info.icon == "✅"
    ensures status == ERROR ==> info.caption == "Error" && info.icon == "❌"
  {
    if status == GENERATING then StatusInfo("Generating...", "text-blue-600 bg-blue-100", "⚡")
    else if status == GENERATED then StatusInfo("Generated", "text-green-600 bg-green-100", "✅")
    else if status == ERROR then StatusInfo("Error", "text-red-600 bg-red-100", "❌")
    else SketchInfo
  }

  /** Distinct known statuses have distinct captions. */
  lemma StatusLabelsDistinct(a: string, b: string)
    requires a in ComponentStatuses && b in ComponentStatuses && a != b
    ensures GetStatusInfo(a).caption != GetStatusInfo(b).caption
  {
  }

  /** What `validateComponent` inspects of its argument: a missing property
      or a non-array `dependencies` is representable. */
  datatype Shape = Shape(
    id: Option<string>,
    kind: Option<string>,
    title: Option<string>,
    status: Option<string>,
    dependenciesIsArray: bool)

  // The messages of `validateComponent`, spelled in short pieces: the verifier
  // reads a concatenation of short literals far more cheaply than one long
  // literal; the joined text is the source's, character for character.
  const MsgRequired := "Component " + "is required"
  const MsgId := "Component ID " + "is required"
  const MsgType := "Valid component " + "type is required"
  const MsgTitle := "Component title " + "is required"
  const MsgStatus := "Valid component " + "status is " + "required"
  const MsgDeps := "Dependencies " + "must be an array"

  /** The checks in the order they run. */
  const CheckOrder: seq<string> := [MsgId, MsgType, MsgTitle, MsgStatus, MsgDeps]

  predicate IdMissing(s: Shape) { s.id.None? || s.id.value == "" }
  predicate TypeInvalid(s: Shape) { s.kind.None? || s.kind.value !in ComponentTypes }
  predicate TitleMissing(s: Shape) { s.title.None? || IsBlank(s.title.value) }
  predicate StatusInvalid(s: Shape) { s.status.None? || s.status.value !in ComponentStatuses }

  /** The shape of a stored component. */
  function ShapeOf(c: Component): Shape {
    Shape(Some(c.id), Some(c.kind), Some(c.title), Some(c.status), true)
  }

  /** A one-element list when the check fails. */
  function Report(failed: bool, m: string): seq<string> {
    if failed then [m] else []
  }

  /** The messages `validateComponent` collects for a present component. */
  function Failures(s: Shape): seq<string> {
    Report(IdMissing(s), MsgId) + Report(TypeInvalid(s), MsgType) + Report(TitleMissing(s), MsgTitle)
    + Report(StatusInvalid(s), MsgStatus) + Report(!s.dependenciesIsArray, MsgDeps)
  }

  /** `validateComponent`: ['Component is required'] for a missing
      component, otherwise the messages of the failed checks. */
  method ValidateComponent(component: Option<Shape>) returns (errors: seq<string>)
    ensures component.None? ==> errors == [MsgRequired]
    ensures component.Some? ==> errors == Failures(component.value)
  {
    errors := [];
    if component.None? {
      errors := errors + [MsgRequired];
      return;
    }
    var s := component.value;
    if IdMissing(s) {
      errors := errors + [MsgId];
    }
    assert errors == Report(IdMissing(s), MsgId);
    if TypeInvalid(s) {
      errors := errors + [MsgType];
    }
    assert errors == Report(IdMissing(s), MsgId) + Report(TypeInvalid(s), MsgType);
    if TitleMissing(s) {
      errors := errors + [MsgTitle];
    }
    ghost var three := Report(IdMissing(s), MsgId) + Report(TypeInvalid(s), MsgType) + Report(TitleMissing(s), MsgTitle);
    assert errors == three;
    if StatusInvalid(s) {
      errors := errors + [MsgStatus];
    }
    assert errors == three + Report(StatusInvalid(s), MsgStatus);
    if !s.dependenciesIsArray {
      errors := errors + [MsgDeps];
    }
  }

  /** Each message is reported exactly when its check fails, and none is
      reported exactly when all checks pass. */
  lemma FailuresExact(s: Shape)
    ensures MsgId in Failures(s) <==> IdMissing(s)
    ensures MsgType in Failures(s) <==> TypeInvalid(s)
    ensures MsgTitle in Failures(s) <==> TitleMissing(s)
    ensures MsgStatus in Failures(s) <==> StatusInvalid(s)
    ensures MsgDeps in Failures(s) <==> !s.dependenciesIsArray
    ensures Failures(s) == [] <==> !IdMissing(s) && !TypeInvalid(s) && !TitleMissing(s) && !StatusInvalid(s) && s.dependenciesIsArray
  {
    MessagesDistinct();
    ReportsExact(IdMissing(s), TypeInvalid(s), TitleMissing(s), StatusInvalid(s), !s.dependenciesIsArray,
      MsgId, MsgType, MsgTitle, MsgStatus, MsgDeps);
  }

  /** Five conditional reports of five different messages: each message is
      present exactly when its condition holds. */
  lemma ReportsExact(b1: bool, b2: bool, b3: bool, b4: bool, b5: bool, m1: string, m2: string, m3: string, m4: string, m5: string)
    requires m1 != m2 && m1 != m3 && m1 != m4 && m1 != m5 && m2 != m3 && m2 != m4 && m2 != m5
    requires m3 != m4 && m3 != m5 && m4 != m5
    ensures var ms := Report(b1, m1) + Report(b2, m2) + Report(b3, m3) + Report(b4, m4) + Report(b5, m5);
      && (m1 in ms <==> b1) && (m2 in ms <==> b2) && (m3 in ms <==> b3) && (m4 in ms <==> b4) && (m5 in ms <==> b5)
      && (ms == [] <==> !b1 && !b2 && !b3 && !b4 && !b5)
  {
    var ms := Report(b1, m1) + Report(b2, m2) + Report(b3, m3) + Report(b4, m4) + Report(b5, m5);
    forall x
      ensures x in ms <==> (b1 && x == m1) || (b2 && x == m2) || (b3 && x == m3) || (b4 && x == m4) || (b5 && x == m5)
    {
      InReport(x, b1, m1);
      InReport(x, b2, m2);
      InReport(x, b3, m3);
      InReport(x, b4, m4);
      InReport(x, b5, m5);
    }
    assert |ms| == |Report(b1, m1)| + |Report(b2, m2)| + |Report(b3, m3)| + |Report(b4, m4)| + |Report(b5, m5)|;
  }

  lemma InReport(x: string, failed: bool, m: string)
    ensures x in Report(failed, m) <==> failed && x == m
  {
  }

  /** The five messages have five different lengths, so no two are equal. */
  lemma MessagesDistinct()
    ensures MsgId != MsgType && MsgId != MsgTitle && MsgId != MsgStatus && MsgId != MsgDeps
    ensures MsgType != MsgTitle && MsgType != MsgStatus && MsgType != MsgDeps
    ensures MsgTitle != MsgStatus && MsgTitle != MsgDeps && MsgStatus != MsgDeps
  {
    assert |MsgId| == 24;
    assert |MsgType| == 32;
    assert |MsgTitle| == 27;
    assert |MsgStatus| == 34;
    assert |MsgDeps| == 29;
  }

  /** Messages listed by strictly increasing position in the check order. */
  predicate InCheckOrder(ms: seq<string>) {
    && (forall i :: 0 <= i < |ms| ==> Rank(ms[i]) < |CheckOrder|)
    && (forall i, j :: 0 <= i < j < |ms| ==> Rank(ms[i]) < Rank(ms[j]))
  }

  lemma AppendInCheckOrder(ms: seq<string>, failed: bool, m: string)
    requires InCheckOrder(ms) && Rank(m) < |CheckOrder|
    requires forall i :: 0 <= i < |ms| ==> Rank(ms[i]) < Rank(m)
    ensures InCheckOrder(ms + Report(failed, m))
    ensures forall i :: 0 <= i < |ms + Report(failed, m)| ==> Rank((ms + Report(failed, m))[i]) <= Rank(m)
  {
  }

  /** The messages come in check order. */
  lemma FailuresOrdered(s: Shape)
    ensures InCheckOrder(Failures(s))
  {
    CheckOrderRanks();
    ReportsInOrder(IdMissing(s), TypeInvalid(s), TitleMissing(s), StatusInvalid(s), !s.dependenciesIsArray,
      MsgId, MsgType, MsgTitle, MsgStatus, MsgDeps);
  }

  /** Conditional reports of messages of ranks 0 to 4, concatenated in that
      order, are in check order. */
  lemma ReportsInOrder(b1: bool, b2: bool, b3: bool, b4: bool, b5: bool, m1: string, m2: string, m3: string, m4: string, m5: string)
    requires Rank(m1) == 0 && Rank(m2) == 1 && Rank(m3) == 2 && Rank(m4) == 3 && Rank(m5) == 4
    ensures InCheckOrder(Report(b1, m1) + Report(b2, m2) + Report(b3, m3) + Report(b4, m4) + Report(b5, m5))
  {
    var ms1 := Report(b1, m1);
    AppendInCheckOrder([], b1, m1);
    var ms2 := ms1 + Report(b2, m2);
    AppendInCheckOrder(ms1, b2, m2);
    var ms3 := ms2 + Report(b3, m3);
    AppendInCheckOrder(ms2, b3, m3);
    var ms4 := ms3 + Report(b4, m4);
    AppendInCheckOrder(ms3, b4, m4);
    AppendInCheckOrder(ms4, b5, m5);
  }

  lemma CheckOrderRanks()
    ensures Rank(MsgId) == 0 && Rank(MsgType) == 1 && Rank(MsgTitle) == 2 && Rank(MsgStatus) == 3 && Rank(MsgDeps) == 4
  {
    MessagesDistinct();
  }

  /** Position of a message in the check order; 5 for any other text. */
  function Rank(m: string): nat {
    if m == MsgId then 0
    else if m == MsgType then 1
    else if m == MsgTitle then 2
    else if m == MsgStatus then 3
    else if m == MsgDeps then 4
    else 5
  }

  /** What `addComponent` stores for a draft (src/store.js:30-45): the
      defaults, then every property the caller supplied, which wins. */
  function Materialize(d: Draft, now: nat): (c: Component)
    ensures c.id == (if d.id.None? || d.id.value == "" then Lower(d.kind) + "-" + NatToString(now) else d.id.value)
    ensures c.kind == d.kind
    ensures c.status == d.status.GetOr(SKETCH)
    ensures c.title == d.title.GetOr("New " + d.kind)
    ensures c.dependencies == d.dependencies.GetOr([])
    ensures c.content == d.content
  {
    Component(
      if d.id.None? || d.id.value == "" then Lower(d.kind) + "-" + NatToString(now) else d.id.value,
      d.kind,
      d.title.GetOr("New " + d.kind),
      d.status.GetOr(SKETCH),
      d.content,
      d.userInput.GetOr(""),
      d.aiGeneratedContent.GetOr(""),
      d.aiProposal,
      d.hasProposal,
      d.dependencies.GetOr([]),
      d.imageUrl,
      d.imageAltText,
      d.lastUpdated.GetOr(now))
  }

  /** A component made by `createComponent` for one of the four types and
      then added passes the id, type and status checks; it passes the
      title check too unless it was given a title of spaces only. */
  lemma CreatedComponentIsValid(kind: string, title: string, content: string, now: nat, later: nat, suffix: string)
    requires kind in ComponentTypes
    ensures
      var c := Materialize(CreateComponent(kind, title, content, now, suffix), later);
      !IdMissing(ShapeOf(c)) && !TypeInvalid(ShapeOf(c)) && !StatusInvalid(ShapeOf(c))
      && (!IsBlank(title) || title == "" ==> !TitleMissing(ShapeOf(c)))
      && c.status == SKETCH && c.dependencies == []
  {
    var c := Materialize(CreateComponent(kind, title, content, now, suffix), later);
    if title == "" {
      assert c.title == "New " + kind;
      assert c.title[0] == 'N' && !IsSpace(c.title[0]);
      BlankIffAllSpace(c.title);
    }
  }
}
