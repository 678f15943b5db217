/** The case templates of src/utils/templates.js: the three built-in
    templates, the two-pass compiler that turns a template's entries into
    components with resolved dependency ids, template lookup, the summary
    list and structural validation. The clock reading and the random suffix
    that `createComponent` puts into each id are a parameter, `stamps(i)` for
    the i-th entry. */
module Templates {
  import opened Wrappers
  import opened Text
  import opened ComponentModel
  import opened Seqs

  /** One entry of a template's `components`. The `imageUrl` and
      `imageAltText` of document entries are not listed: the compiler passes
      only type, title and content to `createComponent`. */
  datatype TemplateEntry = TemplateEntry(kind: string, title: string, content: string, dependencies: seq<string>)

  datatype Template = Template(id: string, name: string, description: string, components: seq<TemplateEntry>)

  /** The clock reading and random suffix `createComponent` uses. */
  datatype Stamp = Stamp(now: nat, suffix: string)

  // ---------------------------------------------------------------------
  // The title slug

  predicate IsSlugChar(c: char) {
    'a' <= c <= 'z' || '0' <= c <= '9' || c == '-'
  }

  function SlugChar(c: char): char {
    if 'a' <= c <= 'z' || '0' <= c <= '9' then c else '-'
  }

  /** `title.toLowerCase().replace(/[^a-z0-9]/g, '-')`: one character out
      for each character in, drawn from [a-z0-9-]. */
  function Slug(title: string): (r: string)
    ensures |r| == |title|
    ensures forall i :: 0 <= i < |r| ==> IsSlugChar(r[i])
    ensures forall i :: 0 <= i < |r| ==> r[i] == SlugChar(LowerChar(title[i]))
  {
    if title == [] then [] else [SlugChar(LowerChar(title[0]))] + Slug(title[1..])
  }

  /** A slug checked character by character. */
  lemma SlugIs(title: string, slug: string)
    requires |title| == |slug| && forall i :: 0 <= i < |slug| ==> SlugChar(LowerChar(title[i])) == slug[i]
    ensures Slug(title) == slug
  {
  }

  /** The slug of a slug is itself. */
  lemma SlugIdempotent(title: string)
    ensures Slug(Slug(title)) == Slug(title)
  {
    SlugFixed(Slug(title));
  }

  /** A title already in slug form is its own slug. */
  lemma {:induction false} SlugFixed(s: string)
    requires forall i :: 0 <= i < |s| ==> IsSlugChar(s[i])
    ensures Slug(s) == s
  {
    forall i | 0 <= i < |s| ensures Slug(s)[i] == s[i] {
      assert IsSlugChar(s[i]);
    }
  }

  // ---------------------------------------------------------------------
  // processTemplate

  /** The component `createComponent` makes for an entry. */
  function Create(e: TemplateEntry, s: Stamp): (d: Draft)
    ensures d.id.Some?
  {
    CreateComponent(e.kind, e.title, e.content, s.now, s.suffix)
  }

  function CreatedId(e: TemplateEntry, s: Stamp): Id {
    Create(e, s).id.value
  }

  /** The components the first pass creates for the first n entries. */
  function CreatedUpTo(entries: seq<TemplateEntry>, stamps: nat -> Stamp, n: nat): (r: seq<Draft>)
    requires n <= |entries|
    ensures |r| == n
  {
    seq(n, j requires 0 <= j < n => Create(entries[j], stamps(j)))
  }

  /** The ids the first pass gives the entries, in order. */
  function CreatedIds(entries: seq<TemplateEntry>, stamps: nat -> Stamp): (r: seq<Id>)
    ensures |r| == |entries|
  {
    seq(|entries|, j requires 0 <= j < |entries| => CreatedId(entries[j], stamps(j)))
  }

  /** `componentMap` after the first pass over the first n entries, entry j
      having id `ids[j]`: each entry's slug and its exact title name its
      id, a later entry winning over an earlier one on the same key. */
  function TitleIndex(entries: seq<TemplateEntry>, ids: seq<Id>, n: nat): map<string, Id>
    requires n <= |entries| && n <= |ids|
  {
    if n == 0 then map[]
    else
      var e := entries[n - 1];
      TitleIndex(entries, ids, n - 1)[Slug(e.title) := ids[n - 1]][e.title := ids[n - 1]]
  }

  /** `componentMap.get(slug) || componentMap.get(title)`: the slug first,
      then the reference as written. */
  function Lookup(index: map<string, Id>, reference: string): Option<Id> {
    var slug := Slug(reference);
    if slug in index && index[slug] != "" then Some(index[slug])
    else if reference in index && index[reference] != "" then Some(index[reference])
    else None
  }

  /** The second pass for one component: each reference looked up, then
      the unresolved ones and the component's own id dropped. */
  function ResolveDeps(references: seq<string>, index: map<string, Id>, self: Id): (r: seq<Id>)
    ensures |r| <= |references|
  {
    if references == [] then []
    else
      var rest := ResolveDeps(references[1..], index, self);
      match Lookup(index, references[0])
      case Some(id) => if id != self then [id] + rest else rest
      case None => rest
  }

  /** The i-th component after the second pass: the created component with
      its references resolved against `index`. */
  function Resolved(es: seq<TemplateEntry>, stamps: nat -> Stamp, index: map<string, Id>, i: int): Draft
    requires 0 <= i < |es|
  {
    Create(es[i], stamps(i)).(dependencies := Some(ResolveDeps(es[i].dependencies, index, CreatedId(es[i], stamps(i)))))
  }

  /** What `processTemplate` returns: one component per entry, in order,
      with its references resolved against the full index. */
  function Processed(template: Template, stamps: nat -> Stamp): (r: seq<Draft>)
    ensures |r| == |template.components|
  {
    var es := template.components;
    seq(|es|, i requires 0 <= i < |es| => Resolved(es, stamps, TitleIndex(es, CreatedIds(es, stamps), |es|), i))
  }

  /** The first pass of `processTemplate`: each entry's component created,
      and its id filed under the entry's slug and title. */
  method FirstPass(entries: seq<TemplateEntry>, stamps: nat -> Stamp) returns (created: seq<Draft>, componentMap: map<string, Id>)
    ensures created == CreatedUpTo(entries, stamps, |entries|)
    ensures componentMap == TitleIndex(entries, CreatedIds(entries, stamps), |entries|)
  {
    ghost var ids := CreatedIds(entries, stamps);
    componentMap := map[];
    created := [];
    for i := 0 to |entries|
      invariant created == CreatedUpTo(entries, stamps, i)
      invariant componentMap == TitleIndex(entries, ids, i)
    {
      var e := entries[i];
      var component := Create(e, stamps(i));
      var titleId := Slug(e.title);
      FirstPassStep(entries, stamps, i);
      componentMap := componentMap[titleId := component.id.value][e.title := component.id.value];
      created := created + [component];
    }
  }

  /** One step of the first pass, for the loop above. */
  lemma FirstPassStep(entries: seq<TemplateEntry>, stamps: nat -> Stamp, i: nat)
    requires i < |entries|
    ensures CreatedUpTo(entries, stamps, i + 1) == CreatedUpTo(entries, stamps, i) + [Create(entries[i], stamps(i))]
    ensures var id := Create(entries[i], stamps(i)).id.value;
      TitleIndex(entries, CreatedIds(entries, stamps), i + 1)
      == TitleIndex(entries, CreatedIds(entries, stamps), i)[Slug(entries[i].title) := id][entries[i].title := id]
  {
  }

  /** The second pass of `processTemplate`: each component's references
      replaced by the ids they resolve to in `componentMap`. */
  method SecondPass(entries: seq<TemplateEntry>, stamps: nat -> Stamp, created: seq<Draft>, componentMap: map<string, Id>)
    returns (components: seq<Draft>)
    requires created == CreatedUpTo(entries, stamps, |entries|)
    ensures |components| == |entries|
    ensures forall j :: 0 <= j < |entries| ==> components[j] == Resolved(entries, stamps, componentMap, j)
  {
    components := created;
    for i := 0 to |entries|
      invariant |components| == |entries|
      invariant forall j :: 0 <= j < i ==> components[j] == Resolved(entries, stamps, componentMap, j)
      invariant forall j :: i <= j < |entries| ==> components[j] == Create(entries[j], stamps(j))
    {
      var resolved := ResolveDeps(entries[i].dependencies, componentMap, components[i].id.value);
      components := components[i := components[i].(dependencies := Some(resolved))];
    }
  }

  /** `processTemplate(template)`: a first pass creating the components and
      filling the index, a second pass rewriting each dependency list. */
  method ProcessTemplate(template: Template, stamps: nat -> Stamp) returns (components: seq<Draft>)
    ensures components == Processed(template, stamps)
  {
    var created, componentMap := FirstPass(template.components, stamps);
    components := SecondPass(template.components, stamps, created, componentMap);
  }

  /** One component per entry, in order, with the entry's type, title
      (or "New <type>" for an empty one) and content, in status SKETCH, and
      with its own id. */
  lemma ProcessedShape(template: Template, stamps: nat -> Stamp, i: int)
    requires 0 <= i < |template.components|
    ensures
      var e, c := template.components[i], Processed(template, stamps)[i];
      c.kind == e.kind && c.title == Some(if e.title == "" then "New " + e.kind else e.title)
      && c.content == Some(e.content) && c.status == Some(SKETCH)
      && c.id == Some(CreatedId(e, stamps(i))) && c.dependencies.Some?
  {
  }

  /** A resolved list holds exactly the ids that some reference looks up
      to, other than the component's own. */
  lemma {:induction false} ResolveDepsExact(references: seq<string>, index: map<string, Id>, self: Id)
    ensures forall id :: id in ResolveDeps(references, index, self) <==>
      id != self && exists j :: 0 <= j < |references| && Lookup(index, references[j]) == Some(id)
    decreases |references|
  {
    if references != [] {
      ResolveDepsExact(references[1..], index, self);
      forall id | id != self && (exists j :: 0 <= j < |references| && Lookup(index, references[j]) == Some(id))
        ensures id in ResolveDeps(references, index, self)
      {
        var j :| 0 <= j < |references| && Lookup(index, references[j]) == Some(id);
        if j > 0 {
          assert references[1..][j - 1] == references[j];
        }
      }
      forall id | id in ResolveDeps(references, index, self)
        ensures exists j :: 0 <= j < |references| && Lookup(index, references[j]) == Some(id)
      {
        if Lookup(index, references[0]) != Some(id) {
          var j :| 0 <= j < |references[1..]| && Lookup(index, references[1..][j]) == Some(id);
          assert references[j + 1] == references[1..][j];
        }
      }
    }
  }

  /** The entry at j names key, by its title or by its slug. */
  predicate Names(e: TemplateEntry, key: string) {
    key == e.title || key == Slug(e.title)
  }

  /** Every key of the index is the title or slug of one of the first n
      entries, and maps to that entry's id. */
  lemma {:induction false} TitleIndexIds(entries: seq<TemplateEntry>, ids: seq<Id>, n: nat, key: string)
    requires n <= |entries| && n <= |ids| && key in TitleIndex(entries, ids, n)
    ensures exists j :: 0 <= j < n && Names(entries[j], key) && TitleIndex(entries, ids, n)[key] == ids[j]
    decreases n
  {
    var e := entries[n - 1];
    if !Names(e, key) {
      TitleIndexIds(entries, ids, n - 1, key);
    }
  }

  /** A key named by entry j and by no later entry maps to entry j's id:
      the later entry wins. */
  lemma {:induction false} TitleIndexLatest(entries: seq<TemplateEntry>, ids: seq<Id>, n: nat, j: nat, key: string)
    requires j < n <= |entries| && n <= |ids| && Names(entries[j], key)
    requires forall k :: j < k < n ==> !Names(entries[k], key)
    ensures key in TitleIndex(entries, ids, n) && TitleIndex(entries, ids, n)[key] == ids[j]
    decreases n
  {
    if j < n - 1 {
      TitleIndexLatest(entries, ids, n - 1, j, key);
    }
  }

  /** Every resolved dependency is the id of another component created in
      the same call. */
  lemma ProcessedDependenciesCreated(template: Template, stamps: nat -> Stamp, i: int, id: Id)
    requires 0 <= i < |template.components|
    requires id in Processed(template, stamps)[i].dependencies.value
    ensures id != CreatedId(template.components[i], stamps(i))
    ensures exists j :: 0 <= j < |template.components| && id == CreatedId(template.components[j], stamps(j))
  {
    var es := template.components;
    var ids := CreatedIds(es, stamps);
    var index := TitleIndex(es, ids, |es|);
    ResolveDepsExact(es[i].dependencies, index, CreatedId(es[i], stamps(i)));
    var k :| 0 <= k < |es[i].dependencies| && Lookup(index, es[i].dependencies[k]) == Some(id);
    var reference := es[i].dependencies[k];
    var key := if Slug(reference) in index && index[Slug(reference)] != "" then Slug(reference) else reference;
    TitleIndexIds(es, ids, |es|, key);
  }

  /** A created id starts with the first letter of its lower-cased type. */
  lemma CreatedIdFirst(e: TemplateEntry, s: Stamp)
    requires e.kind in ComponentTypes
    ensures CreatedId(e, s)[0] == Lower(e.kind)[0]
  {
    assert CreatedId(e, s)[..|e.kind|] == Lower(e.kind);
  }

  /** Ids created for two different known types differ: the lower-cased
      types start with four different letters. */
  lemma KnownTypeIdsDiffer(a: TemplateEntry, b: TemplateEntry, sa: Stamp, sb: Stamp)
    requires a.kind in ComponentTypes && b.kind in ComponentTypes && a.kind != b.kind
    ensures CreatedId(a, sa) != CreatedId(b, sb)
  {
    CreatedIdFirst(a, sa);
    CreatedIdFirst(b, sb);
    InitialsDiffer(a.kind, b.kind);
    assert CreatedId(a, sa)[0] != CreatedId(b, sb)[0];
  }

  /** Two different known types have different lower-cased initials. */
  lemma InitialsDiffer(j: string, k: string)
    requires j in ComponentTypes && k in ComponentTypes && j != k
    ensures Lower(j)[0] != Lower(k)[0]
  {
    TypeInitials(j);
    TypeInitials(k);
  }

  /** The four lower-cased types start with g, c, w and d, and the initial
      tells the type. */
  lemma TypeInitials(k: string)
    requires k in ComponentTypes
    ensures Lower(k)[0] == 'g' <==> k == GOALS
    ensures Lower(k)[0] == 'c' <==> k == CASE
    ensures Lower(k)[0] == 'w' <==> k == WITNESS
    ensures Lower(k)[0] == 'd' <==> k == DOCUMENT
  {
    assert LowerChar(k[0]) == Lower(k)[0];
    assert GOALS[0] == 'G' && CASE[0] == 'C' && WITNESS[0] == 'W' && DOCUMENT[0] == 'D';
  }

  // ---------------------------------------------------------------------
  // loadTemplate and getAvailableTemplates

  /** `Object.values(TEMPLATES).find(t => t.id === templateId)`. */
  function FindTemplate(templates: seq<Template>, templateId: string): (r: Option<Template>)
    ensures r.None? <==> forall t :: t in templates ==> t.id != templateId
    ensures r.Some? ==> r.value in templates && r.value.id == templateId
  {
    if templates == [] then None
    else if templates[0].id == templateId then Some(templates[0])
    else FindTemplate(templates[1..], templateId)
  }

  /** A reference matching no title or slug is dropped: if the slug `a` of
      entry 1 is named by no later entry, and `b` has a length no title has,
      a component other than entry 1 referring to [a, b] depends on entry 1
      alone. */
  lemma UnmatchedReferenceDropped(es: seq<TemplateEntry>, ids: seq<Id>, self: Id, a: string, b: string)
    requires |es| == |ids| == 6 && ids[1] != "" && ids[1] != self
    requires Slug(es[1].title) == a
    requires |es[2].title| != |a| && |es[3].title| != |a| && |es[4].title| != |a| && |es[5].title| != |a|
    requires |es[0].title| != |b| && |es[1].title| != |b| && |es[2].title| != |b|
    requires |es[3].title| != |b| && |es[4].title| != |b| && |es[5].title| != |b|
    ensures ResolveDeps([a, b], TitleIndex(es, ids, 6), self) == [ids[1]]
  {
    assert forall k :: 0 <= k < 6 ==> |es[k].title| != |b|;
    var index := TitleIndex(es, ids, 6);
    SlugIdempotent(es[1].title);
    TitleIndexLatest(es, ids, 6, 1, a);
    if b in index {
      TitleIndexIds(es, ids, 6, b);
    }
    if Slug(b) in index {
      TitleIndexIds(es, ids, 6, Slug(b));
    }
    assert Lookup(index, b) == None;
    assert ResolveDeps([a, b][1..], index, self) == [];
  }

  /** The dependencies of the i-th processed component, in terms of the
      index over all the created ids. */
  lemma ProcessedDependencies(template: Template, stamps: nat -> Stamp, i: int)
    requires 0 <= i < |template.components|
    ensures Processed(template, stamps)[i].dependencies == Some(ResolveDeps(template.components[i].dependencies,
      TitleIndex(template.components, CreatedIds(template.components, stamps), |template.components|),
      CreatedId(template.components[i], stamps(i))))
  {
  }

  /** A created id starts with the lower-cased type, so it is never empty
      when the type is not. */
  lemma CreatedIdNonEmpty(e: TemplateEntry, s: Stamp)
    ensures CreatedId(e, s) != ""
  {
  }

  datatype TemplateSummary = TemplateSummary(id: string, name: string, description: string, componentCount: nat)

  /** `getAvailableTemplates()`: one summary per template, in order. */
  function AvailableTemplates(templates: seq<Template>): (r: seq<TemplateSummary>)
    ensures |r| == |templates|
    ensures forall i :: 0 <= i < |r| ==>
      r[i].id == templates[i].id && r[i].name == templates[i].name
      && r[i].description == templates[i].description
      && r[i].componentCount == |templates[i].components|
  {
    if templates == [] then []
    else
      var t := templates[0];
      [TemplateSummary(t.id, t.name, t.description, |t.components|)] + AvailableTemplates(templates[1..])
  }

  // ---------------------------------------------------------------------
  // validateTemplate

  /** A value of unknown shape, as far as `validateTemplate` looks at it: a
      missing or empty string is absent. */
  predicate Absent(s: Option<string>) {
    s.None? || s.value == ""
  }

  datatype EntryShape = EntryShape(kind: Option<string>, title: Option<string>, content: Option<string>, dependenciesIsArray: bool)

  /** What `components` holds: nothing (or another falsy value), an array,
      or some other truthy value, on which `forEach` throws. */
  datatype Listing = Missing | NotAList | List(entries: seq<EntryShape>)

  datatype TemplateShape = TemplateShape(id: Option<string>, name: Option<string>, description: Option<string>, components: Listing)

  // The messages, spelled in short pieces: the verifier reads a concatenation
  // of short literals far more cheaply than one long literal; the joined text
  // is the source's, character for character.
  const MsgIdRequired := "Template ID " + "is required"
  const MsgNameRequired := "Template name " + "is required"
  const MsgDescriptionRequired := "Template " + "description " + "is required"
  const MsgComponentsNotArray := "Template " + "components " + "must be an array"
  const MsgTypeRequired := "type is required"
  const MsgTitleRequired := "title is " + "required"
  const MsgContentRequired := "content is " + "required"
  const MsgDependenciesNotArray := "dependencies " + "must be an array"

  function EntryErrors(e: EntryShape, index: nat): seq<string> {
    var prefix := "Component " + NatToString(index) + ": ";
    Report(Absent(e.kind), prefix + MsgTypeRequired)
    + Report(Absent(e.title), prefix + MsgTitleRequired)
    + Report(Absent(e.content), prefix + MsgContentRequired)
    + Report(!e.dependenciesIsArray, prefix + MsgDependenciesNotArray)
  }

  /** The messages for each entry, entry by entry. */
  function PerEntryErrors(entries: seq<EntryShape>): (r: seq<seq<string>>)
    ensures |r| == |entries|
  {
    seq(|entries|, j requires 0 <= j < |entries| => EntryErrors(entries[j], j))
  }

  /** The messages of all entries, in order. */
  function EntriesErrors(entries: seq<EntryShape>): seq<string> {
    Flatten(PerEntryErrors(entries))
  }

  function HeaderErrors(t: TemplateShape): seq<string> {
    Report(Absent(t.id), MsgIdRequired)
    + Report(Absent(t.name), MsgNameRequired)
    + Report(Absent(t.description), MsgDescriptionRequired)
    + Report(!t.components.List?, MsgComponentsNotArray)
  }

  predicate EntryComplete(e: EntryShape) {
    !Absent(e.kind) && !Absent(e.title) && !Absent(e.content) && e.dependenciesIsArray
  }

  /** The four checks `validateTemplate` makes on the entry at `index`. */
  method CheckEntry(e: EntryShape, index: nat) returns (errors: seq<string>)
    ensures errors == EntryErrors(e, index)
  {
    var prefix := "Component " + NatToString(index) + ": ";
    errors := [];
    if Absent(e.kind) { errors := errors + [prefix + MsgTypeRequired]; }
    if Absent(e.title) { errors := errors + [prefix + MsgTitleRequired]; }
    if Absent(e.content) { errors := errors + [prefix + MsgContentRequired]; }
    if !e.dependenciesIsArray { errors := errors + [prefix + MsgDependenciesNotArray]; }
  }

  /** The TypeError `forEach` raises on a value that is not an array, spelled
      in short pieces as the store's messages are. */
  const MsgNotIterable := "TypeError: " + "template." + "components." + "forEach is " + "not a function"

  /** The four checks `validateTemplate` makes on the template itself. */
  method CheckHeader(t: TemplateShape) returns (errors: seq<string>)
    ensures errors == HeaderErrors(t)
  {
    errors := [];
    if Absent(t.id) { errors := errors + [MsgIdRequired]; }
    if Absent(t.name) { errors := errors + [MsgNameRequired]; }
    if Absent(t.description) { errors := errors + [MsgDescriptionRequired]; }
    if !t.components.List? { errors := errors + [MsgComponentsNotArray]; }
  }

  /** The `forEach` over the entries, in order. */
  method CheckEntries(entries: seq<EntryShape>) returns (errors: seq<string>)
    ensures errors == EntriesErrors(entries)
  {
    ghost var perEntry := PerEntryErrors(entries);
    errors := [];
    for i := 0 to |entries|
      invariant errors == Flatten(perEntry[..i])
    {
      var found := CheckEntry(entries[i], i);
      FlattenStep(perEntry, i);
      errors := errors + found;
    }
    TakeAll(perEntry);
  }

  /** `validateTemplate(template)`: the header checks, then four checks per
      entry; a truthy `components` that is not an array makes it throw. */
  method ValidateTemplate(t: TemplateShape) returns (r: Result<seq<string>>)
    ensures t.components.NotAList? <==> r.Failure?
    ensures t.components.Missing? ==> r == Success(HeaderErrors(t))
    ensures t.components.List? ==> r == Success(HeaderErrors(t) + EntriesErrors(t.components.entries))
  {
    var errors := CheckHeader(t);
    match t.components {
      case Missing =>
      case NotAList => return Failure(MsgNotIterable);
      case List(entries) =>
        var found := CheckEntries(entries);
        errors := errors + found;
    }
    r := Success(errors);
  }

  /** An entry draws no message exactly when it is complete. */
  lemma EntryErrorsEmptyIff(e: EntryShape, index: nat)
    ensures EntryErrors(e, index) == [] <==> EntryComplete(e)
  {
  }

  /** A template passes validation exactly when id, name and description are
      present, the components are an array, and every entry has type,
      title, content and an array of dependencies. */
  lemma TemplateValidIff(t: TemplateShape)
    ensures (t.components.List? && HeaderErrors(t) + EntriesErrors(t.components.entries) == [])
      <==> !Absent(t.id) && !Absent(t.name) && !Absent(t.description) && t.components.List?
           && forall e :: e in t.components.entries ==> EntryComplete(e)
  {
    if t.components.List? {
      var es := t.components.entries;
      var perEntry := PerEntryErrors(es);
      FlattenEmptyIff(perEntry);
      forall j | 0 <= j < |es| ensures perEntry[j] == [] <==> EntryComplete(es[j]) {
        EntryErrorsEmptyIff(es[j], j);
      }
      EmptyConcat(HeaderErrors(t), EntriesErrors(es));
    }
  }
}
