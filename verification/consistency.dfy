/** The text processing around the consistency analysis
    (src/services/consistencyAnalysis.js): the case file rendered for the
    model, the issue table read back from its answer, and the report
    exporters. The call to the model and the regular expression that cuts the
    table out of its answer are not part of this module: parsing starts from
    the table text, or from its absence. */
module Consistency {
  import opened Wrappers
  import opened Text
  import opened ComponentModel
  import opened CaseFiles
  import opened Seqs

  /** One inconsistency reported by the analysis. */
  datatype Issue = Issue(id: string, sources: seq<string>, nature: string, suggestedFix: string, status: string)

  const PENDING := "pending"
  const RESOLVED := "resolved"
  const DISMISSED := "dismissed"

  // ---------------------------------------------------------------------
  // formatCaseFileForAnalysis

  /** The text one component contributes to its section. */
  function Block(c: Component): string {
    "### " + c.title + "\n"
    + (if c.userInput != "" then "User Input: " + c.userInput + "\n" else "")
    + (if c.aiGeneratedContent != "" then "\n" + c.aiGeneratedContent + "\n" else "")
    + "\n---\n\n"
  }

  function BlockList(cs: seq<Component>): (r: seq<string>)
    ensures |r| == |cs|
  {
    seq(|cs|, i requires 0 <= i < |cs| => Block(cs[i]))
  }

  /** The blocks of a group, one after the other. */
  function Blocks(cs: seq<Component>): string {
    Flatten(BlockList(cs))
  }

  /** The components of one type, in case-file order. */
  function OfKind(cs: seq<Component>, kind: string): seq<Component> {
    if cs == [] then []
    else OfKind(cs[..|cs| - 1], kind) + (if cs[|cs| - 1].kind == kind then [cs[|cs| - 1]] else [])
  }

  /** The group holds exactly the components of that type. */
  lemma {:induction false} OfKindMembers(cs: seq<Component>, kind: string)
    ensures forall c :: c in OfKind(cs, kind) <==> c in cs && c.kind == kind
    decreases |cs|
  {
    if cs != [] {
      OfKindMembers(cs[..|cs| - 1], kind);
      var last := cs[|cs| - 1];
      assert cs == cs[..|cs| - 1] + [last];
    }
  }

  const Headings: seq<string> := ["## LEARNING GOALS\n\n", "## CASE DESCRIPTION\n\n", "## WITNESS TESTIMONIES\n\n", "## DOCUMENTS\n\n"]

  /** The section of the k-th type (in the order GOALS, CASE, WITNESS,
      DOCUMENT): nothing when no component has that type. */
  function Section(cs: seq<Component>, k: nat): string
    requires k < 4
  {
    var group := OfKind(cs, ComponentTypes[k]);
    if group == [] then "" else Headings[k] + Blocks(group)
  }

  /** The four sections. */
  function SectionList(cs: seq<Component>): (r: seq<string>)
    ensures |r| == 4
  {
    seq(4, k requires 0 <= k < 4 => Section(cs, k))
  }

  function Formatted(cs: seq<Component>): string {
    Flatten(SectionList(cs))
  }

  /** `formatCaseFileForAnalysis(caseFile)`: groups the components by type,
      then appends one section per non-empty group. The source spells the
      four sections out one after the other; here they are one loop over the
      four types. */
  method FormatCaseFileForAnalysis(cf: CaseFile) returns (formatted: string)
    ensures formatted == Formatted(Values(cf))
  {
    var components := Values(cf);
    var groups := GroupByType(components);
    ghost var sections := SectionList(components);
    formatted := "";
    for k := 0 to 4
      invariant formatted == Flatten(sections[..k])
    {
      FlattenStep(sections, k);
      if |groups[k]| > 0 {
        formatted := formatted + Headings[k];
        formatted := AppendBlocks(formatted, groups[k]);
      } else {
        assert sections[k] == "";
      }
    }
    TakeAll(sections);
  }

  /** The `forEach` filling `componentsByType`: a component of another type
      lands in no group. */
  method GroupByType(components: seq<Component>) returns (groups: seq<seq<Component>>)
    ensures |groups| == 4
    ensures forall k :: 0 <= k < 4 ==> groups[k] == OfKind(components, ComponentTypes[k])
  {
    groups := [[], [], [], []];
    for i := 0 to |components|
      invariant |groups| == 4
      invariant forall k :: 0 <= k < 4 ==> groups[k] == OfKind(components[..i], ComponentTypes[k])
    {
      var c := components[i];
      forall k | 0 <= k < 4
        ensures OfKind(components[..i + 1], ComponentTypes[k])
          == OfKind(components[..i], ComponentTypes[k]) + (if c.kind == ComponentTypes[k] then [c] else [])
      {
        OfKindStep(components, i, ComponentTypes[k]);
      }
      if c.kind == GOALS {
        groups := groups[0 := groups[0] + [c]];
      } else if c.kind == CASE {
        groups := groups[1 := groups[1] + [c]];
      } else if c.kind == WITNESS {
        groups := groups[2 := groups[2] + [c]];
      } else if c.kind == DOCUMENT {
        groups := groups[3 := groups[3] + [c]];
      }
    }
    TakeAll(components);
  }

  lemma OfKindStep(cs: seq<Component>, i: nat, kind: string)
    requires i < |cs|
    ensures OfKind(cs[..i + 1], kind) == OfKind(cs[..i], kind) + (if cs[i].kind == kind then [cs[i]] else [])
  {
    TakeStep(cs, i);
  }

  /** One section's `forEach`: appends each component's block. */
  method AppendBlocks(start: string, group: seq<Component>) returns (text: string)
    ensures text == start + Blocks(group)
  {
    ghost var blocks := BlockList(group);
    text := start;
    for j := 0 to |group|
      invariant text == start + Flatten(blocks[..j])
    {
      AppendNext(text, start, blocks, j, Block(group[j]));
      text := text + Block(group[j]);
    }
    TakeAll(blocks);
  }

  lemma BlocksEmptyIff(cs: seq<Component>)
    ensures Blocks(cs) == "" <==> cs == []
  {
    var blocks := BlockList(cs);
    FlattenEmptyIff(blocks);
    if cs != [] {
      assert |blocks[0]| > 0;
    }
  }

  /** A section is emitted exactly when a component has its type. */
  lemma SectionPresentIff(cs: seq<Component>, k: nat)
    requires k < 4
    ensures SectionList(cs)[k] != "" <==> exists c :: c in cs && c.kind == ComponentTypes[k]
  {
    assert SectionList(cs)[k] == Section(cs, k);
    var group := OfKind(cs, ComponentTypes[k]);
    OfKindMembers(cs, ComponentTypes[k]);
    if group != [] {
      assert group[0] in group;
    }
  }

  lemma OfKindSnocOther(cs: seq<Component>, c: Component, kind: string)
    requires c.kind != kind
    ensures OfKind(cs + [c], kind) == OfKind(cs, kind)
  {
    SnocParts(cs, c);
  }

  /** Components of any other type contribute nothing. */
  lemma OtherKindIgnored(cs: seq<Component>, c: Component)
    requires c.kind !in ComponentTypes
    ensures Formatted(cs + [c]) == Formatted(cs)
  {
    forall k | 0 <= k < 4 ensures Section(cs + [c], k) == Section(cs, k) {
      OfKindSnocOther(cs, c, ComponentTypes[k]);
    }
    assert SectionList(cs + [c]) == SectionList(cs);
  }

  /** The text is empty exactly when no component has one of the four types;
      in particular for an empty case file. */
  lemma FormattedEmptyIff(cs: seq<Component>)
    ensures Formatted(cs) == "" <==> forall c :: c in cs ==> c.kind !in ComponentTypes
  {
    var sections := SectionList(cs);
    FlattenEmptyIff(sections);
    if Formatted(cs) == "" {
      forall c, k | c in cs && 0 <= k < 4 ensures c.kind != ComponentTypes[k] {
        SectionPresentIff(cs, k);
      }
    } else {
      var k :| 0 <= k < 4 && sections[k] != "";
      SectionPresentIff(cs, k);
      var c :| c in cs && c.kind == ComponentTypes[k];
      assert c.kind in ComponentTypes;
    }
  }

  // ---------------------------------------------------------------------
  // parseConsistencyTable

  /** The rows kept: not blank and not a separator row. */
  function TableRows(lines: seq<string>): (rows: seq<string>)
    ensures forall r :: r in rows <==> r in lines && !IsBlank(r) && !Contains(r, "---|")
  {
    if lines == [] then []
    else
      var l := lines[|lines| - 1];
      TableRows(lines[..|lines| - 1]) + (if !IsBlank(l) && !Contains(l, "---|") then [l] else [])
  }

  /** `split('|').filter(cell => cell.trim())`. */
  function NonBlank(cells: seq<string>): (r: seq<string>)
    ensures forall c :: c in r <==> c in cells && !IsBlank(c)
  {
    if cells == [] then []
    else (if !IsBlank(cells[0]) then [cells[0]] else []) + NonBlank(cells[1..])
  }

  function LeadingDigits(s: string): (k: nat)
    ensures k <= |s| && forall i :: 0 <= i < k ==> '0' <= s[i] <= '9'
    ensures k < |s| ==> !('0' <= s[k] <= '9')
  {
    if s != [] && '0' <= s[0] <= '9' then 1 + LeadingDigits(s[1..]) else 0
  }

  /** The `replace` of a leading list number: drops digits followed by a
      full stop, such as "12.", and the whitespace after them. */
  function StripNumber(s: string): string {
    var k := LeadingDigits(s);
    if 0 < k < |s| && s[k] == '.' then TrimStart(s[k + 1..]) else s
  }

  /** One piece stripped of its number and trimmed. */
  function CleanPiece(p: string): string {
    Trim(StripNumber(p))
  }

  /** Each piece stripped of its number and trimmed; empty pieces dropped. */
  function CleanSources(pieces: seq<string>): (r: seq<string>)
    ensures forall s :: s in r ==> s != ""
    ensures |r| <= |pieces|
  {
    if pieces == [] then []
    else
      var s := CleanPiece(pieces[0]);
      (if s != "" then [s] else []) + CleanSources(pieces[1..])
  }

  /** Every character is a decimal digit. */
  predicate AllDigits(d: string) {
    forall i :: 0 <= i < |d| ==> '0' <= d[i] <= '9'
  }

  /** A list number ("12.") in front is dropped with the whitespace after it. */
  lemma StripNumberNumbered(d: string, rest: string)
    requires d != "" && AllDigits(d)
    ensures StripNumber(d + "." + rest) == TrimStart(rest)
  {
    var s := d + "." + rest;
    assert s[|d|] == '.';
    assert forall i :: 0 <= i < |d| ==> s[i] == d[i];
    var k := LeadingDigits(s);
    assert k == |d|;
    assert s[k + 1..] == rest;
  }

  /** A piece that does not open with digits and a full stop is left as it is. */
  lemma StripNumberUnnumbered(s: string)
    requires forall k :: 0 < k < |s| && s[k] == '.' ==> !AllDigits(s[..k])
    ensures StripNumber(s) == s
  {
    var k := LeadingDigits(s);
    if 0 < k < |s| && s[k] == '.' {
      assert AllDigits(s[..k]);
    }
  }

  function NonEmptyText(): string -> bool {
    (s: string) => s != ""
  }

  /** The pieces kept are exactly the non-empty cleaned pieces, in order: the
      `map` followed by the `filter` of the source. */
  lemma {:induction false} CleanSourcesIsMapFilter(pieces: seq<string>)
    ensures CleanSources(pieces) == Filter(NonEmptyText(), Map(CleanPiece, pieces))
    decreases |pieces|
  {
    if pieces != [] {
      CleanSourcesIsMapFilter(pieces[1..]);
      FilterCons(NonEmptyText(), CleanPiece(pieces[0]), Map(CleanPiece, pieces[1..]));
    }
  }

  /** A text is a source exactly when it is non-empty and some piece cleans to it. */
  lemma CleanSourcesMembers(pieces: seq<string>, x: string)
    ensures x in CleanSources(pieces)
        <==> x != "" && exists i :: 0 <= i < |pieces| && x == CleanPiece(pieces[i])
  {
    CleanSourcesIsMapFilter(pieces);
    var m := Map(CleanPiece, pieces);
    FilterMembers(NonEmptyText(), m);
    if x in m {
      var i :| 0 <= i < |m| && m[i] == x;
      assert x == CleanPiece(pieces[i]);
    }
    if exists i :: 0 <= i < |pieces| && x == CleanPiece(pieces[i]) {
      var i :| 0 <= i < |pieces| && x == CleanPiece(pieces[i]);
      assert m[i] == x;
    }
  }

  /** The first cell, its `<br>` breaks read as line breaks. */
  function Sources(cell: string): seq<string> {
    CleanSources(Split(Trim(ReplaceAll(cell, "<br>", "\n")), '\n'))
  }

  /** Stripping the number keeps a tail of the piece. */
  lemma StripNumberSuffix(p: string)
    ensures var u := StripNumber(p); |u| <= |p| && u == p[|p| - |u|..]
  {
    var k := LeadingDigits(p);
    if 0 < k < |p| && p[k] == '.' {
      var q := p[k + 1..];
      var u := TrimStart(q);
      assert u == q[|q| - |u|..];
      assert q[|q| - |u|..] == p[|p| - |u|..];
    }
  }

  /** A trimmed text starts and ends with a character that is not whitespace. */
  lemma TrimmedEnds(s: string)
    ensures var c := Trim(s); c != "" ==> !IsSpace(c[0]) && !IsSpace(c[|c| - 1])
  {
    var t := TrimStart(s);
    var c := TrimEnd(t);
    if c != "" {
      assert c[0] == t[0];
    }
  }

  /** Trimming keeps only characters of the text. */
  lemma TrimmedMembers(s: string, ch: char)
    requires ch in Trim(s)
    ensures ch in s
  {
    var t := TrimStart(s);
    var c := TrimEnd(t);
    var i :| 0 <= i < |c| && c[i] == ch;
    assert t[i] == ch;
    assert s[|s| - |t| + i] == ch;
  }

  /** A cleaned piece is trimmed at both ends. */
  lemma CleanPieceEnds(p: string)
    ensures var c := CleanPiece(p); c != "" ==> !IsSpace(c[0]) && !IsSpace(c[|c| - 1])
  {
    TrimmedEnds(StripNumber(p));
  }

  /** A cleaned piece holds only characters of the piece. */
  lemma CleanPieceChars(p: string, ch: char)
    requires ch in CleanPiece(p)
    ensures ch in p
  {
    var u := StripNumber(p);
    StripNumberSuffix(p);
    TrimmedMembers(u, ch);
    var i :| 0 <= i < |u| && u[i] == ch;
    assert p[|p| - |u| + i] == ch;
  }

  /** A piece without line breaks cleans to a text without line breaks,
      trimmed at both ends. */
  lemma CleanPieceShape(p: string)
    requires '\n' !in p
    ensures var c := CleanPiece(p); (c != "" ==> !IsSpace(c[0]) && !IsSpace(c[|c| - 1])) && '\n' !in c
  {
    CleanPieceEnds(p);
    if '\n' in CleanPiece(p) {
      CleanPieceChars(p, '\n');
    }
  }

  /** Pieces without line breaks give sources that are non-empty, trimmed
      at both ends and without line breaks. */
  lemma CleanSourcesShape(pieces: seq<string>, x: string)
    requires forall i :: 0 <= i < |pieces| ==> '\n' !in pieces[i]
    requires x in CleanSources(pieces)
    ensures x != "" && !IsSpace(x[0]) && !IsSpace(x[|x| - 1]) && '\n' !in x
  {
    CleanSourcesMembers(pieces, x);
    var i :| 0 <= i < |pieces| && x == CleanPiece(pieces[i]);
    CleanPieceShape(pieces[i]);
  }

  /** Every source read from a cell is non-empty, trimmed at both ends and
      holds no line break: the cell is split at its breaks. */
  lemma SourcesShape(cell: string, x: string)
    requires x in Sources(cell)
    ensures x != "" && !IsSpace(x[0]) && !IsSpace(x[|x| - 1]) && '\n' !in x
  {
    CleanSourcesShape(Split(Trim(ReplaceAll(cell, "<br>", "\n")), '\n'), x);
  }

  function IssueId(now: nat, i: nat): string {
    "issue-" + NatToString(now) + "-" + NatToString(i)
  }

  /** The issue read from a row's cells: sources, nature, suggested fix. */
  function IssueOf(cells: seq<string>, i: nat, now: nat): Issue
    requires |cells| >= 3
  {
    Issue(IssueId(now, i), Sources(cells[0]), Trim(cells[1]), Trim(cells[2]), PENDING)
  }

  /** The issue a row yields: one for three or more non-blank cells. */
  function RowIssue(row: string, i: nat, now: nat): seq<Issue> {
    var cells := NonBlank(Split(row, '|'));
    if |cells| >= 3 then [IssueOf(cells, i, now)] else []
  }

  /** What every parsed issue looks like. */
  predicate Shaped(x: Issue, now: nat, i: nat) {
    x.status == PENDING && x.id == IssueId(now, i) && x.nature != "" && x.suggestedFix != ""
    && forall s :: s in x.sources ==> s != ""
  }

  lemma IssueOfShape(cells: seq<string>, i: nat, now: nat)
    requires |cells| >= 3 && !IsBlank(cells[1]) && !IsBlank(cells[2])
    ensures Shaped(IssueOf(cells, i, now), now, i)
  {
  }

  /** A row yields at most one issue: pending, numbered by the row, with a
      non-empty nature and fix and no empty source. */
  lemma RowIssueShape(row: string, i: nat, now: nat)
    ensures |RowIssue(row, i, now)| <= 1
    ensures forall x :: x in RowIssue(row, i, now) ==> Shaped(x, now, i)
  {
    var cells := NonBlank(Split(row, '|'));
    if |cells| >= 3 {
      assert cells[1] in cells && cells[2] in cells;
      IssueOfShape(cells, i, now);
    }
  }

  /** The issues of rows 1 .. n-1: row 0 is the header. */
  function IssuesUpTo(rows: seq<string>, n: nat, now: nat): seq<Issue>
    requires n <= |rows|
  {
    if n <= 1 then [] else IssuesUpTo(rows, n - 1, now) + RowIssue(rows[n - 1], n - 1, now)
  }

  function ParsedIssues(table: Option<string>, now: nat): seq<Issue> {
    match table
    case None => []
    case Some(t) =>
      var rows := TableRows(Split(t, '\n'));
      IssuesUpTo(rows, |rows|, now)
  }

  /** `parseConsistencyTable(markdownResponse)` from the extracted table
      text; `None` when the answer holds no table. */
  method ParseConsistencyTable(table: Option<string>, now: nat) returns (inconsistencies: seq<Issue>)
    ensures inconsistencies == ParsedIssues(table, now)
  {
    inconsistencies := [];
    if table.Some? {
      var rows := TableRows(Split(table.value, '\n'));
      inconsistencies := IssuesOfRows(rows, now);
    }
  }

  /** The loop over the rows after the header. */
  method IssuesOfRows(rows: seq<string>, now: nat) returns (inconsistencies: seq<Issue>)
    ensures inconsistencies == IssuesUpTo(rows, |rows|, now)
  {
    inconsistencies := [];
    var i := 1;
    while i < |rows|
      invariant 1 <= i && (i <= |rows| || |rows| == 0)
      invariant inconsistencies == IssuesUpTo(rows, if i <= |rows| then i else 0, now)
    {
      inconsistencies := inconsistencies + RowIssue(rows[i], i, now);
      i := i + 1;
    }
  }

  /** Every parsed issue is pending, has a nature and a fix, and lists no
      empty source; there is at most one per row after the header. */
  lemma {:induction false} ParsedIssuesShape(rows: seq<string>, n: nat, now: nat)
    requires n <= |rows|
    ensures |IssuesUpTo(rows, n, now)| <= if n == 0 then 0 else n - 1
    ensures forall x :: x in IssuesUpTo(rows, n, now) ==>
      x.status == PENDING && x.nature != "" && x.suggestedFix != "" && forall s :: s in x.sources ==> s != ""
    ensures forall x :: x in IssuesUpTo(rows, n, now) ==> exists i :: 1 <= i < n && x.id == IssueId(now, i)
    decreases n
  {
    if n > 1 {
      ParsedIssuesShape(rows, n - 1, now);
      RowIssueShape(rows[n - 1], n - 1, now);
    }
  }

  /** Rows that agree after the header give the same issues. */
  lemma {:induction false} IssuesUpToAgree(rows1: seq<string>, rows2: seq<string>, n: nat, now: nat)
    requires n <= |rows1| && n <= |rows2|
    requires forall k :: 1 <= k < n ==> rows1[k] == rows2[k]
    ensures IssuesUpTo(rows1, n, now) == IssuesUpTo(rows2, n, now)
    decreases n
  {
    if n > 1 {
      IssuesUpToAgree(rows1, rows2, n - 1, now);
    }
  }

  /** The header row never becomes an issue. */
  lemma HeaderIgnored(rows: seq<string>, header: string, now: nat)
    requires 1 <= |rows|
    ensures IssuesUpTo([header] + rows[1..], |rows|, now) == IssuesUpTo(rows, |rows|, now)
  {
    IssuesUpToAgree([header] + rows[1..], rows, |rows|, now);
  }

  lemma IssueIdInjective(now: nat, i: nat, j: nat)
    requires IssueId(now, i) == IssueId(now, j)
    ensures i == j
  {
    var p := "issue-" + NatToString(now) + "-";
    assert IssueId(now, i) == p + NatToString(i) && IssueId(now, j) == p + NatToString(j);
    assert (p + NatToString(i))[|p|..] == NatToString(i);
    assert (p + NatToString(j))[|p|..] == NatToString(j);
    NatToStringInjective(i, j);
  }

  ghost predicate DistinctIds(xs: seq<Issue>) {
    forall a, b :: 0 <= a < b < |xs| ==> xs[a].id != xs[b].id
  }

  /** An issue numbered above every earlier one keeps the ids distinct. */
  lemma DistinctSnoc(front: seq<Issue>, last: seq<Issue>, now: nat, n: nat)
    requires DistinctIds(front) && |last| <= 1
    requires forall x :: x in front ==> exists i :: 1 <= i < n && x.id == IssueId(now, i)
    requires forall x :: x in last ==> x.id == IssueId(now, n)
    ensures DistinctIds(front + last)
  {
    var xs := front + last;
    forall a, b | 0 <= a < b < |xs| ensures xs[a].id != xs[b].id {
      if b >= |front| {
        assert xs[a] in front && xs[b] in last;
        var i :| 1 <= i < n && xs[a].id == IssueId(now, i);
        if xs[a].id == xs[b].id {
          IssueIdInjective(now, i, n);
        }
      } else {
        assert xs[a] == front[a] && xs[b] == front[b];
      }
    }
  }

  /** Issues of one parse carry distinct ids. */
  lemma {:induction false} ParsedIdsDistinct(rows: seq<string>, n: nat, now: nat)
    requires n <= |rows|
    ensures DistinctIds(IssuesUpTo(rows, n, now))
    decreases n
  {
    if n > 1 {
      ParsedIdsDistinct(rows, n - 1, now);
      ParsedIssuesShape(rows, n - 1, now);
      RowIssueShape(rows[n - 1], n - 1, now);
      DistinctSnoc(IssuesUpTo(rows, n - 1, now), RowIssue(rows[n - 1], n - 1, now), now, n - 1);
    }
  }

  /** Without a table, or with only a header row, there are no issues. */
  lemma NoTableNoIssues(table: Option<string>, now: nat)
    requires table.None? || |TableRows(Split(table.value, '\n'))| <= 1
    ensures ParsedIssues(table, now) == []
  {
  }

  // ---------------------------------------------------------------------
  // Summary counts

  function Count(issues: seq<Issue>, status: string): (n: nat)
    ensures n <= |issues|
  {
    if issues == [] then 0
    else (if issues[0].status == status then 1 else 0) + Count(issues[1..], status)
  }

  datatype Summary = Summary(total: nat, resolved: nat, pending: nat, dismissed: nat)

  function SummaryOf(issues: seq<Issue>): Summary {
    Summary(|issues|, Count(issues, RESOLVED), Count(issues, PENDING), Count(issues, DISMISSED))
  }

  /** Three different statuses are never counted twice. */
  lemma {:induction false} CountsDisjoint(issues: seq<Issue>, a: string, b: string, c: string)
    requires a != b && b != c && a != c
    ensures Count(issues, a) + Count(issues, b) + Count(issues, c) <= |issues|
    decreases |issues|
  {
    if issues != [] {
      CountsDisjoint(issues[1..], a, b, c);
    }
  }

  /** The summary's counts add up to at most the total, which is the number
      of issues. */
  lemma SummaryBounded(issues: seq<Issue>)
    ensures SummaryOf(issues).total == |issues|
    ensures SummaryOf(issues).resolved + SummaryOf(issues).pending + SummaryOf(issues).dismissed <= SummaryOf(issues).total
  {
    CountsDisjoint(issues, RESOLVED, PENDING, DISMISSED);
  }

  // ---------------------------------------------------------------------
  // Exporters

  function StatusIcon(status: string): string {
    if status == RESOLVED then "✅" else if status == DISMISSED then "❌" else "⚠️"
  }

  function MarkdownHead(issues: seq<Issue>, date: string, time: string): string {
    var s := SummaryOf(issues);
    "# Pedagogic Case Consistency Report\n"
    + "Generated: " + date + " " + time + "\n\n"
    + "## Summary\n"
    + "- Total Issues Found: " + NatToString(s.total) + "\n"
    + "- Resolved: " + NatToString(s.resolved) + "\n"
    + "- Pending: " + NatToString(s.pending) + "\n"
    + "- Dismissed: " + NatToString(s.dismissed) + "\n\n"
    + "## Inconsistencies\n\n"
  }

  /** The entry of the issue numbered n; `resolvedTime` is the clock reading
      printed for a resolved issue. */
  function MarkdownItem(issue: Issue, n: nat, resolvedTime: string): string {
    "### " + NatToString(n) + ". " + StatusIcon(issue.status) + " " + issue.nature + " (" + issue.status + ")\n"
    + "**Sources:** " + Join(issue.sources, ", ") + "\n"
    + "**Issue:** " + issue.nature + "\n"
    + "**Suggested Fix:** " + issue.suggestedFix + "\n"
    + (if issue.status == RESOLVED then "**Resolution:** Fixed at " + resolvedTime + "\n" else "")
    + "\n"
  }

  /** The entries, numbered from 1. */
  function MarkdownItemList(issues: seq<Issue>, resolvedTime: string): (r: seq<string>)
    ensures |r| == |issues|
  {
    seq(|issues|, i requires 0 <= i < |issues| => MarkdownItem(issues[i], i + 1, resolvedTime))
  }

  function MarkdownItems(issues: seq<Issue>, resolvedTime: string): string {
    Flatten(MarkdownItemList(issues, resolvedTime))
  }

  /** `exportAsMarkdown(inconsistencies, date, time)`. */
  method ExportAsMarkdown(issues: seq<Issue>, date: string, time: string, resolvedTime: string) returns (markdown: string)
    ensures markdown == MarkdownHead(issues, date, time) + MarkdownItems(issues, resolvedTime)
  {
    markdown := MarkdownHead(issues, date, time);
    ghost var head := markdown;
    ghost var items := MarkdownItemList(issues, resolvedTime);
    for index := 0 to |issues|
      invariant markdown == head + Flatten(items[..index])
    {
      var item := MarkdownItem(issues[index], index + 1, resolvedTime);
      AppendNext(markdown, head, items, index, item);
      markdown := markdown + item;
    }
    TakeAll(items);
  }

  /** `text.replace(/"/g, '""')`. */
  function EscapeQuotes(s: string): (r: string)
    ensures |r| >= |s|
  {
    if s == [] then [] else (if s[0] == '"' then "\"\"" else [s[0]]) + EscapeQuotes(s[1..])
  }

  /** Reading a doubled quote back as one. */
  function Unescape(s: string): string {
    if s == [] then []
    else if |s| >= 2 && s[0] == '"' && s[1] == '"' then "\"" + Unescape(s[2..])
    else [s[0]] + Unescape(s[1..])
  }

  /** Undoubling the quotes gives back the field's text. */
  lemma {:induction false} EscapeRoundTrip(s: string)
    ensures Unescape(EscapeQuotes(s)) == s
    decreases |s|
  {
    if s != [] {
      EscapeRoundTrip(s[1..]);
      var e := EscapeQuotes(s);
      if s[0] == '"' {
        assert e == "\"\"" + EscapeQuotes(s[1..]);
        assert e[2..] == EscapeQuotes(s[1..]);
      } else {
        assert e == [s[0]] + EscapeQuotes(s[1..]);
        assert e[1..] == EscapeQuotes(s[1..]);
      }
    }
  }

  const CsvHeader := "Issue #,Status,Sources,Nature of Inconsistency,Suggested Fix\n"

  /** The row of the issue numbered n: the nature and the fix have their
      quotes doubled; the sources are written as they are. */
  function CsvRow(issue: Issue, n: nat): string {
    NatToString(n) + ",\"" + issue.status + "\",\"" + Join(issue.sources, "; ") + "\",\""
    + EscapeQuotes(issue.nature) + "\",\"" + EscapeQuotes(issue.suggestedFix) + "\"\n"
  }

  /** The rows, numbered from 1. */
  function CsvRowList(issues: seq<Issue>): (r: seq<string>)
    ensures |r| == |issues|
  {
    seq(|issues|, i requires 0 <= i < |issues| => CsvRow(issues[i], i + 1))
  }

  function CsvRows(issues: seq<Issue>): string {
    Flatten(CsvRowList(issues))
  }

  /** `exportAsCSV(inconsistencies, timestamp)`. */
  method ExportAsCsv(issues: seq<Issue>) returns (csv: string)
    ensures csv == CsvHeader + CsvRows(issues)
  {
    ghost var rows := CsvRowList(issues);
    csv := CsvHeader;
    for index := 0 to |issues|
      invariant csv == CsvHeader + Flatten(rows[..index])
    {
      var row := CsvRow(issues[index], index + 1);
      AppendNext(csv, CsvHeader, rows, index, row);
      csv := csv + row;
    }
    TakeAll(rows);
  }

  /** The object `exportAsJSON` hands to `JSON.stringify`. */
  datatype JsonReport = JsonReport(generatedAt: string, summary: Summary, inconsistencies: seq<Issue>)

  function ExportAsJson(issues: seq<Issue>, timestamp: string): (r: JsonReport)
    ensures r.summary.total == |issues| && r.inconsistencies == issues
    ensures r.summary.resolved + r.summary.pending + r.summary.dismissed <= r.summary.total
  {
    SummaryBounded(issues);
    JsonReport(timestamp, SummaryOf(issues), issues)
  }

  datatype Exported = Markdown(text: string) | Csv(text: string) | Json(report: JsonReport)

  /** `exportConsistencyReport(inconsistencies, format)`: a missing format
      means markdown; any other format than the three throws. The clock
      readings are parameters. */
  method ExportConsistencyReport(issues: seq<Issue>, format: Option<string>, timestamp: string, date: string, time: string, resolvedTime: string)
    returns (r: Result<Exported>)
    ensures r.Failure? <==> format.Some? && format.value !in ["markdown", "csv", "json"]
    ensures r.Failure? ==> r.error == "Unknown export format: " + format.value
    ensures format.None? || format == Some("markdown") ==>
      r == Success(Markdown(MarkdownHead(issues, date, time) + MarkdownItems(issues, resolvedTime)))
    ensures format == Some("csv") ==> r == Success(Csv(CsvHeader + CsvRows(issues)))
    ensures format == Some("json") ==> r == Success(Json(ExportAsJson(issues, timestamp)))
  {
    var f := format.GetOr("markdown");
    if f == "markdown" {
      var text := ExportAsMarkdown(issues, date, time, resolvedTime);
      r := Success(Markdown(text));
    } else if f == "csv" {
      var text := ExportAsCsv(issues);
      r := Success(Csv(text));
    } else if f == "json" {
      r := Success(Json(ExportAsJson(issues, timestamp)));
    } else {
      r := Failure("Unknown export format: " + f);
    }
  }
}
