/** The three templates src/utils/templates.js ships, and the operations
    that read them: `loadTemplate` and the facts about what the compiler
    makes of the civil-lawsuit template. */
module TemplateLibrary {
  import opened Wrappers
  import opened Text
  import opened ComponentModel
  import opened Templates

  // The template texts are spelled in short pieces: the verifier reads a
  // concatenation of short literals far more cheaply than one long literal;
  // the joined text is the source's, character for character.
  const CivilLawsuit := Template(
    "civil-lawsuit",
    "Civil Lawsuit",
    "A basic civil " + "litigation case " + "with witness " + "testimony and "
        + "documentary " + "evidence",
    [ TemplateEntry(GOALS, "Learning Goals",
        "Students will " + "understand the " + "basics of civil " + "litigation "
        + "procedures, " + "evidence " + "evaluation, and " + "witness " + "credibility "
        + "assessment. " + "They will learn " + "to analyze " + "legal arguments "
        + "and apply " + "relevant " + "statutes and " + "case law.",
        []),
      TemplateEntry(CASE, "Case Background",
        "A contract " + "dispute between " + "a small " + "business owner "
        + "and a supplier " + "regarding " + "delayed " + "delivery of " + "goods that "
        + "resulted in " + "lost profits. " + "The business " + "owner is "
        + "seeking damages " + "for breach of " + "contract.",
        []),
      TemplateEntry(WITNESS, "Business Owner " + "(Plaintiff)",
        "The plaintiff " + "who owns a " + "retail " + "electronics " + "store. Claims "
        + "the delayed " + "delivery caused " + "them to miss " + "the holiday "
        + "sales season, " + "resulting in " + "significant " + "lost revenue.",
        ["case-background"]),
      TemplateEntry(WITNESS, "Supplier " + "Representative " + "(Defendant)",
        "The defendant " + "company's sales " + "manager who " + "handled the "
        + "contract. " + "Claims the " + "delay was due " + "to unforeseen "
        + "manufacturing " + "issues and " + "disputes the " + "extent of "
        + "claimed damages.",
        ["case-background"]),
      TemplateEntry(DOCUMENT, "Purchase " + "Contract",
        "The original " + "purchase " + "agreement " + "between the " + "parties, "
        + "including " + "delivery terms, " + "payment " + "schedules, and " + "any force "
        + "majeure clauses.",
        ["case-background"]),
      TemplateEntry(DOCUMENT, "Financial " + "Records",
        "Sales records " + "and financial " + "statements " + "showing the "
        + "plaintiff's " + "revenue " + "patterns during " + "comparable " + "periods, used "
        + "to calculate " + "alleged damages.",
        ["case-background", "business-owner-plaintiff"]) ])

  const CriminalCase := Template(
    "criminal-case",
    "Criminal Case",
    "A criminal law " + "scenario " + "involving " + "evidence " + "analysis and "
        + "witness " + "testimony",
    [ TemplateEntry(GOALS, "Learning Goals",
        "Students will " + "learn criminal " + "procedure, " + "evidence rules, "
        + "constitutional " + "protections, " + "and the burden " + "of proof in "
        + "criminal cases. " + "They will " + "practice " + "analyzing " + "witness "
        + "credibility and " + "circumstantial " + "evidence.",
        []),
      TemplateEntry(CASE, "Case Background",
        "A burglary case " + "where the " + "defendant is " + "accused of "
        + "breaking into a " + "residential " + "home while the " + "owners were "
        + "away. Evidence " + "includes " + "fingerprints, " + "witness " + "testimony, and "
        + "security camera " + "footage.",
        []),
      TemplateEntry(WITNESS, "Neighbor Witness",
        "A neighbor who " + "claims to have " + "seen someone " + "matching the "
        + "defendant's " + "description " + "near the " + "victim's house "
        + "on the night of " + "the burglary.",
        ["case-background"]),
      TemplateEntry(WITNESS, "Police Detective",
        "The " + "investigating " + "officer who " + "processed the " + "crime scene, "
        + "collected " + "fingerprint " + "evidence, and " + "conducted the "
        + "initial suspect " + "interview.",
        ["case-background"]),
      TemplateEntry(DOCUMENT, "Forensic Report",
        "Laboratory " + "analysis of " + "fingerprints " + "found at the " + "scene, with "
        + "comparison to " + "the defendant's " + "prints and " + "conclusions "
        + "about matches.",
        ["case-background", "police-detective"]),
      TemplateEntry(DOCUMENT, "Security Camera " + "Footage",
        "Video evidence " + "from a nearby " + "business " + "security camera "
        + "showing a " + "figure near the " + "victim's " + "property, with " + "analysis of "
        + "timing and " + "visual " + "identification.",
        ["case-background"]) ])

  const BusinessEthics := Template(
    "business-ethics",
    "Business Ethics " + "Dilemma",
    "A corporate " + "ethics case " + "involving " + "stakeholder " + "conflicts and "
        + "decision-making",
    [ TemplateEntry(GOALS, "Learning Goals",
        "Students will " + "analyze ethical " + "frameworks, " + "stakeholder "
        + "theory, and " + "corporate " + "social " + "responsibility. " + "They will "
        + "practice " + "ethical " + "decision-making " + "and understand " + "the "
        + "consequences of " + "business " + "decisions on " + "various " + "stakeholders.",
        []),
      TemplateEntry(CASE, "Company " + "Situation",
        "A " + "pharmaceutical " + "company has " + "developed a " + "life-saving "
        + "drug but faces " + "pressure to " + "price it " + "affordably " + "while "
        + "recovering R&D " + "costs and " + "satisfying " + "shareholders. " + "Different "
        + "stakeholders " + "have " + "conflicting " + "interests.",
        []),
      TemplateEntry(WITNESS, "CEO",
        "The company CEO " + "who must " + "balance " + "shareholder " + "returns with "
        + "public health " + "concerns and " + "regulatory " + "pressures.",
        ["company-situation"]),
      TemplateEntry(WITNESS, "Patient Advocate",
        "A healthcare " + "advocate " + "representing " + "patients who " + "need the "
        + "medication but " + "cannot afford " + "high prices.",
        ["company-situation"]),
      TemplateEntry(DOCUMENT, "Financial " + "Analysis",
        "Company " + "financial " + "projections " + "showing R&D " + "costs, "
        + "manufacturing " + "expenses, and " + "various pricing " + "scenarios with "
        + "their impact on " + "profitability.",
        ["company-situation", "ceo"]),
      TemplateEntry(DOCUMENT, "Market Research",
        "Analysis of " + "patient " + "demographics, " + "insurance " + "coverage "
        + "patterns, and " + "competitor " + "pricing for " + "similar " + "medications.",
        ["company-situation", "patient-advocate"]) ])

  /** `Object.values(TEMPLATES)`, in declaration order. */
  const AllTemplates: seq<Template> := [CivilLawsuit, CriminalCase, BusinessEthics]

  /** `loadTemplate(templateId)`: the processed components of the template
      with that id, or the "not found" error. */
  method LoadTemplate(templateId: string, stamps: nat -> Stamp) returns (r: Result<seq<Draft>>)
    ensures r.Failure? <==> forall t :: t in AllTemplates ==> t.id != templateId
    ensures r.Failure? ==> r.error == "Template not found: " + templateId
    ensures r.Success? ==> exists t :: t in AllTemplates && t.id == templateId && r.value == Processed(t, stamps)
  {
    var template := FindTemplate(AllTemplates, templateId);
    if template.None? {
      return Failure("Template not found: " + templateId);
    }
    var components := ProcessTemplate(template.value, stamps);
    r := Success(components);
  }

  /** The three built-in templates each have six components. */
  lemma BuiltInSummaries()
    ensures |AvailableTemplates(AllTemplates)| == 3
    ensures forall s :: s in AvailableTemplates(AllTemplates) ==> s.componentCount == 6
  {
  }

  /** The shape of the civil-lawsuit template the lemma below needs: six
      entries, the titles' lengths, the second entry a CASE whose slug is
      'case-background', the sixth a DOCUMENT with two references. */
  lemma CivilShape()
    ensures |CivilLawsuit.components| == 6
    ensures |CivilLawsuit.components[0].title| == 14 && |CivilLawsuit.components[1].title| == 15
    ensures |CivilLawsuit.components[2].title| == 26 && |CivilLawsuit.components[3].title| == 35
    ensures |CivilLawsuit.components[4].title| == 17 && |CivilLawsuit.components[5].title| == 17
    ensures CivilLawsuit.components[1].kind == CASE && CivilLawsuit.components[5].kind == DOCUMENT
    ensures CivilLawsuit.components[5].dependencies == ["case-background", "business-owner-plaintiff"]
  {
  }

  lemma CivilBackgroundSlug()
    ensures Slug(CivilLawsuit.components[1].title) == "case-background"
  {
    assert CivilLawsuit.components[1].title == "Case Background";
    SlugIs("Case Background", "case-background");
  }

  /** 'business-owner-plaintiff' is not the slug of "Business Owner
      (Plaintiff)", which is "business-owner--plaintiff-", so "Financial
      Records" keeps only its case-background dependency. */
  lemma FinancialRecordsLosesPlaintiff(stamps: nat -> Stamp)
    ensures Processed(CivilLawsuit, stamps)[5].dependencies == Some([CreatedId(CivilLawsuit.components[1], stamps(1))])
  {
    var es := CivilLawsuit.components;
    CivilShape();
    CivilBackgroundSlug();
    var ids := CreatedIds(es, stamps);
    CreatedIdNonEmpty(es[1], stamps(1));
    KnownTypeIdsDiffer(es[1], es[5], stamps(1), stamps(5));
    UnmatchedReferenceDropped(es, ids, CreatedId(es[5], stamps(5)), "case-background", "business-owner-plaintiff");
    ProcessedDependencies(CivilLawsuit, stamps, 5);
  }
}
