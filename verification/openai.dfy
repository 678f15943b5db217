/** The parts of the OpenAI adapter (src/services/openai.js) that decide
    something without the network: the session key, the prompt, the checks
    made before a request, and how a reply or a failure becomes a message.
    The request itself is an input (`Reply`). */
module OpenAI {
  import opened Wrappers
  import opened Text
  import opened ComponentModel
  import opened Seqs

  /** The session-storage slot holding the key. */
  class KeyStore {
    var stored: Option<string>

    constructor ()
      ensures stored == None
    {
      stored := None;
    }

    /** `hasApiKey`: a non-empty key is stored. */
    predicate HasApiKey()
      reads this
    {
      stored.Some? && stored.value != ""
    }

    /** `setApiKey(apiKey)`: keeps the trimmed key, or removes the slot when
        the key is blank. */
    method SetApiKey(apiKey: string) returns (ok: bool)
      modifies this
      ensures ok <==> !IsBlank(apiKey)
      ensures ok ==> stored == Some(Trim(apiKey))
      ensures !ok ==> stored == None
      ensures HasApiKey() <==> ok
    {
      if !IsBlank(apiKey) {
        stored := Some(Trim(apiKey));
        ok := true;
      } else {
        stored := None;
        ok := false;
      }
    }
  }

  const GoalsPrompt := "You are an educational expert helping to create learning goals for a pedagogical case study. Create clear, measurable learning objectives that align with educational best practices."
  const CasePrompt := "You are an expert in creating realistic, engaging case studies for educational purposes. Create detailed scenarios that will help students learn and apply concepts."
  const WitnessPrompt := "You are an expert in character development for educational case studies. Create realistic, well-developed witness profiles with backgrounds, motivations, and relevant details."
  const DocumentPrompt := "You are an expert in creating authentic legal and business documents for educational case studies. Create realistic documents that serve the pedagogical purpose."
  const GenericPrompt := "You are an educational expert helping to create content for a pedagogical case study."

  /** The system prompt chosen by component type; any other type gets the
      generic one. */
  function SystemPrompt(kind: string): string {
    if kind == GOALS then GoalsPrompt
    else if kind == CASE then CasePrompt
    else if kind == WITNESS then WitnessPrompt
    else if kind == DOCUMENT then DocumentPrompt
    else GenericPrompt
  }

  /** Each of the four types has a prompt of its own, longer than the
      generic one every other type falls back to. */
  lemma SystemPromptFallback(kind: string)
    ensures kind !in ComponentTypes ==> SystemPrompt(kind) == GenericPrompt
    ensures kind in ComponentTypes ==> SystemPrompt(kind) != GenericPrompt && |SystemPrompt(kind)| > |GenericPrompt|
  {
  }

  /** `s.substring(0, n)`: at most the first n characters. */
  function Excerpt(s: string, n: nat): (r: string)
    ensures |r| <= n && |r| <= |s| && r == s[..|r|]
    ensures |s| <= n ==> r == s
    ensures |s| >= n ==> |r| == n
  {
    if |s| <= n then s else s[..n]
  }

  const ContextHeading := "\n\nContext from related components:\n"

  /** What one dependency adds to the context: its type and title, then an
      excerpt of its generated content, or else of its user input. */
  function DepLine(dep: Component): string {
    "\n" + dep.kind + " - \"" + dep.title + "\":\n"
    + (if dep.aiGeneratedContent != "" then Excerpt(dep.aiGeneratedContent, 500) + "...\n"
       else if dep.userInput != "" then "User input: " + Excerpt(dep.userInput, 300) + "...\n"
       else "")
  }

  function DepLineList(deps: seq<Component>): (r: seq<string>)
    ensures |r| == |deps|
  {
    seq(|deps|, i requires 0 <= i < |deps| => DepLine(deps[i]))
  }

  /** The dependencies' lines, one after the other. */
  function DepLines(deps: seq<Component>): string {
    Flatten(DepLineList(deps))
  }

  /** The context block: empty without dependencies. */
  function Context(deps: seq<Component>): string {
    if deps == [] then "" else ContextHeading + DepLines(deps)
  }

  function UserPrompt(component: Component, context: string): string {
    "Please create content for a " + component.kind + " component titled \"" + component.title + "\".\n\n"
    + "User requirements:\n" + component.userInput + "\n\n" + context + "\n\n"
    + "Please provide detailed, realistic content that fits the educational context and maintains consistency with the related components."
  }

  /** `buildPrompt(component, dependencyComponents)`. */
  method BuildPrompt(component: Component, dependencyComponents: seq<Component>) returns (systemPrompt: string, userPrompt: string)
    ensures systemPrompt == SystemPrompt(component.kind)
    ensures userPrompt == UserPrompt(component, Context(dependencyComponents))
  {
    systemPrompt := SystemPrompt(component.kind);
    userPrompt := BuildUserPrompt(component, dependencyComponents);
  }

  /** The user prompt of `buildPrompt`, around the accumulated context. */
  method BuildUserPrompt(component: Component, dependencyComponents: seq<Component>) returns (userPrompt: string)
    ensures userPrompt == UserPrompt(component, Context(dependencyComponents))
  {
    var context := BuildContext(dependencyComponents);
    userPrompt := UserPrompt(component, context);
  }

  /** The `context` accumulation of `buildPrompt`. */
  method BuildContext(deps: seq<Component>) returns (context: string)
    ensures context == Context(deps)
  {
    context := "";
    if |deps| > 0 {
      context := ContextHeading;
      ghost var lines := DepLineList(deps);
      var i := 0;
      while i < |deps|
        invariant 0 <= i <= |deps|
        invariant context == ContextHeading + Flatten(lines[..i])
      {
        var line := DepLine(deps[i]);
        AppendNext(context, ContextHeading, lines, i, line);
        context := context + line;
        i := i + 1;
      }
      TakeAll(lines);
    }
  }

  /** The context is empty exactly when there are no dependencies. */
  lemma ContextEmptyIff(deps: seq<Component>)
    ensures Context(deps) == "" <==> deps == []
  {
    if deps != [] {
      assert Context(deps)[0] == '\n';
    }
  }

  /** The dependencies' lines appear in the order the dependencies are given. */
  lemma DepLinesAppend(a: seq<Component>, b: seq<Component>)
    ensures DepLines(a + b) == DepLines(a) + DepLines(b)
  {
    assert DepLineList(a + b) == DepLineList(a) + DepLineList(b);
    FlattenAppend(DepLineList(a), DepLineList(b));
  }

  /** `Math.ceil((systemPrompt.length + userPrompt.length) / 3)`. */
  function EstimatedTokens(systemPrompt: string, userPrompt: string): (t: nat)
    ensures 3 * t >= |systemPrompt| + |userPrompt| > 3 * t - 3
  {
    (|systemPrompt| + |userPrompt| + 2) / 3
  }

  const MaxEstimatedTokens: nat := 3500

  const MsgInputRequired := "User input is required for content generation."
  // The error messages the store's classifier reads are spelled in short
  // pieces: the verifier indexes into a concatenation of short literals far
  // more cheaply than into one long literal. The strings are the same.
  const MsgContextTooLarge := "Context is too " + "large. Please " + "reduce the " + "amount of "
    + "dependency " + "content or " + "shorten your " + "input."
  const MsgKeyNotFound := "OpenAI API " + "key not found. " + "Please configure " + "your API key " + "in settings."
  const MsgTimeout := "Request timed " + "out. Please " + "try again."
  const MsgUnauthorized := "Invalid API " + "key. Please " + "check your " + "OpenAI API key."
  const MsgRateLimited := "API rate limit " + "exceeded. " + "Please try " + "again later."
  const MsgForbidden := "API access " + "forbidden. Please " + "check your " + "OpenAI account status."
  const MsgNoContent := "No content generated. Please try again."

  /** The prompts, their size estimate, and the checks `generateContent` makes
      before calling out (src/services/openai.js:241-261). */
  function PreparePrompt(component: Component, deps: seq<Component>): Result<(string, string)> {
    if IsBlank(component.userInput) then Failure(MsgInputRequired)
    else
      var systemPrompt := SystemPrompt(component.kind);
      var userPrompt := UserPrompt(component, Context(deps));
      if EstimatedTokens(systemPrompt, userPrompt) > MaxEstimatedTokens then Failure(MsgContextTooLarge)
      else Success((systemPrompt, userPrompt))
  }

  /** The rounded-up estimate stays within the limit exactly when the prompts
      hold at most three characters per allowed token. */
  lemma TokensFit(systemPrompt: string, userPrompt: string)
    ensures EstimatedTokens(systemPrompt, userPrompt) <= MaxEstimatedTokens
      <==> |systemPrompt| + |userPrompt| <= 3 * MaxEstimatedTokens
  {
  }

  /** A request goes out only with non-blank user input and prompts of at most
      10500 characters together. */
  lemma PreparedPromptFits(component: Component, deps: seq<Component>)
    ensures PreparePrompt(component, deps).Success? <==>
      !IsBlank(component.userInput)
      && |SystemPrompt(component.kind)| + |UserPrompt(component, Context(deps))| <= 3 * MaxEstimatedTokens
    ensures PreparePrompt(component, deps).Success? ==>
      PreparePrompt(component, deps).value == (SystemPrompt(component.kind), UserPrompt(component, Context(deps)))
  {
    TokensFit(SystemPrompt(component.kind), UserPrompt(component, Context(deps)));
  }

  /** The error thrown for a response that is not OK. */
  function StatusError(status: nat, detail: Option<string>): (m: string)
    ensures status == 401 ==> m == MsgUnauthorized
    ensures status == 429 ==> m == MsgRateLimited
    ensures status == 403 ==> m == MsgForbidden
    ensures status !in {401, 429, 403} ==>
      m == "API error (" + NatToString(status) + "): " + (if detail.Some? && detail.value != "" then detail.value else "Unknown error")
    ensures status !in {401, 429, 403} ==> m !in {MsgUnauthorized, MsgRateLimited, MsgForbidden}
  {
    if status == 401 then MsgUnauthorized
    else if status == 429 then MsgRateLimited
    else if status == 403 then MsgForbidden
    else
      var m := "API error (" + NatToString(status) + "): " + (if detail.Some? && detail.value != "" then detail.value else "Unknown error");
      assert m[0] == 'A' && m[4] == 'e';
      assert MsgUnauthorized[0] == 'I' && MsgRateLimited[4] == 'r' && MsgForbidden[4] == 'a';
      m
  }

  predicate IsOk(status: nat) {
    200 <= status < 300
  }

  /** What the request did: no key in storage, aborted by the 60-second timer,
      failed with an error of its own, or answered with a status, the error
      detail of a failed answer, and the generated content of a good one. */
  datatype Reply =
    | MissingKey
    | Aborted
    | Threw(message: string)
    | Answered(status: nat, detail: Option<string>, content: Option<string>)

  /** `generateContent(component, dependencyComponents)`: the content, or the
      message of the error it throws. */
  function GenerateContent(component: Component, deps: seq<Component>, reply: Reply): (r: Result<string>)
    ensures PreparePrompt(component, deps).Failure? ==> r == Failure(PreparePrompt(component, deps).error)
    ensures r.Success? ==> r.value != ""
    ensures PreparePrompt(component, deps).Success? ==>
      && (reply.MissingKey? ==> r == Failure(MsgKeyNotFound))
      && (reply.Aborted? ==> r == Failure(MsgTimeout))
      && (reply.Threw? ==> r == Failure(reply.message))
      && (reply.Answered? && !IsOk(reply.status) ==> r == Failure(StatusError(reply.status, reply.detail)))
      && (reply.Answered? && IsOk(reply.status) ==>
            if reply.content.Some? && reply.content.value != "" then r == Success(reply.content.value)
            else r == Failure(MsgNoContent))
  {
    match PreparePrompt(component, deps)
    case Failure(e) => Failure(e)
    case Success(_) =>
      match reply
      case MissingKey => Failure(MsgKeyNotFound)
      case Aborted => Failure(MsgTimeout)
      case Threw(m) => Failure(m)
      case Answered(status, detail, content) =>
        if !IsOk(status) then Failure(StatusError(status, detail))
        else if content.None? || content.value == "" then Failure(MsgNoContent)
        else Success(content.value)
  }

  /** The checks made before the request decide the outcome whatever the
      request would have done. */
  lemma PrecheckBeforeNetwork(component: Component, deps: seq<Component>, reply1: Reply, reply2: Reply)
    requires PreparePrompt(component, deps).Failure?
    ensures GenerateContent(component, deps, reply1) == GenerateContent(component, deps, reply2)
  {
  }

  datatype KeyTest = KeyTest(valid: bool, message: string)

  /** `testApiKey(apiKey)`: `reply` is what the one-token request did. */
  function TestApiKey(reply: Reply): (r: KeyTest)
    ensures r.valid <==> reply.Answered? && (IsOk(reply.status) || reply.status == 429)
    ensures reply.Answered? && reply.status == 401 ==> r == KeyTest(false, "Invalid API key")
    ensures !reply.Answered? ==> r == KeyTest(false, "Network error during API key test")
  {
    match reply
    case Answered(status, _, _) =>
      if IsOk(status) || status == 429 then KeyTest(true, "API key is valid")
      else if status == 401 then KeyTest(false, "Invalid API key")
      else KeyTest(false, "Unable to verify API key")
    case _ => KeyTest(false, "Network error during API key test")
  }

  /** A status that is neither good, 429 nor 401 leaves the key unverified. */
  lemma TestApiKeyInconclusive(status: nat, detail: Option<string>, content: Option<string>)
    requires !IsOk(status) && status != 429 && status != 401
    ensures TestApiKey(Answered(status, detail, content)) == KeyTest(false, "Unable to verify API key")
  {
  }
}
