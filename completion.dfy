/**
 * The completion route: its lazily created provider handle, the prompt it
 * renders from a validated request, and the response it sends.
 *
 * The provider client is a collaborator whose code is not part of this
 * model. Its constructor and its `generateCompletion` call are oracles
 * passed in as functions. The constructor either succeeds or fails with an
 * error; the call returns a text or fails with an error. `process.env` is
 * an `Env` parameter.
 */
module Completion {
  import opened Wrappers
  import opened Json
  import opened Strings
  import opened Http
  import opened Validation

  // ---------------------------------------------------------------------
  // Constants of the route
  // ---------------------------------------------------------------------

  const ModelName := "gemini-2.5-flash"
  /** The configured temperature, kept as an opaque value. */
  const Temperature: real := 0.1
  /** The token budget the handle is configured with. */
  const ServiceMaxTokens: nat := 256
  /** The smaller budget each completion call asks for. */
  const CompletionMaxTokens: nat := 128

  const FailureTag := "Failed to generate completion"
  const GenericMessage := "Internal server error"
  /** The only mode in which the exception text reaches the client. */
  const DevelopmentMode := "development"

  /** A thrown error, reduced to the message the route may echo. */
  datatype Error = Error(message: string)

  /** The options object passed to the provider constructor. */
  datatype ServiceConfig = ServiceConfig(apiKey: Option<string>, model: string, temperature: real, maxTokens: nat)

  /** The two environment variables the route reads; `None` is an unset variable. */
  datatype Env = Env(geminiApiKey: Option<string>, nodeEnv: Option<string>)

  /** The configuration the route builds for the handle from the current API key. */
  function HandleConfig(apiKey: Option<string>): (c: ServiceConfig)
    ensures c.apiKey == apiKey && c.model == ModelName
    ensures c.temperature == Temperature && c.maxTokens == ServiceMaxTokens
  {
    ServiceConfig(apiKey, ModelName, Temperature, ServiceMaxTokens)
  }

  /** The completion call uses a smaller budget than the handle's own. */
  lemma CallBudgetBelowHandleBudget(apiKey: Option<string>)
    ensures CompletionMaxTokens < HandleConfig(apiKey).maxTokens
  {
  }

  // ---------------------------------------------------------------------
  // The destructured request
  // ---------------------------------------------------------------------

  /** The five members the handler takes out of a validated body. */
  datatype CompletionRequest = CompletionRequest(code: string, line: nat, column: nat, language: string, context: Option<string>)

  /**
   * `const { code, cursorPosition, language, context } = req.body` on a body
   * that passed validation: every member is read back unchanged.
   */
  function RequestOf(body: Value): (r: CompletionRequest)
    requires CompletionRequestOk(body)
    ensures Get(body, "code") == Str(r.code) && Get(body, "language") == Str(r.language)
    ensures Get(Get(body, "cursorPosition"), "line") == Num(r.line as real)
    ensures Get(Get(body, "cursorPosition"), "column") == Num(r.column as real)
    ensures Get(body, "context") == if r.context.Some? then Str(r.context.value) else Absent
  {
    var position := Get(body, "cursorPosition");
    var line := Get(position, "line").n;
    var column := Get(position, "column").n;
    var context := Get(body, "context");
    CompletionRequest(
      Get(body, "code").s, line.Floor, column.Floor, Get(body, "language").s,
      if context.Str? then Some(context.s) else None)
  }

  /** The handler sees no member of the body other than these five. */
  lemma RequestIgnoresOtherMembers(a: Value, b: Value)
    requires CompletionRequestOk(a) && CompletionRequestOk(b)
    requires Get(a, "code") == Get(b, "code") && Get(a, "language") == Get(b, "language")
    requires Get(a, "context") == Get(b, "context")
    requires Get(Get(a, "cursorPosition"), "line") == Get(Get(b, "cursorPosition"), "line")
    requires Get(Get(a, "cursorPosition"), "column") == Get(Get(b, "cursorPosition"), "column")
    ensures RequestOf(a) == RequestOf(b)
  {
    var ra, rb := RequestOf(a), RequestOf(b);
    assert ra.line as real == rb.line as real;
    assert ra.column as real == rb.column as real;
  }

  // ---------------------------------------------------------------------
  // The prompt
  // ---------------------------------------------------------------------

  /** `${context ? ... : ''}`: a string context counts only when it is not empty. */
  predicate HasContext(r: CompletionRequest)
  {
    r.context.Some? && r.context.value != ""
  }

  const ContextLabel := "Additional context: "

  function ContextSegment(r: CompletionRequest): string
  {
    if HasContext(r) then ContextLabel + r.context.value else ""
  }

  /** `line <line>, column <column>`, the numbers printed in decimal. */
  function CursorText(line: nat, column: nat): string
  {
    "line " + Decimal(line) + ", column " + Decimal(column)
  }

  // The fixed texts of the template, written in short pieces (a long
  // string literal is costly for the verifier); each is the literal text
  // of the template between two substitutions.
  const PromptIntro := "You are an AI " + "code completion " + "assistant. " + "Complete the " + "following "
  const CodeHeader := " code at the " + "cursor position.\n\n" + "Current code:\n"
  const CursorLead := "\n\nCursor is at "
  const CursorEnd := ".\n\n"
  const ContextEnd := "\n\n"
  const PromptClosing :=
    "Provide only the " + "completion text " + "that should be " + "inserted at the " + "cursor. Keep it " +
    "concise and " + "relevant. Do not " + "include any " + "explanations or " + "comments."

  /** The index of the context segment among the prompt's parts. */
  const ContextPart := 7

  /** The template literal of the handler, split at its substitutions. */
  function PromptParts(r: CompletionRequest): seq<string>
  {
    [ PromptIntro, r.language, CodeHeader, r.code, CursorLead, CursorText(r.line, r.column),
      CursorEnd, ContextSegment(r), ContextEnd, PromptClosing ]
  }

  lemma PromptPartsShape(r: CompletionRequest)
    ensures |PromptParts(r)| == 10 && PromptParts(r)[ContextPart] == ContextSegment(r)
    ensures PromptParts(r)[1] == r.language && PromptParts(r)[3] == r.code
    ensures PromptParts(r)[5] == CursorText(r.line, r.column)
  {
  }

  function Prompt(r: CompletionRequest): string
  {
    Concat(PromptParts(r))
  }

  /** The prompt carries the language, the whole code text, the cursor, and the context when there is one. */
  lemma PromptMentions(r: CompletionRequest)
    ensures Contains(Prompt(r), r.language)
    ensures Contains(Prompt(r), r.code)
    ensures Contains(Prompt(r), CursorText(r.line, r.column))
    ensures HasContext(r) ==> Contains(Prompt(r), ContextLabel + r.context.value)
  {
    PromptPartsShape(r);
    ConcatContains(PromptParts(r), 1);
    ConcatContains(PromptParts(r), 3);
    ConcatContains(PromptParts(r), 5);
    ConcatContains(PromptParts(r), 7);
  }

  /**
   * The context segment is there exactly when the context is truthy: the
   * prompt equals the one rendered without any context if and only if the
   * context is missing or empty, and otherwise it is longer by the labelled
   * context line.
   */
  lemma PromptContextIff(r: CompletionRequest)
    ensures Prompt(r) == Prompt(r.(context := None)) <==> !HasContext(r)
    ensures HasContext(r) ==>
              |Prompt(r)| == |Prompt(r.(context := None))| + |ContextLabel| + |r.context.value|
  {
    var bare := r.(context := None);
    PromptPartsShape(bare);
    assert PromptParts(r) == PromptParts(bare)[ContextPart := ContextSegment(r)];
    ConcatUpdateLength(PromptParts(bare), ContextPart, ContextSegment(r));
  }

  /** An empty context renders the same prompt as a missing one. */
  lemma PromptEmptyContext(r: CompletionRequest)
    ensures Prompt(r.(context := Some(""))) == Prompt(r.(context := None))
  {
    assert PromptParts(r.(context := Some(""))) == PromptParts(r.(context := None));
  }

  /** The request `{code: "def f(", cursorPosition: {line: 0, column: 6}, language: "python"}`. */
  const SampleBody :=
    Obj(map[ "code" := Str("def f("),
             "cursorPosition" := Obj(map["line" := Num(0.0), "column" := Num(6.0)]),
             "language" := Str("python") ])

  /** The sample passes validation and is read as the request it spells out. */
  lemma SampleRequest()
    ensures CompletionRequestOk(SampleBody)
    ensures RequestOf(SampleBody) == CompletionRequest("def f(", 0, 6, "python", None)
  {
    var position := Obj(map["line" := Num(0.0), "column" := Num(6.0)]);
    assert Get(SampleBody, "code") == Str("def f(");
    assert Get(SampleBody, "cursorPosition") == position;
    assert Get(SampleBody, "language") == Str("python");
    assert Get(SampleBody, "context") == Absent;
    assert Get(position, "line") == Num(0.0) && Get(position, "column") == Num(6.0);
  }

  /** The sample cursor is rendered as `line 0, column 6`. */
  lemma SampleCursor()
    ensures Contains(CursorText(0, 6), "line 0") && Contains(CursorText(0, 6), "column 6")
  {
    var cursor := CursorText(0, 6);
    assert Decimal(0) == "0" && Decimal(6) == "6";
    var e: string := [];
    ContainsInMiddle(cursor, e, "line 0", ", column 6");
    ContainsInMiddle(cursor, "line 0, ", "column 6", e);
  }

  /** The sample's prompt carries the code, `line 0`, `column 6` and `python`. */
  lemma SamplePrompt()
    ensures CompletionRequestOk(SampleBody)
    ensures var p := Prompt(RequestOf(SampleBody));
            Contains(p, "def f(") && Contains(p, "line 0") && Contains(p, "column 6") && Contains(p, "python")
  {
    SampleRequest();
    var r := CompletionRequest("def f(", 0, 6, "python", None);
    PromptMentions(r);
    SampleCursor();
    ContainsTransitive(Prompt(r), CursorText(0, 6), "line 0");
    ContainsTransitive(Prompt(r), CursorText(0, 6), "column 6");
  }

  // ---------------------------------------------------------------------
  // Responses
  // ---------------------------------------------------------------------

  /** The `catch` block: a fixed status and tag, and the exception text only in development mode. */
  function ErrorResponse(env: Env, e: Error): (resp: Response)
    ensures resp.status == 500 && resp.body.ErrorBody? && resp.body.error == FailureTag
    ensures env.nodeEnv == Some(DevelopmentMode) ==> resp.body.message == e.message
    ensures env.nodeEnv != Some(DevelopmentMode) ==> resp.body.message == GenericMessage
  {
    Response(500, ErrorBody(FailureTag, if env.nodeEnv == Some(DevelopmentMode) then e.message else GenericMessage))
  }

  /** Outside development mode the response does not depend on the error at all. */
  lemma ErrorResponseHidesError(env: Env, e1: Error, e2: Error)
    requires env.nodeEnv != Some(DevelopmentMode)
    ensures ErrorResponse(env, e1) == ErrorResponse(env, e2)
  {
  }

  /** In development mode two errors give the same response exactly when their messages agree. */
  lemma ErrorResponseEchoesError(env: Env, e1: Error, e2: Error)
    requires env.nodeEnv == Some(DevelopmentMode)
    ensures ErrorResponse(env, e1) == ErrorResponse(env, e2) <==> e1 == e2
  {
  }

  /** The success (`res.json`, status 200) and failure responses for the provider's outcome. */
  function Reply(env: Env, outcome: Result<string, Error>): Response
  {
    match outcome
    case Ok(raw) => Response(200, CompletionBody(Trim(raw), true))
    case Err(e) => ErrorResponse(env, e)
  }

  /**
   * A successful call is answered with status 200 and `success: true`, and
   * the completion is the provider's text with the surrounding whitespace
   * cut away and nothing else changed.
   */
  lemma ReplySuccess(env: Env, raw: string)
    ensures var resp := Reply(env, Ok(raw));
            resp.status == 200 && resp.body.CompletionBody? && resp.body.success
    ensures var c := Reply(env, Ok(raw)).body.completion;
            (c == [] || (!IsSpace(c[0]) && !IsSpace(c[|c| - 1]))) &&
            exists i, j :: 0 <= i <= j <= |raw| && raw[i..j] == c && AllSpace(raw[..i]) && AllSpace(raw[j..])
  {
    TrimLeavesNoOuterSpace(raw);
    TrimIsMiddle(raw);
  }

  /** The provider's text `"  return x\n"` is sent as `"return x"`. */
  lemma ReplyTrimsSample(env: Env)
    ensures Reply(env, Ok("  return x\n")) == Response(200, CompletionBody("return x", true))
  {
    var pre, core, post := "  ", "return x", "\n";
    assert pre + core + post == "  return x\n";
    TrimPadded(pre, core, post);
  }

  /** A provider failure is answered like any other failure of the handler. */
  lemma ReplyFailure(env: Env, e: Error)
    ensures Reply(env, Err(e)) == ErrorResponse(env, e)
  {
  }

  // ---------------------------------------------------------------------
  // The provider handle and the route
  // ---------------------------------------------------------------------

  /** An instance of the provider client; all the route uses of it is its configuration. */
  class GeminiService {
    const config: ServiceConfig

    constructor (config: ServiceConfig)
      ensures this.config == config
    {
      this.config := config;
    }
  }

  /** One provider call as the route makes it. */
  datatype ProviderCall = ProviderCall(config: ServiceConfig, prompt: string, maxTokens: nat)

  /**
   * The route with its module-level `geminiService`. The ghost logs record
   * every construction attempt and every provider call, in order, so that
   * contracts can say when the route constructs or calls anything.
   */
  class CompletionRouter {
    var geminiService: GeminiService?
    ghost var attempts: seq<ServiceConfig>
    ghost var calls: seq<ProviderCall>

    /**
     * A cached handle is the one the most recent construction attempt
     * produced, and every provider call so far was made with it: before
     * there is a handle there is no call, and the handle is never replaced.
     */
    ghost predicate Valid()
      reads this
    {
      && (geminiService != null ==> attempts != [] && geminiService.config == attempts[|attempts| - 1])
      && (calls != [] ==> geminiService != null)
      && (forall i :: 0 <= i < |calls| ==> calls[i].config == geminiService.config)
    }

    /** The module is loaded with no handle. */
    constructor ()
      ensures Valid()
      ensures geminiService == null && attempts == [] && calls == []
    {
      geminiService := null;
      attempts := [];
      calls := [];
    }

    /**
     * `getGeminiService()`: a cached handle is returned as it is, with nothing
     * constructed. Without one, exactly one construction is attempted; a
     * failure is passed on and leaves the handle unset, and a success is
     * cached and returned. A returned handle always carries the options of
     * the most recent construction attempt, even one made many calls ago.
     */
    method GetGeminiService(apiKey: Option<string>, construct: ServiceConfig -> Option<Error>)
      returns (result: Result<GeminiService, Error>)
      requires Valid()
      modifies this
      ensures Valid()
      ensures calls == old(calls)
      ensures result.Ok? ==> attempts != [] && result.value.config == attempts[|attempts| - 1]
      ensures old(geminiService) != null ==>
                result.Ok? && result.value == old(geminiService) && geminiService == old(geminiService) && attempts == old(attempts)
      ensures old(geminiService) == null ==> attempts == old(attempts) + [HandleConfig(apiKey)]
      ensures old(geminiService) == null && construct(HandleConfig(apiKey)).Some? ==>
                result == Err(construct(HandleConfig(apiKey)).value) && geminiService == null
      ensures old(geminiService) == null && construct(HandleConfig(apiKey)).None? ==>
                result.Ok? && fresh(result.value) && result.value.config == HandleConfig(apiKey) &&
                geminiService == result.value
    {
      if geminiService == null {
        var config := HandleConfig(apiKey);
        attempts := attempts + [config];
        var failure := construct(config);
        if failure.Some? {
          return Err(failure.value);
        }
        geminiService := new GeminiService(config);
      }
      return Ok(geminiService);
    }

    /**
     * What the `try` block does from `getGeminiService()` on, for a rendered
     * prompt. A failure to get the handle gives the error response and no
     * provider call; otherwise exactly one call is made, with the prompt and
     * the per-call budget, and its outcome decides the reply.
     */
    twostate predicate Served(prompt: string, env: Env, construct: ServiceConfig -> Option<Error>,
                              generate: (ServiceConfig, string, nat) -> Result<string, Error>, resp: Response)
      reads this
    {
      var config := HandleConfig(env.geminiApiKey);
      && (old(geminiService) != null ==>
            var call := ProviderCall(old(geminiService).config, prompt, CompletionMaxTokens);
            geminiService == old(geminiService) && attempts == old(attempts) &&
            calls == old(calls) + [call] &&
            resp == Reply(env, generate(call.config, call.prompt, call.maxTokens)))
      && (old(geminiService) == null ==> attempts == old(attempts) + [config])
      && (old(geminiService) == null && construct(config).Some? ==>
            geminiService == null && calls == old(calls) && resp == ErrorResponse(env, construct(config).value))
      && (old(geminiService) == null && construct(config).None? ==>
            var call := ProviderCall(config, prompt, CompletionMaxTokens);
            geminiService != null && fresh(geminiService) && geminiService.config == config &&
            calls == old(calls) + [call] &&
            resp == Reply(env, generate(call.config, call.prompt, call.maxTokens)))
    }

    /** The `try` block from `getGeminiService()` on, for a rendered prompt. */
    method Complete(prompt: string, env: Env, construct: ServiceConfig -> Option<Error>,
                    generate: (ServiceConfig, string, nat) -> Result<string, Error>)
      returns (resp: Response)
      requires Valid()
      modifies this
      ensures Valid()
      ensures Served(prompt, env, construct, generate, resp)
    {
      var service := GetGeminiService(env.geminiApiKey, construct);
      if service.Err? {
        return ErrorResponse(env, service.error);
      }
      var config := service.value.config;
      calls := calls + [ProviderCall(config, prompt, CompletionMaxTokens)];
      resp := Reply(env, generate(config, prompt, CompletionMaxTokens));
    }

    /**
     * `router.post('/', validateCompletionRequest, handleValidationErrors, handler)`.
     * An invalid body gets the 400 response with every validation error and
     * touches nothing: no construction and no provider call. A valid one is
     * rendered into its prompt, and is then served as `Served` says.
     */
    method Post(body: Value, env: Env, construct: ServiceConfig -> Option<Error>,
                generate: (ServiceConfig, string, nat) -> Result<string, Error>)
      returns (resp: Response)
      requires Valid()
      modifies this
      ensures Valid()
      ensures !CompletionRequestOk(body) ==>
                resp == Response(400, ValidationFailure("Validation failed", ValidateCompletionRequest(body))) &&
                geminiService == old(geminiService) && attempts == old(attempts) && calls == old(calls)
      ensures CompletionRequestOk(body) ==> Served(Prompt(RequestOf(body)), env, construct, generate, resp)
    {
      var errors := ValidateCompletionRequest(body);
      var gate := HandleValidationErrors(errors);
      CompletionGate(body);
      if gate.Respond? {
        return gate.response;
      }
      var prompt := Prompt(RequestOf(body));
      resp := Complete(prompt, env, construct, generate);
    }
  }

  /**
   * Failure is not cached, success is: with a key the constructor rejects
   * the first request fails and leaves no handle, the next request with a
   * good key constructs one, and a third request gets that same handle
   * back even though the key has gone bad again.
   */
  method RetryThenCache(badKey: Option<string>, goodKey: Option<string>, construct: ServiceConfig -> Option<Error>)
    returns (first: Result<GeminiService, Error>, second: Result<GeminiService, Error>,
             third: Result<GeminiService, Error>)
    requires construct(HandleConfig(badKey)).Some? && construct(HandleConfig(goodKey)).None?
    ensures first == Err(construct(HandleConfig(badKey)).value)
    ensures second.Ok? && second.value.config == HandleConfig(goodKey)
    ensures third == second
  {
    var router := new CompletionRouter();
    first := router.GetGeminiService(badKey, construct);
    second := router.GetGeminiService(goodKey, construct);
    third := router.GetGeminiService(badKey, construct);
  }
}
