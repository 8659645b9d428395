# Completion endpoint of the code assistant backend, in Dafny

This project models the two pieces of logic behind the backend's completion
endpoint and proves what they promise.

- **Request validation** (`backend/src/middleware/validation.js`). The five
  exported express-validator rule lists are written out as data: `completion`,
  `analysis`, `chat`, `user settings` and `user id`. A small interpreter
  gives their meaning. A `Rule` is one chain, such as
  `body('code').isString().notEmpty().withMessage(...)`. It has a field
  path (possibly with the `*` wildcard), an `optional()` flag, and its
  validators in order, each with its message. The interpreter follows
  express-validator's reading:
  - a message belongs to the validator right before `withMessage`;
  - a validator without a `withMessage` after it reports `Invalid value`;
  - a chain does not stop at its first failure;
  - `optional()` skips only a missing member;
  - the errors of a list are the errors of its rules concatenated in
    declaration order.

  `handleValidationErrors` is a two-way `Gate`: a 400 response with the
  whole error list, or a pass to the next handler. For each rule list the
  model proves that it reports no error exactly when the body has the shape
  the list describes. It also proves the exact length limits, and which
  messages are reported under which field names.
- **The completion route** (`backend/src/routes/completion.js`).
  - The module-level `geminiService` is the nullable field of a class,
    `CompletionRouter`. `getGeminiService` is a method on it, with ghost logs
    of every construction attempt and every provider call.
  - The prompt is a pure function of the five destructured members. It is
    the template literal, split at its substitutions.
  - The provider's text is trimmed with a model of JavaScript's
    `String.prototype.trim`.
  - The error path gives a fixed 500 response whose `message` depends on
    `NODE_ENV`.
  - `Post` puts the middleware and the handler together.

The `GeminiService` constructor and its `generateCompletion` call live in
`backend/src/services/geminiService.js`, which this model does not cover.
Both are passed in as functions:
- the constructor maps a configuration to `None` (success) or `Some(error)`
  (a thrown error);
- the call maps a configuration, a prompt and a token budget to `Ok(text)`
  or `Err(error)`.

`process.env` is an `Env` parameter holding `GEMINI_API_KEY` and `NODE_ENV`.
Request bodies are immutable JSON values. No validator can change the body.

Files:
- `wrappers.dfy`: `Option` and `Result`.
- `json.dfy`: JSON values, with `Absent` for `undefined`.
- `http.dfy`: field errors, response bodies, responses.
- `strings.dfy`: decimal rendering of numbers, substrings, joining parts, `trim`.
- `validation.dfy`: the rule lists and `handleValidationErrors`.
- `completion.dfy`: the route.

The exception message is echoed only when `NODE_ENV` is exactly
`'development'`; with `NODE_ENV` unset or `'test'` the message is
`Internal server error`. The code limit counts characters.

## Model

| member | source | states |
|---|---|---|
| Validation.ValidatorErrorsSpec | backend/src/middleware/validation.js:37-42 | a validator is silent iff it holds of every selected field; each failing field is reported under its own name with that validator's message, and nothing else is reported |
| Validation.Holds | backend/src/middleware/validation.js:4-97 | what each validator used by the rule lists accepts: `isString`, `notEmpty`, `isLength({max})`, `isObject`, `isArray({min})`, `isInt({min: 0})` and `isIn`; its use is stated by ValidatorErrorsSpec and the Silent lemmas |
| Validation.Select | backend/src/middleware/validation.js:4-97 | the fields a rule path selects, named `a.b` or `a[i].b`; stated by PlainRule, NestedRule and ElementInstances |
| Validation.Present | backend/src/middleware/validation.js:20-32 | the fields an `optional()` chain still checks: exactly the selected fields whose value is defined, so a `null` is still checked; stated by PresentKeepsDefined, PlainRule and OptionalCheckErrors |
| Validation.PresentKeepsDefined | backend/src/middleware/validation.js:20-32 | a field is kept by `optional()` iff it was selected and its value is not undefined |
| Validation.ValidatorErrors | backend/src/middleware/validation.js:37-42 | the errors of one validator over the selected fields, in field order; which errors appear is stated by ValidatorErrorsSpec and ChainErrorsReports, their order by ValidatorOnOne and the definition |
| Validation.ChainErrorsEmpty | backend/src/middleware/validation.js:37-42 | a chain reports nothing iff every one of its validators holds of every selected field (no bail after the first failure) |
| Validation.ChainErrors | backend/src/middleware/validation.js:4-97 | the errors of one chain, validator by validator with none skipped; which errors appear is stated by ChainErrorsEmpty and ChainErrorsReports, their order by ChainCons and ChainOfThree |
| Validation.RuleErrors | backend/src/middleware/validation.js:4-97 | the errors of one `body(...)`/`param(...)` chain on a body, honouring `optional()`; stated by PlainRule, NestedRule, WildcardRule and the rule-shape Errors lemmas |
| Validation.Validate | backend/src/middleware/validation.js:4-97 | the errors of a rule list, rule by rule in declaration order; stated by ValidateEmpty, ValidateAppend and ValidateCollectsEveryRule |
| Validation.ValidateEmpty | backend/src/middleware/validation.js:36-59 | a rule list reports nothing iff every rule of it reports nothing |
| Validation.ValidateAppend | backend/src/middleware/validation.js:36-59 | the errors of two consecutive groups of rules are the first group's errors followed by the second's: no short-circuit across rules |
| Validation.ValidateCollectsEveryRule | backend/src/middleware/validation.js:36-59 | an error is in the result iff some rule of the list reports it |
| Validation.CompletionErrorsInOrder | backend/src/middleware/validation.js:36-59 | the completion errors are the code, cursor object, line, column, language and context rules' errors, in that order |
| Validation.CompletionRulesSilent | backend/src/middleware/validation.js:36-59 | all six completion rules are silent iff the body is a well-formed completion request |
| Validation.ValidateCompletionRequest | backend/src/middleware/validation.js:36-59 | no error iff code is a non-empty string of at most 50 000 characters, cursorPosition is an object with non-negative integer line and column, language is a non-empty string, and context is missing or a string |
| Validation.CodeRuleErrors | backend/src/middleware/validation.js:37-42 | the code chain reports `Invalid value` for a non-string, its required message for a missing, null or empty value, and its too-long message for a string over the limit, in that order |
| Validation.CodeRuleSilent | backend/src/middleware/validation.js:37-42 | the code chain is silent iff code is a non-empty string within the limit |
| Validation.CompletionCodeLimitExact | backend/src/middleware/validation.js:37-42 | a non-empty code string passes at 50 000 characters or fewer and fails with exactly `Code too long (max 50KB)` above that |
| Validation.CompletionCodeTooLong | backend/src/middleware/validation.js:41-42 | an over-long code string is reported whatever the other members hold |
| Validation.RequiredCheckErrors | backend/src/middleware/validation.js:43-45 | a required single check reports its message under its field iff the check fails |
| Validation.CursorObjectErrors | backend/src/middleware/validation.js:43-45 | `Cursor position is required` is reported iff cursorPosition is not an object |
| Validation.NestedCheckErrors | backend/src/middleware/validation.js:46-51 | a rule over `outer.inner` reads the nested member and reports under the dotted name |
| Validation.CursorLineErrors | backend/src/middleware/validation.js:46-48 | the line error is reported under `cursorPosition.line` iff the line is not a non-negative integer |
| Validation.CursorColumnErrors | backend/src/middleware/validation.js:49-51 | the column error is reported under `cursorPosition.column` iff the column is not a non-negative integer |
| Validation.CompletionCursorErrors | backend/src/middleware/validation.js:43-51 | each of the three cursor rules fails on its own condition with its own distinct message |
| Validation.CompletionMissingCursor | backend/src/middleware/validation.js:43-51 | without a cursorPosition object all three cursor errors are reported, in order, between the code errors and the language errors |
| Validation.CompletionBadCursorField | backend/src/middleware/validation.js:46-51 | a negative, fractional or non-numeric line or column puts that field's error in the result |
| Validation.CompletionMissingRequired | backend/src/middleware/validation.js:37-55 | a missing, null or empty code or language is reported under `code` or `language` with its required message |
| Validation.RequiredStringErrors | backend/src/middleware/validation.js:52-55 | the language chain reports `Invalid value` for a non-string and `Language is required` for a missing, null or empty value |
| Validation.RequiredStringSilent | backend/src/middleware/validation.js:52-55 | a required-string chain is silent iff the member is a non-empty string |
| Validation.OptionalCheckErrors | backend/src/middleware/validation.js:56-58 | an optional chain reports nothing for a missing member and otherwise reports `Invalid value` iff its check fails |
| Validation.OptionalCheckSilent | backend/src/middleware/validation.js:56-58 | an optional chain is silent iff the member is missing or passes |
| Validation.ValidateAnalysisRequest | backend/src/middleware/validation.js:4-34 | no error iff code is a non-empty string of at most 100 000 characters, filePath and language are non-empty strings, and framework, projectStructure, dependencies, config and userId are each missing or of their type |
| Validation.AnalysisRequiredSilent | backend/src/middleware/validation.js:5-18 | the three required analysis rules are silent iff code, filePath and language are well formed |
| Validation.AnalysisTextOptionsSilent | backend/src/middleware/validation.js:19-33 | framework, projectStructure and userId pass iff each is missing or a string |
| Validation.AnalysisStructuredOptionsSilent | backend/src/middleware/validation.js:25-30 | dependencies passes iff missing or an array; config iff missing or an object |
| Validation.AnalysisCodeLimitExact | backend/src/middleware/validation.js:5-10 | a non-empty code string passes at 100 000 characters or fewer and fails with exactly `Code too long (max 100KB)` above that |
| Validation.ElementInstances | backend/src/middleware/validation.js:65-71 | `messages.*.x` selects one field per array element, in order, named `messages[i].x` |
| Validation.WildcardRuleSilent | backend/src/middleware/validation.js:65-71 | a wildcard rule is silent iff every validator holds of every element's member (vacuously when there is no array) |
| Validation.WildcardRuleReports | backend/src/middleware/validation.js:65-67 | a failing element is reported under its own index with the failing validator's message |
| Validation.ChatRoleErrors | backend/src/middleware/validation.js:65-67 | the role rule is silent iff every message's role is `user` or `assistant`, and a bad role is reported as `Invalid message role` under its index |
| Validation.ChatContentErrors | backend/src/middleware/validation.js:68-71 | the content rule is silent iff every message's content is a non-empty string |
| Validation.ChatMessagesSilent | backend/src/middleware/validation.js:62-71 | the three message rules are silent iff messages is an array of at least one element whose every element is well formed |
| Validation.ChatRulesSilent | backend/src/middleware/validation.js:61-78 | all five chat rules are silent iff the body is a well-formed chat request |
| Validation.ValidateChatRequest | backend/src/middleware/validation.js:61-78 | no error iff messages is a non-empty array of well-formed messages, context is missing or an object, and userId is missing or a string |
| Validation.ValidateUserSettings | backend/src/middleware/validation.js:80-90 | no error iff settings is an object whose experimental and ai members are each missing or an object |
| Validation.ValidateUserId | backend/src/middleware/validation.js:92-97 | no error iff the userId route parameter is a non-empty string |
| Validation.HandleValidationErrors | backend/src/middleware/validation.js:100-109 | the request passes on iff the error list is empty; otherwise the response is 400 with `Validation failed` and the full list |
| Validation.CompletionGate | backend/src/middleware/validation.js:100-109 | a completion request reaches the handler iff it is well formed, and otherwise gets the 400 response carrying all its errors |
| Strings.Decimal | backend/src/routes/completion.js:37 | a number is printed as a canonical numeral: digits only, no leading zero |
| Strings.DecimalRoundTrip | backend/src/routes/completion.js:37 | reading the printed numeral back gives the number |
| Strings.NumeralRoundTrip | backend/src/routes/completion.js:37 | every canonical numeral is the printing of its value |
| Strings.DecimalInjective | backend/src/routes/completion.js:37 | distinct numbers print differently |
| Strings.TrimStart | backend/src/routes/completion.js:47 | what is left is a suffix, the cut prefix is all whitespace, and it starts with a non-space |
| Strings.TrimEnd | backend/src/routes/completion.js:47 | what is left is a prefix, the cut suffix is all whitespace, and it ends with a non-space |
| Strings.TrimLeavesNoOuterSpace | backend/src/routes/completion.js:47 | a trimmed text neither starts nor ends with whitespace |
| Strings.TrimIsMiddle | backend/src/routes/completion.js:47 | a trimmed text is an unchanged middle of the original with only whitespace cut away on each side |
| Strings.TrimPadded | backend/src/routes/completion.js:47 | trimming a whitespace-padded text gives that text back, so the two properties above pin trim down |
| Strings.TrimIdempotent | backend/src/routes/completion.js:47 | trimming twice is trimming once |
| Strings.TrimAllSpace | backend/src/routes/completion.js:47 | a whitespace-only text trims to the empty string |
| Strings.Trim | backend/src/routes/completion.js:47 | `s.trim()`, leading then trailing whitespace removed; pinned down by TrimLeavesNoOuterSpace, TrimIsMiddle and TrimPadded |
| Completion.HandleConfig | backend/src/routes/completion.js:13-18 | the handle is configured with the current API key, model `gemini-2.5-flash`, temperature 0.1 and 256 tokens |
| Completion.CallBudgetBelowHandleBudget | backend/src/routes/completion.js:44 | the per-call budget of 128 tokens is below the handle's configured 256 |
| Completion.RequestOf | backend/src/routes/completion.js:29 | the destructured code, language, line, column and context are exactly the validated body's members |
| Completion.RequestIgnoresOtherMembers | backend/src/routes/completion.js:29 | two valid bodies that agree on these five members give the same request, so no other member can reach the prompt |
| Completion.Prompt | backend/src/routes/completion.js:32-41 | the template literal rendered for a request, a pure function of its five members; stated by PromptMentions, PromptContextIff and PromptEmptyContext |
| Completion.PromptParts | backend/src/routes/completion.js:32-41 | the template split at its substitutions, in order: fixed text, language, fixed text, code, fixed text, cursor, fixed text, context segment, fixed text, closing text; stated by PromptPartsShape and used by PromptMentions |
| Completion.CursorText | backend/src/routes/completion.js:37 | `line <line>, column <column>` with both numbers in decimal; stated by SampleCursor and, for the numerals, by DecimalRoundTrip and NumeralRoundTrip |
| Completion.HasContext | backend/src/routes/completion.js:39 | the truthiness test of `context`: a string that is not empty; stated by PromptContextIff |
| Completion.ContextSegment | backend/src/routes/completion.js:39 | `Additional context: <context>` when the context is truthy, else the empty text; stated by PromptContextIff and PromptEmptyContext |
| Completion.PromptMentions | backend/src/routes/completion.js:32-41 | the prompt contains the language, the whole code text, `line <line>, column <column>`, and `Additional context: <context>` when the context is truthy |
| Completion.PromptContextIff | backend/src/routes/completion.js:39 | the prompt equals the one rendered without context iff the context is missing or empty; otherwise it is longer by exactly the labelled context |
| Completion.PromptEmptyContext | backend/src/routes/completion.js:39 | an empty context renders the same prompt as a missing one |
| Completion.SampleRequest | backend/src/middleware/validation.js:36-59 | the body `{code: "def f(", cursorPosition: {line: 0, column: 6}, language: "python"}` passes validation and is read as that request |
| Completion.SampleCursor | backend/src/routes/completion.js:37 | cursor 0, 6 is rendered with `line 0` and `column 6` |
| Completion.SamplePrompt | backend/src/routes/completion.js:32-41 | the sample's prompt contains `def f(`, `line 0`, `column 6` and `python` |
| Completion.ErrorResponse | backend/src/routes/completion.js:54-59 | status 500, tag `Failed to generate completion`, message = the error's message when NODE_ENV is exactly `development` and `Internal server error` otherwise |
| Completion.ErrorResponseHidesError | backend/src/routes/completion.js:58 | outside development mode the response is the same whatever the error |
| Completion.ErrorResponseEchoesError | backend/src/routes/completion.js:58 | in development mode two errors give the same response iff their messages are equal |
| Completion.Reply | backend/src/routes/completion.js:47-59 | the response for the provider outcome: 200 with the trimmed text and `success: true`, or the catch-block response; stated by ReplySuccess, ReplyTrimsSample and ReplyFailure |
| Completion.ReplySuccess | backend/src/routes/completion.js:47-52 | a provider text gives status 200 with `success: true` and a completion that is the text with only its outer whitespace removed |
| Completion.ReplyTrimsSample | backend/src/routes/completion.js:47-52 | the provider text `"  return x\n"` is sent as `"return x"` |
| Completion.ReplyFailure | backend/src/routes/completion.js:54-59 | a provider failure is answered with the same error response as any other failure |
| Completion.GeminiService.constructor | backend/src/routes/completion.js:13-18 | a new handle holds the options it was built with |
| Completion.CompletionRouter.constructor | backend/src/routes/completion.js:8 | the module starts with no handle, no construction and no call |
| Completion.CompletionRouter.GetGeminiService | backend/src/routes/completion.js:10-25 | a cached handle is returned unchanged with nothing constructed; without one, exactly one construction is attempted, a failure is passed on and leaves the handle unset, and a success is cached and returned; a returned handle always carries the options of the most recent construction attempt |
| Completion.CompletionRouter.Complete | backend/src/routes/completion.js:43-59 | with a cached handle exactly one provider call is made, with that handle's options, the given prompt and 128 tokens, and its outcome decides the reply; without one exactly one construction is attempted, a failure gives the 500 error response with no call and no handle, and a success is cached and then called once; it keeps the invariant `Valid`: a cached handle has the options of the most recent construction attempt, there is no provider call before there is a handle, and every call so far was made with the cached handle's options |
| Completion.CompletionRouter.Post | backend/src/routes/completion.js:27-61 | an invalid body gets the 400 response with all its errors and no construction or provider call; a valid one is served as `Complete` promises, for the prompt rendered from that body |
| Completion.RetryThenCache | backend/src/routes/completion.js:10-25 | a failed construction is not cached, so the next request constructs a handle, and a later request gets that same handle back |

## Left out

- express-validator's coercion is not modelled. The library turns values into strings before `isInt`, `isLength`, `notEmpty` and `isIn` run, so for example the string `"5"` passes `isInt` and the array `["user"]` passes `isIn`. Here `isInt({min: 0})` accepts only an integer-valued JSON number of at least 0, and `isIn` only a string from its list.
- Validation.ValidatorErrors: express-validator runs its standard validators (`isInt`, `isLength`, the `isEmpty` behind `notEmpty`, `isIn`) once per element of an array value, so `[]` passes them and an array can yield one error per failing element; the custom `isString`, `isObject` and `isArray` see the whole value. Here every validator sees an array as one value, so it reports at most one error per field: `{code: "x", cursorPosition: {line: [], column: []}, language: "py"}` is rejected here although the source accepts it, and `code: ["", ""]` gets one `Invalid value` here where the source also reports `Code is required` twice.
- JSON numbers are exact rationals (`Num(real)`), not IEEE doubles. `JSON.parse` rounds: `1.0000000000000001` parses to `1` and passes `isInt`, but is rejected here; `1e400` parses to `Infinity` and `1e21` prints as `1e+21`, so both fail `isInt` in the source, but are accepted here as integers. Rounding, infinities and exponent printing are not modelled.
- `notEmpty` fails only for a missing member, `null` and `""`. `isLength` checks strings only.
- Validation.CompletionCodeLimitExact: a character here is a Unicode code point, so a character outside the Basic Multilingual Plane counts as one, as in validator.js. A JavaScript string is a sequence of UTF-16 code units and may hold a lone surrogate; such strings cannot be represented. validator.js also leaves the variation selectors U+FE0E and U+FE0F out of the count, and that exclusion is not modelled.
- The library's default message for a validator without `withMessage` is taken to be `Invalid value`.
- Validation.HandleValidationErrors: each entry of `details` is reduced to its field path and message. The library's entries also carry the submitted `value`, the `location` and, in newer releases, a `type`, under key names of their own (`msg`, and `param` or `path`); those members and key names are not modelled.
- A wildcard over an object's members is left out, because JSON objects are unordered maps here. Only a wildcard over array elements is modelled.
- A member name that itself contains a dot is left out.
- The `GeminiService` class is not part of this model. Its constructor and `generateCompletion` are function parameters that either succeed or fail. An error is reduced to its message.
- `console.error` logging is left out.
- `process.env` is the `Env` parameter, not ambient state.
- Completion.CompletionRouter.Post: the `await`, and the race between two concurrent first requests, are not modelled. Calls are strictly sequential.
- The temperature 0.1 is kept as an opaque constant.
- There is no timeout or cancellation, as in the code.
- Completion.CursorText: a line or column is printed as a plain decimal numeral. JavaScript prints integers of 10^21 and above in exponent form, and that case is not modelled.
- Completion.Reply: the provider's result is taken to be a text. A non-string result, whose `trim` call would throw, is not modelled.
- Express routing, `req`/`res` objects and JSON serialisation are left out. A response is a status and a body value.
