# PDF RuleCheck: a verified model of the rule-checking pipeline

PDF RuleCheck lets a user upload a PDF and type up to a few plain-language rules.
The backend's `/api/check` handler writes the upload to a temp file and extracts its text.
It then asks the Gemini model for a pass/fail verdict on every rule and returns the parsed verdicts.
The frontend filters and validates the form before posting, stores the reply, and renders one table row per verdict.

This project models that core in Dafny and proves what it promises:

| module | file | models |
|---|---|---|
| `Basics` | `basics.dfy` | `Option`, `Min` |
| `JsText` | `js_text.dfy` | JavaScript `trim`, ASCII `toLowerCase`/`toUpperCase`, `Array.prototype.join`, `substring(0, n)` |
| `Json` | `json.dfy` | JavaScript/JSON values, property reads that may throw, truthiness, numeric coercion |
| `Schema` | `schema.dfy` | the response schema handed to the model, and what it means to satisfy it |
| `Prompt` | `prompt.dfy` | the prompt template, the quoted rule list and the 15000-character document budget |
| `Pipeline` | `pipeline.dfy` | the `/api/check` handler: input checks, extraction with temp-file cleanup, model call, reply |
| `ResultsTable` | `results_table.dfy` | the status and confidence classifiers and the table's render shape |
| `App` | `app.dfy` | the form: rule editing, the blank-rule filter, the validation gate, the payload and the reply handling |

The handler has collaborators it cannot decide for itself. These are oracles in `Pipeline.Env`:
- `JSON.parse`;
- the string conversion of a non-string rule, which may throw;
- the temp path built from the upload's name;
- whether `mkdir`, `writeFile` and `unlink` succeed;
- the PDF extractor;
- the model service.

`Pipeline.Handle` takes the prompt template as a parameter. The backend's own handler is `Handle(SourceTemplate, …)`. Every lemma about `Handle` holds for every template, so it holds for that one.

A run of the handler yields three things:
- exactly one `Outcome`: a sent response, or an exception that escapes the handler;
- the trace of effects it attempted;
- the temp directory's contents afterwards, as a set of paths.

Behaviour of the code that a reader might not expect, modelled as the code has it:
- The backend rejects a missing `rules` field and also an empty one, because `!rules` is true for `""`.
- It does not reject an empty upload, the list `[]` or blank rules; only the frontend filters blank rules.
- Rules that are not JSON make `JSON.parse` throw outside any `try`. This is the outcome `Unhandled(RulesNotJson)`, with no reply.
- Rules that parse to something other than an array pass the extraction block. Building the prompt then throws, giving `Unhandled(RulesNotArray)`.
- A rule element whose string conversion throws also passes the extraction block. An example is `{"toString": 1}`, whose own `toString` is not callable. `${r}` then throws while the prompt is built, giving `Unhandled(RuleNotPrintable)`. The model is never asked and no reply is sent.
- These three are the only places where an exception escapes the handler.
- On an extraction failure, the 500 reply is sent from the `catch` before the `finally` block runs the unlink.
- The parsed model output is passed to the client as it is. It is never checked against the schema the model was given (`Pipeline.UnvalidatedReplyWitness`).
- In the frontend, a 2xx reply whose body is `null` makes `res.data.results` throw. The form then shows "Server error.".

## Model

| member | source | states |
|---|---|---|
| JsText.Trim | frontend/src/App.jsx:37 | `trim` returns a contiguous slice of the input that is left when white space, and only white space, is cut from both ends; the slice has no white space at either end, and it is empty exactly when the input is all white space |
| JsText.TrimUnique | frontend/src/App.jsx:37 | any slice left by cutting only white space from both ends, with no white space at its own ends, is the trimmed text, so the contract of `Trim` determines its result |
| JsText.LowerForgetsCase | frontend/src/components/ResultsTable.jsx:5 | lower-casing gives the same text whether the input was upper-cased, lower-cased or left alone |
| JsText.JoinElement | backend/index.js:48 | each element of a joined list appears unchanged at its offset in the joined text |
| JsText.JoinSeparator | backend/index.js:66 | the separator sits between every pair of neighbouring elements of a joined list |
| JsText.SplitJoin | backend/index.js:48 | a non-empty list joined with a one-character separator is recovered by splitting, when no element contains that character |
| JsText.JoinSplit | backend/index.js:48 | splitting a text and joining the pieces with the same character gives the text back |
| JsText.Truncate | backend/index.js:77 | `substring(0, n)` yields the first min(length, n) characters and leaves a short text whole |
| Json.Member | frontend/src/App.jsx:54-56 | reading a property throws exactly on `null` and `undefined`; an object yields the field or `undefined` |
| Schema.VerdictSchemaMeaning | backend/index.js:82-95 | a value satisfies the response schema exactly when it is an array of records, each with string `rule`, `evidence` and `reasoning`, a `status` of "pass" or "fail", and a `confidence` from 0 to 100 |
| Prompt.QuoteUnwraps | backend/index.js:66 | a quoted rule is the rule text, unchanged, between two double quotes |
| Prompt.Quoted | backend/index.js:66 | the quoted list has one quoted rule per rule, in input order |
| Prompt.PromptNamesEveryRule | backend/index.js:61-66 | every rule appears in the prompt, quoted, at its offset; the next quoted rule starts exactly four characters after the closing quote, with exactly ", " in between, so the rules appear in input order separated as `join(', ')` separates them |
| Prompt.PromptEmbedsPrefix | backend/index.js:76-80 | the document text in the prompt is exactly the first min(length, 15000) characters of the extracted text, followed by the template's closing text and nothing else |
| Prompt.ClosingCarriesNote | backend/index.js:77-80 | the template's closing text carries the truncation note right after its leading white space |
| Prompt.PromptNotesTruncation | backend/index.js:77-79 | with the backend's closing text, the document prefix in the prompt is followed by the truncation note |
| Prompt.PromptSeesOnlyPrefix | backend/index.js:77 | two documents that agree on their first 15000 characters give the same prompt |
| Prompt.PromptBounded | backend/index.js:77 | the prompt is never longer than its fixed parts plus 15000 characters of document |
| Pipeline.ResponsesDistinct | backend/index.js:22-117 | the four error replies differ from each other and from every success reply |
| Pipeline.PagesInOrder | backend/index.js:48 | the document text holds every page, unchanged, in page order at its offset, and nothing follows the last page |
| Pipeline.PageBreaks | backend/index.js:48 | exactly one line break lies between each page and the next |
| Pipeline.PagesRecoverable | backend/index.js:48 | no pages give the empty text rather than an error, and pages free of line breaks can be read back from the text |
| Pipeline.RuleText | backend/index.js:66 | a string rule converts to itself and cannot throw; the conversion of any other element may throw |
| Pipeline.RuleTexts | backend/index.js:66 | when no element throws, there is one text per rule element, and a string rule enters the prompt as it is |
| Pipeline.ExtractStage | backend/index.js:36-52 | the extraction block fails exactly when `mkdir`, `writeFile` or the extractor fails, and otherwise yields the pages joined with line breaks |
| Pipeline.ExtractStageEffects | backend/index.js:36-59 | the extraction block makes exactly one cleanup attempt, as its last step and on the temp path; it never calls the model; it replies exactly when it fails; it touches no other path |
| Pipeline.ModelStage | backend/index.js:99-116 | the reply is the model error exactly when the model call or the parse of its text fails, and otherwise success with the parsed value |
| Pipeline.Handle | backend/index.js:22-117 | every reply the handler sends is one of its four errors or a success, and no path other than the temp path changes |
| Pipeline.Outcomes | backend/index.js:23-116 | no file gives the no-file error; a file without rules gives the rules error; unparsable rules escape; extraction failure gives the extraction error; a non-array rule list escapes; a list with an element whose string conversion throws escapes; all other requests get the model stage's reply; each as an if-and-only-if |
| Pipeline.RejectedEarlyHasNoEffects | backend/index.js:23-31 | a request turned away before the extraction block causes no effect besides its reply and leaves the temp directory as it was |
| Pipeline.TraceDiscipline | backend/index.js:22-117 | exactly one reply unless an exception escapes; exactly one cleanup attempt per entry into the extraction block; the model is asked once, only after input checks, parse and extraction succeed and every rule converts to text, and only after the cleanup attempt |
| Pipeline.CleanupNeverChangesOutcome | backend/index.js:53-59 | whether the unlink succeeds never changes the handler's outcome |
| Pipeline.CleanupRemovesTempFile | backend/index.js:53-59 | a working unlink leaves no temp file behind, a failed one leaves the written file, and no other path is touched |
| Pipeline.ResultsPassThrough | backend/index.js:110-112 | the parsed model output is sent unchanged, with `success: true` |
| Pipeline.UnvalidatedReplyWitness | backend/index.js:82-112 | a model output that violates the schema is still sent with status 200 |
| Pipeline.EveryOutcomeReachable | backend/index.js:22-117 | each of the eight outcomes happens for some request, including a rule list holding `{"toString": 1}` |
| ResultsTable.StatusStyleMeaning | frontend/src/components/ResultsTable.jsx:4-8 | the pass style goes to exactly the sixteen letter-case spellings of "pass"; everything else, "fail" and "" included, gets the fail style |
| ResultsTable.StatusStyleIgnoresCase | frontend/src/components/ResultsTable.jsx:4-8 | under the ASCII case mapping, a status, its upper-cased label and its lower-cased form get the same style |
| ResultsTable.BandOf | frontend/src/components/ResultsTable.jsx:10-14 | green exactly from 80, yellow exactly from 50 up to 80, red exactly below 50 |
| ResultsTable.BandMonotone | frontend/src/components/ResultsTable.jsx:10-14 | a higher confidence never gets a lower band |
| ResultsTable.BandOfValue | frontend/src/components/ResultsTable.jsx:10-14 | a value that coerces to NaN is red; any other value gets the band of its number |
| ResultsTable.RowOf | frontend/src/components/ResultsTable.jsx:53-101 | a result renders as a row exactly when it is an object whose status is a string |
| ResultsTable.ResultTable | frontend/src/components/ResultsTable.jsx:16-108 | nothing renders exactly for a falsy or empty `results`; a table renders exactly for a non-empty array whose every element renders, under the five fixed headers, one row per result in result order |
| ResultsTable.VerdictsRender | frontend/src/components/ResultsTable.jsx:53-101 | records that satisfy the schema always render, pass-styled exactly for "pass", each with the band of its confidence |
| App.HandleRuleChange | frontend/src/App.jsx:26-30 | the list keeps its length, entry `i` becomes `v`, and every other entry is unchanged |
| App.IsActiveMeansNonBlank | frontend/src/App.jsx:37 | a rule counts exactly when its trimmed text is non-empty |
| App.ActiveRules | frontend/src/App.jsx:37 | the filtered list is no longer than the input, and every rule in it is non-blank |
| App.ActiveRulesInOrder | frontend/src/App.jsx:37 | the filtered list is a subsequence of the input, in input order |
| App.ActiveRulesCounts | frontend/src/App.jsx:37 | every non-blank rule keeps every one of its occurrences and no blank rule survives |
| App.ActiveRulesIdentity | frontend/src/App.jsx:37 | the filter changes nothing exactly when no rule is blank |
| App.BeginSubmit | frontend/src/App.jsx:32-47 | submitting clears the results; with no file or no active rule it sets the validation message, sends nothing and leaves `loading` alone; otherwise it clears the error, sets `loading` and posts the file with exactly the active rules |
| App.ServerError | frontend/src/App.jsx:56 | `err.response?.data?.error` is present exactly when there is a response whose body has a truthy `error`, and then it is that field |
| App.ErrorShown | frontend/src/App.jsx:56 | the error shown is the server's truthy `error` field when there is one, for any status and body, and "Server error." otherwise; it is never falsy |
| App.FinishSubmit | frontend/src/App.jsx:49-59 | `loading` ends false; a 2xx reply with a non-null body stores its `results` field (undefined unless the body is an object holding one) and leaves the error as it was; a 2xx reply with a `null` body shows the fallback; any other reply keeps the results and shows the server's error, or the fallback |
| App.NonObjectSuccessShowsNothing | frontend/src/App.jsx:49-54 | a submission answered by a 2xx reply whose body is not an object (raw text, a number, an array) ends with undefined results, no error and no table: the form shows nothing |
| App.Submit | frontend/src/App.jsx:32-60 | a blocked submit shows the validation message with empty results; a sent one always ends with `loading` false |
| App.InitialFormBlocked | frontend/src/App.jsx:19 | the form starts with three empty rules, which filter to none, so the initial form cannot be submitted |
| App.BackendRepliesShown | frontend/src/App.jsx:54-56 | each of the backend's error messages is shown as sent, a success stores its results, and no response at all shows "Server error." |
| App.OnlyActiveRulesReachModel | frontend/src/App.jsx:45-47 | when the serialized list parses back to itself and extraction succeeds, the backend builds its prompt from exactly the active rules, so blank rules never reach the model |

## Left out

- Express routing, multer, CORS, dotenv, logging, the axios transport and the HTTP framing are plumbing with no logic to model.
- Which JavaScript values make `${r}` throw is an oracle, `display`; the `ToPrimitive` algorithm itself is not modelled.
- Concurrency: requests are handled one at a time, so two requests whose uploads share a name and race on the same temp path are not modelled.
- The PDF extractor, the Gemini client, `JSON.parse` and `JSON.stringify` are oracles; their internals are foreign code.
- Building the temp path from the upload's name (backend/index.js:34) is an oracle, `tempPathOf`, with no path joining and no path-traversal analysis.
- The filesystem is a set of paths. A failed write is modelled as leaving no file, and `mkdir` creates no tracked path.
- The `description` annotations of the response schema have no effect on validation and are not modelled.
- `handleFileChange` (frontend/src/App.jsx:24) only stores the chosen file, and is represented by the `pdfFile` field.
- React hooks, JSX markup, icons and Tailwind class strings are left out; the styles are the enums `StatusStyle` and `Band`.
- React's own error for an object passed as a child (a `rule` that is an object, say) is not modelled. `ResultsTable.RowOf` only models the throws of reading `status` and calling `toLowerCase`.
- JsText.Lower: maps ASCII letters only, where `toLowerCase` and `toUpperCase` map all of Unicode.
- ResultsTable.StatusStyleIgnoresCase: holds for the ASCII mapping only. Under JavaScript's full mapping, `"paſs"` (with U+017F) upper-cases to `"PASS"`, yet `getStatusColor` gives it the fail style.
- JsText.Truncate: counts Dafny characters, where `substring` counts UTF-16 code units, so texts with characters outside the Basic Multilingual Plane are cut at a different place.
- ResultsTable.BandOfValue: takes a string or array confidence as NaN (red), whereas JavaScript would coerce a numeric string such as "85" to a number.
- App.HandleRuleChange: requires an index inside the list, which is how the form calls it; writing past the end of a JavaScript array is not modelled.
- Numbers are unbounded reals with exact comparison; JavaScript's floating point is not modelled.
