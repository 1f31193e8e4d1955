/** The backend's `/api/check` handler (backend/index.js:22-117) as a pure
    function from a request, the oracles it consults and the temp-directory
    contents to exactly one outcome, the trace of effects it attempted, and the
    temp-directory contents afterwards.

    Everything the handler cannot decide by itself is an oracle in `Env`:
    `JSON.parse`, JavaScript's string conversion of a non-string rule, the temp
    path built from the upload's name, whether `mkdir`, `writeFile` and `unlink`
    succeed, the PDF extractor and the model service. */
module Pipeline {
  import opened Basics
  import opened JsText
  import opened Json
  import opened Schema
  import opened Prompt

  /** The multipart upload: multer's `req.file`, reduced to what the handler reads. */
  datatype Upload = Upload(originalName: string, bytes: seq<bv8>)

  /** `req.file` and the text field `req.body.rules`. */
  datatype Request = Request(file: Option<Upload>, rules: Option<string>)

  /** An HTTP status with a JSON body. */
  datatype Response = Response(status: nat, body: Value)

  const NoFileMessage: string := "No PDF file uploaded."
  const RulesMissingMessage: string := "Rules are missing."
  const ExtractionMessage: string := "Failed to extract text from PDF."
  const ModelMessage: string := "Error communicating with Gemini API."

  /** `res.status(status).json({ error: message })`. */
  function ErrorResponse(status: nat, message: string): Response
  {
    Response(status, Obj(map["error" := Str(message)]))
  }

  const NoFile: Response := ErrorResponse(400, NoFileMessage)
  const RulesMissing: Response := ErrorResponse(400, RulesMissingMessage)
  const ExtractionFailed: Response := ErrorResponse(500, ExtractionMessage)
  const ModelFailed: Response := ErrorResponse(500, ModelMessage)

  /** `res.json({ success: true, results })`, status 200 by default. */
  function Success(results: Value): Response
  {
    Response(200, Obj(map["success" := Bool(true), "results" := results]))
  }

  /** The four error replies are pairwise different, and differ from every success. */
  lemma ResponsesDistinct(v: Value)
    ensures NoFile != RulesMissing && NoFile != ExtractionFailed && NoFile != ModelFailed
    ensures RulesMissing != ExtractionFailed && RulesMissing != ModelFailed
    ensures ExtractionFailed != ModelFailed
    ensures Success(v) != NoFile && Success(v) != RulesMissing
    ensures Success(v) != ExtractionFailed && Success(v) != ModelFailed
  {
    assert NoFile.body.fields["error"] != RulesMissing.body.fields["error"] by {
      assert NoFileMessage[0] != RulesMissingMessage[0];
    }
    assert ExtractionFailed.body.fields["error"] != ModelFailed.body.fields["error"] by {
      assert ExtractionMessage[0] != ModelMessage[0];
    }
  }

  /** The responses the handler can send, and no others. */
  predicate IsHandlerResponse(resp: Response)
  {
    || resp == NoFile || resp == RulesMissing || resp == ExtractionFailed || resp == ModelFailed
    || (resp.body.Obj? && "results" in resp.body.fields && resp == Success(resp.body.fields["results"]))
  }

  /** The collaborators, as oracles. */
  datatype Env = Env(
    parseJson: string -> Option<Value>,
    display: Value -> Option<string>,
    tempPathOf: string -> string,
    mkdirSucceeds: bool,
    writeSucceeds: bool,
    extract: seq<bv8> -> Option<seq<string>>,
    unlinkSucceeds: bool,
    model: (string, Schema) -> Option<string>)

  /** The effects the handler attempts, in order. */
  datatype Event =
    | MakeTempDir
    | WriteTemp(path: string)
    | ExtractText(path: string)
    | RemoveTemp(path: string, removed: bool)
    | AskModel(prompt: string, schema: Schema)
    | Reply(response: Response)

  /** Where an exception escapes the handler: `JSON.parse(rules)` outside any
      `try`; `ruleList.map` on a parsed value that is not an array; and the
      template literal `${r}` on a rule element whose string conversion throws
      (an object whose own `toString` and `valueOf` give no primitive). The last
      two happen after the extraction block has run. */
  datatype ThrowSite = RulesNotJson | RulesNotArray | RuleNotPrintable

  datatype Outcome = Sent(response: Response) | Unhandled(site: ThrowSite)

  datatype Run = Run(outcome: Outcome, trace: seq<Event>, files: set<string>)

  datatype Kind = DirKind | WriteKind | ExtractKind | RemoveKind | AskKind | ReplyKind

  function KindOf(e: Event): Kind
  {
    match e
    case MakeTempDir => DirKind
    case WriteTemp(_) => WriteKind
    case ExtractText(_) => ExtractKind
    case RemoveTemp(_, _) => RemoveKind
    case AskModel(_, _) => AskKind
    case Reply(_) => ReplyKind
  }

  /** How many events of kind `k` the trace holds. */
  function Count(t: seq<Event>, k: Kind): nat
  {
    if |t| == 0 then 0
    else Count(t[..|t| - 1], k) + (if KindOf(t[|t| - 1]) == k then 1 else 0)
  }

  lemma {:induction false} CountAppend(a: seq<Event>, b: seq<Event>, k: Kind)
    ensures Count(a + b, k) == Count(a, k) + Count(b, k)
    decreases |b|
  {
    if |b| > 0 {
      assert (a + b)[..|a + b| - 1] == a + b[..|b| - 1];
      assert (a + b)[|a + b| - 1] == b[|b| - 1];
      CountAppend(a, b[..|b| - 1], k);
    } else {
      assert a + b == a;
    }
  }

  lemma CountSingle(e: Event)
    ensures forall k :: Count([e], k) == if KindOf(e) == k then 1 else 0
  {
    assert [e][..0] == [];
  }

  lemma {:induction false} CountZero(t: seq<Event>, k: Kind)
    ensures Count(t, k) == 0 <==> forall i :: 0 <= i < |t| ==> KindOf(t[i]) != k
    decreases |t|
  {
    if |t| > 0 {
      CountZero(t[..|t| - 1], k);
      assert forall i :: 0 <= i < |t| - 1 ==> t[..|t| - 1][i] == t[i];
    }
  }

  /** `pages.join('\n')`. */
  function JoinPages(pages: seq<string>): string
  {
    Join("\n", pages)
  }

  /** The document text holds every page, unchanged, in page order at its
      offset, and nothing follows the last page. */
  lemma PagesInOrder(pages: seq<string>)
    ensures forall i :: 0 <= i < |pages| ==>
              && Offset("\n", pages, i) + |pages[i]| <= |JoinPages(pages)|
              && JoinPages(pages)[Offset("\n", pages, i)..Offset("\n", pages, i) + |pages[i]|] == pages[i]
    ensures |pages| > 0 ==> |JoinPages(pages)| == Offset("\n", pages, |pages| - 1) + |pages[|pages| - 1]|
  {
    forall i | 0 <= i < |pages|
      ensures && Offset("\n", pages, i) + |pages[i]| <= |JoinPages(pages)|
              && JoinPages(pages)[Offset("\n", pages, i)..Offset("\n", pages, i) + |pages[i]|] == pages[i]
    {
      JoinElement("\n", pages, i);
    }
    if |pages| > 0 {
      JoinLength("\n", pages);
    }
  }

  /** Exactly one line break, and nothing else, lies between page `i` and the next. */
  predicate BreakAfter(pages: seq<string>, i: nat)
    requires i + 1 < |pages|
  {
    && Offset("\n", pages, i + 1) <= |JoinPages(pages)|
    && JoinPages(pages)[Offset("\n", pages, i) + |pages[i]|..Offset("\n", pages, i + 1)] == "\n"
  }

  /** Neighbouring pages are separated by a single line break. */
  lemma PageBreaks(pages: seq<string>)
    ensures forall i :: 0 <= i < |pages| - 1 ==> BreakAfter(pages, i)
  {
    forall i | 0 <= i < |pages| - 1
      ensures BreakAfter(pages, i)
    {
      JoinSeparator("\n", pages, i);
    }
  }

  /** No pages give the empty text, not an error; pages without line breaks
      of their own can be read back from the text. */
  lemma PagesRecoverable(pages: seq<string>)
    ensures pages == [] ==> JoinPages(pages) == ""
    ensures (|pages| > 0 && forall i :: 0 <= i < |pages| ==> '\n' !in pages[i]) ==>
              Split('\n', JoinPages(pages)) == pages
  {
    if |pages| > 0 && forall i :: 0 <= i < |pages| ==> '\n' !in pages[i] {
      assert "\n" == ['\n'];
      SplitJoin('\n', pages);
    }
  }

  /** The text a rule element contributes to the prompt: a string as it is,
      anything else through JavaScript's string conversion, which is `None`
      where that conversion throws. */
  function RuleText(env: Env, v: Value): (t: Option<string>)
    ensures v.Str? ==> t == Some(v.s)
  {
    if v.Str? then Some(v.s) else env.display(v)
  }

  /** Every rule element converts to a string without throwing. */
  predicate Printable(env: Env, items: seq<Value>)
  {
    forall i :: 0 <= i < |items| ==> RuleText(env, items[i]).Some?
  }

  function RuleTexts(env: Env, items: seq<Value>): (texts: seq<string>)
    requires Printable(env, items)
    ensures |texts| == |items|
    ensures forall i :: 0 <= i < |items| && items[i].Str? ==> texts[i] == items[i].s
  {
    seq(|items|, i requires 0 <= i < |items| => RuleText(env, items[i]).value)
  }

  /** `!rules`: the field is absent or the empty string. */
  predicate RulesAbsent(rules: Option<string>)
  {
    rules.None? || rules.value == ""
  }

  /** Whether any step of the extraction block throws. */
  predicate ExtractionFails(env: Env, upload: Upload)
  {
    !env.mkdirSucceeds || !env.writeSucceeds || env.extract(upload.bytes).None?
  }

  /** What the extraction block leaves behind. */
  datatype Extraction = Extraction(text: Option<string>, trace: seq<Event>, files: set<string>)

  /** The `try { mkdir; writeFile; extract; join } catch { reply 500 } finally { unlink }`
      block. The catch's reply goes out before the `finally` runs. The unlink
      removes the path when it exists and the oracle lets it succeed; a failed
      unlink is only logged. */
  function ExtractStage(env: Env, upload: Upload, files: set<string>): (x: Extraction)
    ensures x.text.None? <==> ExtractionFails(env, upload)
    ensures x.text.Some? ==> x.text.value == JoinPages(env.extract(upload.bytes).value)
  {
    var path := env.tempPathOf(upload.originalName);
    var wrote := env.mkdirSucceeds && env.writeSucceeds;
    var pages := if wrote then env.extract(upload.bytes) else None;
    var written := if wrote then files + {path} else files;
    var removed := env.unlinkSucceeds && path in written;
    var after := if removed then written - {path} else written;
    var reply := if pages.None? then [Reply(ExtractionFailed)] else [];
    var trace := Attempts(path, env.mkdirSucceeds, wrote) + reply + [RemoveTemp(path, removed)];
    Extraction(if pages.Some? then Some(JoinPages(pages.value)) else None, trace, after)
  }

  /** The steps of the `try` block that were attempted: `mkdir` always, the
      write once `mkdir` succeeded, the extraction once the write succeeded. */
  function Attempts(path: string, made: bool, wrote: bool): seq<Event>
  {
    [MakeTempDir] + (if made then [WriteTemp(path)] else []) + (if wrote then [ExtractText(path)] else [])
  }

  /** Whatever happens inside it, the extraction block makes exactly one
      cleanup attempt, as its last step, on the temp path; it never asks the
      model; it replies (with the extraction error) exactly when it fails; and it
      touches no other path. A successful unlink leaves the temp path absent; a
      failed one leaves it as the write left it. */
  lemma ExtractStageEffects(env: Env, upload: Upload, files: set<string>)
    ensures var x, path := ExtractStage(env, upload, files), env.tempPathOf(upload.originalName);
            && |x.trace| > 0 && x.trace[|x.trace| - 1].RemoveTemp?
            && x.trace[|x.trace| - 1].path == path
            && Count(x.trace, DirKind) == 1 && Count(x.trace, RemoveKind) == 1
            && Count(x.trace, AskKind) == 0
            && Count(x.trace, ReplyKind) == (if x.text.None? then 1 else 0)
            && (x.text.None? ==> Reply(ExtractionFailed) in x.trace)
            && x.files - {path} == files - {path}
            && (env.unlinkSucceeds ==> path !in x.files)
            && (!env.unlinkSucceeds ==>
                  (path in x.files <==> path in files || (env.mkdirSucceeds && env.writeSucceeds)))
  {
    var x, path := ExtractStage(env, upload, files), env.tempPathOf(upload.originalName);
    var wrote := env.mkdirSucceeds && env.writeSucceeds;
    var attempts := Attempts(path, env.mkdirSucceeds, wrote);
    var reply := if x.text.None? then [Reply(ExtractionFailed)] else [];
    var last := x.trace[|x.trace| - 1];
    assert x.trace == attempts + reply + [last];
    AttemptCounts(attempts, reply, path, env.mkdirSucceeds, wrote);
    forall k
      ensures Count(x.trace, k) == Count(attempts + reply, k) + (if KindOf(last) == k then 1 else 0)
    {
      CountAppend(attempts + reply, [last], k);
    }
  }

  lemma AttemptCounts(attempts: seq<Event>, reply: seq<Event>, path: string, made: bool, wrote: bool)
    requires attempts == Attempts(path, made, wrote)
    requires reply == [] || reply == [Reply(ExtractionFailed)]
    ensures Count(attempts + reply, DirKind) == 1
    ensures Count(attempts + reply, RemoveKind) == 0
    ensures Count(attempts + reply, AskKind) == 0
    ensures Count(attempts + reply, ReplyKind) == |reply|
  {
    forall k
      ensures Count(attempts + reply, k) == Count(attempts, k) + Count(reply, k)
    {
      CountAppend(attempts, reply, k);
    }
    if reply != [] {
      CountSingle(Reply(ExtractionFailed));
    }
    AttemptKinds(path, made, wrote, DirKind);
    AttemptKinds(path, made, wrote, RemoveKind);
    AttemptKinds(path, made, wrote, AskKind);
    AttemptKinds(path, made, wrote, ReplyKind);
  }

  /** The attempts hold one `mkdir`, a write once it succeeded, an extraction
      once the write succeeded, and nothing else. */
  lemma AttemptKinds(path: string, made: bool, wrote: bool, k: Kind)
    ensures Count(Attempts(path, made, wrote), k)
            == if k == DirKind || (k == WriteKind && made) || (k == ExtractKind && wrote) then 1 else 0
  {
    var w := if made then [WriteTemp(path)] else [];
    var e := if wrote then [ExtractText(path)] else [];
    CountAppend([MakeTempDir], w, k);
    CountAppend([MakeTempDir] + w, e, k);
    CountSingle(MakeTempDir);
    CountSingle(WriteTemp(path));
    CountSingle(ExtractText(path));
  }

  /** The model call and the parse of its reply (backend/index.js:99-116). */
  function ModelStage(env: Env, prompt: string): (resp: Response)
    ensures resp == ModelFailed <==>
              env.model(prompt, VerdictSchema).None?
              || env.parseJson(env.model(prompt, VerdictSchema).value).None?
    ensures resp != ModelFailed ==>
              resp == Success(env.parseJson(env.model(prompt, VerdictSchema).value).value)
  {
    match env.model(prompt, VerdictSchema)
    case None => ModelFailed
    case Some(text) =>
      match env.parseJson(text)
      case None => ModelFailed
      case Some(v) => Success(v)
  }

  /** The temp path of a request that carries a file. */
  function TempPath(env: Env, req: Request): string
    requires req.file.Some?
  {
    env.tempPathOf(req.file.value.originalName)
  }

  /** The handler, with the prompt template as a parameter: the backend's own
      handler is `Handle(SourceTemplate, …)`, and every lemma below holds for
      it because it holds for every template. */
  function Handle(tpl: Template, env: Env, req: Request, files: set<string>): (r: Run)
    ensures r.outcome.Sent? ==> IsHandlerResponse(r.outcome.response)
    ensures req.file.None? ==> r.files == files
    ensures req.file.Some? ==> r.files - {TempPath(env, req)} == files - {TempPath(env, req)}
  {
    if req.file.None? then
      Run(Sent(NoFile), [Reply(NoFile)], files)
    else if RulesAbsent(req.rules) then
      Run(Sent(RulesMissing), [Reply(RulesMissing)], files)
    else
      match env.parseJson(req.rules.value)
      case None => Run(Unhandled(RulesNotJson), [], files)
      case Some(ruleList) =>
        var x := ExtractStage(env, req.file.value, files);
        if x.text.None? then
          Run(Sent(ExtractionFailed), x.trace, x.files)
        else if !ruleList.Arr? then
          Run(Unhandled(RulesNotArray), x.trace, x.files)
        else if !Printable(env, ruleList.items) then
          Run(Unhandled(RuleNotPrintable), x.trace, x.files)
        else
          var prompt := Render(tpl, RuleTexts(env, ruleList.items), x.text.value);
          var resp := ModelStage(env, prompt);
          Run(Sent(resp), x.trace + [AskModel(prompt, VerdictSchema), Reply(resp)], x.files)
  }

  /** The request passes both input checks. */
  predicate InputAccepted(req: Request)
  {
    req.file.Some? && !RulesAbsent(req.rules)
  }

  /** The request gets as far as the extraction block: the rules field parses. */
  predicate ReachesExtraction(env: Env, req: Request)
  {
    InputAccepted(req) && env.parseJson(req.rules.value).Some?
  }

  /** The request gets as far as the model call. */
  predicate ReachesModel(env: Env, req: Request)
  {
    && ReachesExtraction(env, req)
    && !ExtractionFails(env, req.file.value)
    && env.parseJson(req.rules.value).value.Arr?
    && Printable(env, env.parseJson(req.rules.value).value.items)
  }

  /** The prompt of a request that reaches the model call, from template `tpl`. */
  function PromptOf(tpl: Template, env: Env, req: Request): string
    requires ReachesModel(env, req)
  {
    Render(tpl, RuleTexts(env, env.parseJson(req.rules.value).value.items),
                JoinPages(env.extract(req.file.value.bytes).value))
  }

  /** Which outcome a request gets, case by case: the file check comes first,
      then the rules check, then the parse of the rules, the extraction block,
      the array check, the conversion of each rule to text, and the model stage. */
  lemma Outcomes(tpl: Template, env: Env, req: Request, files: set<string>)
    ensures var o := Handle(tpl, env, req, files).outcome;
            && (o == Sent(NoFile) <==> req.file.None?)
            && (o == Sent(RulesMissing) <==> req.file.Some? && RulesAbsent(req.rules))
            && (o == Unhandled(RulesNotJson) <==> InputAccepted(req) && !ReachesExtraction(env, req))
            && (o == Sent(ExtractionFailed) <==>
                  ReachesExtraction(env, req) && ExtractionFails(env, req.file.value))
            && (o == Unhandled(RulesNotArray) <==>
                  ReachesExtraction(env, req) && !ExtractionFails(env, req.file.value)
                  && !env.parseJson(req.rules.value).value.Arr?)
            && (o == Unhandled(RuleNotPrintable) <==>
                  ReachesExtraction(env, req) && !ExtractionFails(env, req.file.value)
                  && env.parseJson(req.rules.value).value.Arr?
                  && !Printable(env, env.parseJson(req.rules.value).value.items))
            && (ReachesModel(env, req) ==> o == Sent(ModelStage(env, PromptOf(tpl, env, req))))
  {
    ResponsesDistinct(Null);
    if ReachesModel(env, req) {
      var reply := env.model(PromptOf(tpl, env, req), VerdictSchema);
      if reply.Some? && env.parseJson(reply.value).Some? {
        ResponsesDistinct(env.parseJson(reply.value).value);
      }
    }
  }

  /** Every path sends at most one reply, and exactly one unless an exception
      escapes; the temp file gets exactly one cleanup attempt on every path that
      entered the extraction block, and none on the others; the model is asked
      at most once, only when input checks, parse and extraction all succeeded
      and every rule converted to text, and only after the cleanup attempt. */
  lemma TraceDiscipline(tpl: Template, env: Env, req: Request, files: set<string>)
    ensures var r := Handle(tpl, env, req, files);
            && Count(r.trace, ReplyKind) == (if r.outcome.Sent? then 1 else 0)
            && (r.outcome.Sent? ==> Reply(r.outcome.response) in r.trace)
            && Count(r.trace, DirKind) == (if ReachesExtraction(env, req) then 1 else 0)
            && Count(r.trace, RemoveKind) == Count(r.trace, DirKind)
            && Count(r.trace, AskKind) == (if ReachesModel(env, req) then 1 else 0)
            && (ReachesModel(env, req) ==> AskModel(PromptOf(tpl, env, req), VerdictSchema) in r.trace)
            && CleanupBeforeModel(r.trace)
  {
    if !ReachesExtraction(env, req) {
      EarlyPathTrace(tpl, env, req, files);
    } else if !ReachesModel(env, req) {
      ExtractionPathTrace(tpl, env, req, files);
    } else {
      ModelPathTrace(tpl, env, req, files);
    }
  }

  /** Every cleanup attempt in the trace comes before every model call. */
  predicate CleanupBeforeModel(t: seq<Event>)
  {
    forall i, j :: 0 <= i < |t| && 0 <= j < |t| && t[i].RemoveTemp? && t[j].AskModel? ==> i < j
  }

  /** A request stopped before the extraction block: at most the one reply. */
  lemma EarlyPathTrace(tpl: Template, env: Env, req: Request, files: set<string>)
    requires !ReachesExtraction(env, req)
    ensures var r := Handle(tpl, env, req, files);
            && Count(r.trace, ReplyKind) == (if r.outcome.Sent? then 1 else 0)
            && (r.outcome.Sent? ==> Reply(r.outcome.response) in r.trace)
            && Count(r.trace, DirKind) == 0 && Count(r.trace, RemoveKind) == 0
            && Count(r.trace, AskKind) == 0
            && CleanupBeforeModel(r.trace)
  {
    var r := Handle(tpl, env, req, files);
    if r.outcome.Sent? {
      CountSingle(Reply(r.outcome.response));
    }
  }

  /** A request that enters the extraction block but does not reach the model. */
  lemma ExtractionPathTrace(tpl: Template, env: Env, req: Request, files: set<string>)
    requires ReachesExtraction(env, req) && !ReachesModel(env, req)
    ensures var r := Handle(tpl, env, req, files);
            && Count(r.trace, ReplyKind) == (if r.outcome.Sent? then 1 else 0)
            && (r.outcome.Sent? ==> Reply(r.outcome.response) in r.trace)
            && Count(r.trace, DirKind) == 1 && Count(r.trace, RemoveKind) == 1
            && Count(r.trace, AskKind) == 0
            && CleanupBeforeModel(r.trace)
  {
    var r := Handle(tpl, env, req, files);
    ExtractStageEffects(env, req.file.value, files);
    assert r.trace == ExtractStage(env, req.file.value, files).trace;
    CountZero(r.trace, AskKind);
    assert forall j :: 0 <= j < |r.trace| ==> KindOf(r.trace[j]) != AskKind;
  }

  /** A request turned away before the extraction block causes no effect
      besides its reply: no temp directory, no write, no extraction, no model call. */
  lemma RejectedEarlyHasNoEffects(tpl: Template, env: Env, req: Request, files: set<string>)
    requires !ReachesExtraction(env, req)
    ensures var r := Handle(tpl, env, req, files);
            && |r.trace| <= 1 && (forall i :: 0 <= i < |r.trace| ==> r.trace[i].Reply?)
            && r.files == files
  {
  }

  lemma ModelPathTrace(tpl: Template, env: Env, req: Request, files: set<string>)
    requires ReachesModel(env, req)
    ensures var r := Handle(tpl, env, req, files);
            && r.outcome.Sent?
            && Count(r.trace, ReplyKind) == 1 && Reply(r.outcome.response) in r.trace
            && Count(r.trace, DirKind) == 1 && Count(r.trace, RemoveKind) == 1
            && Count(r.trace, AskKind) == 1
            && AskModel(PromptOf(tpl, env, req), VerdictSchema) in r.trace
            && CleanupBeforeModel(r.trace)
  {
    var r := Handle(tpl, env, req, files);
    var x := ExtractStage(env, req.file.value, files);
    ExtractStageEffects(env, req.file.value, files);
    var ask := AskModel(PromptOf(tpl, env, req), VerdictSchema);
    var tail := [ask, Reply(r.outcome.response)];
    assert r.trace == x.trace + tail;
    forall k
      ensures Count(r.trace, k) == Count(x.trace, k) + Count(tail, k)
    {
      CountAppend(x.trace, tail, k);
    }
    forall k
      ensures Count(tail, k) == Count([ask], k) + Count([Reply(r.outcome.response)], k)
    {
      CountAppend([ask], [Reply(r.outcome.response)], k);
      assert tail == [ask] + [Reply(r.outcome.response)];
    }
    CountSingle(ask);
    CountSingle(Reply(r.outcome.response));
    assert r.trace[|x.trace| + 1] == Reply(r.outcome.response);
    assert r.trace[|x.trace|] == ask;
    CountZero(x.trace, AskKind);
    assert forall j :: 0 <= j < |x.trace| ==> KindOf(x.trace[j]) != AskKind;
  }

  /** The outcome of the unlink is only logged: it never changes what the
      handler replies. */
  lemma CleanupNeverChangesOutcome(tpl: Template, env: Env, req: Request, files: set<string>)
    ensures Handle(tpl, env.(unlinkSucceeds := true), req, files).outcome
         == Handle(tpl, env.(unlinkSucceeds := false), req, files).outcome
  {
    var e1, e2 := env.(unlinkSucceeds := true), env.(unlinkSucceeds := false);
    if req.file.Some? {
      assert ExtractStage(e1, req.file.value, files).text == ExtractStage(e2, req.file.value, files).text;
    }
    if ReachesModel(e1, req) {
      var items := env.parseJson(req.rules.value).value.items;
      assert RuleTexts(e1, items) == RuleTexts(e2, items);
      assert PromptOf(tpl, e1, req) == PromptOf(tpl, e2, req);
      assert ModelStage(e1, PromptOf(tpl, e1, req)) == ModelStage(e2, PromptOf(tpl, e2, req));
    }
  }

  /** When the unlink works, no request leaves its temp file behind; when it
      fails, the file written by the request stays. No other path is touched. */
  lemma CleanupRemovesTempFile(tpl: Template, env: Env, req: Request, files: set<string>)
    requires ReachesExtraction(env, req)
    ensures var r, path := Handle(tpl, env, req, files), TempPath(env, req);
            && r.files - {path} == files - {path}
            && (env.unlinkSucceeds ==> path !in r.files)
            && (!env.unlinkSucceeds && env.mkdirSucceeds && env.writeSucceeds ==> path in r.files)
  {
    ExtractStageEffects(env, req.file.value, files);
  }

  /** The parsed model output is sent as it is: the handler never checks it
      against the schema it handed to the model. */
  lemma ResultsPassThrough(tpl: Template, env: Env, req: Request, files: set<string>, text: string, v: Value)
    requires ReachesModel(env, req)
    requires env.model(PromptOf(tpl, env, req), VerdictSchema) == Some(text)
    requires env.parseJson(text) == Some(v)
    ensures Handle(tpl, env, req, files).outcome == Sent(Success(v))
  {
    Outcomes(tpl, env, req, files);
  }

  /** A model reply that violates the schema, passed through with status 200. */
  lemma UnvalidatedReplyWitness(tpl: Template)
    ensures var env := WitnessEnv(Some(Arr([])), Some(Arr([Num(150.0)])), true);
            && !Conforms(Arr([Num(150.0)]), VerdictSchema)
            && Handle(tpl, env, WitnessRequest(Some("R")), {}).outcome == Sent(Success(Arr([Num(150.0)])))
  {
    var env := WitnessEnv(Some(Arr([])), Some(Arr([Num(150.0)])), true);
    assert !Conforms(Num(150.0), VerdictSchema.items);
    assert Arr([Num(150.0)]).items[0] == Num(150.0);
    ResultsPassThrough(tpl, env, WitnessRequest(Some("R")), {}, "T", Arr([Num(150.0)]));
  }

  /** An environment whose parser maps "R" to `rules` and every other text to
      `reply`, under which no rule element other than a string converts to
      text, whose file operations succeed, whose extractor yields one page or
      fails, and whose model always answers "T". */
  function WitnessEnv(rules: Option<Value>, reply: Option<Value>, extracts: bool): (env: Env)
    ensures env.parseJson("R") == rules && env.parseJson("T") == reply
  {
    Env(s => if s == "R" then rules else reply,
        v => None,
        n => n,
        true, true,
        b => if extracts then Some(["page"]) else None,
        true,
        (p, sc) => Some("T"))
  }

  function WitnessRequest(rules: Option<string>): Request
  {
    Request(Some(Upload("a.pdf", [])), rules)
  }

  /** An object whose own `toString` is not callable: `${r}` throws on it. */
  const Unprintable: Value := Obj(map["toString" := Num(1.0)])

  /** Each of the eight outcomes occurs for some request. */
  lemma EveryOutcomeReachable(tpl: Template)
    ensures Handle(tpl, WitnessEnv(None, None, true), Request(None, None), {}).outcome == Sent(NoFile)
    ensures Handle(tpl, WitnessEnv(None, None, true), WitnessRequest(Some("")), {}).outcome == Sent(RulesMissing)
    ensures Handle(tpl, WitnessEnv(None, None, true), WitnessRequest(Some("R")), {}).outcome
            == Unhandled(RulesNotJson)
    ensures Handle(tpl, WitnessEnv(Some(Arr([])), None, false), WitnessRequest(Some("R")), {}).outcome
            == Sent(ExtractionFailed)
    ensures Handle(tpl, WitnessEnv(Some(Null), None, true), WitnessRequest(Some("R")), {}).outcome
            == Unhandled(RulesNotArray)
    ensures Handle(tpl, WitnessEnv(Some(Arr([Unprintable])), None, true), WitnessRequest(Some("R")), {}).outcome
            == Unhandled(RuleNotPrintable)
    ensures Handle(tpl, WitnessEnv(Some(Arr([])), None, true), WitnessRequest(Some("R")), {}).outcome
            == Sent(ModelFailed)
    ensures Handle(tpl, WitnessEnv(Some(Arr([])), Some(Arr([])), true), WitnessRequest(Some("R")), {}).outcome
            == Sent(Success(Arr([])))
  {
    Outcomes(tpl, WitnessEnv(None, None, true), WitnessRequest(Some("R")), {});
    Outcomes(tpl, WitnessEnv(Some(Arr([])), None, false), WitnessRequest(Some("R")), {});
    Outcomes(tpl, WitnessEnv(Some(Null), None, true), WitnessRequest(Some("R")), {});
    Outcomes(tpl, WitnessEnv(Some(Arr([Unprintable])), None, true), WitnessRequest(Some("R")), {});
    Outcomes(tpl, WitnessEnv(Some(Arr([])), None, true), WitnessRequest(Some("R")), {});
    Outcomes(tpl, WitnessEnv(Some(Arr([])), Some(Arr([])), true), WitnessRequest(Some("R")), {});
  }
}
