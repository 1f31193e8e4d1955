/** The submission logic of the frontend (frontend/src/App.jsx): the rule list
    the form edits, the filter that drops blank rules, the client-side gate,
    the payload sent to the backend, and the state after the reply. React state
    updates are modelled as the state they leave once the handler has run. */
module App {
  import opened Basics
  import opened JsText
  import opened Json
  import opened Prompt
  import opened Pipeline
  import opened ResultsTable

  /** The chosen PDF: its name and contents. */
  datatype File = File(name: string, bytes: seq<bv8>)

  /** The component's five pieces of state, holding JavaScript values where the
      code stores whatever it is given. */
  datatype UiState = UiState(
    pdfFile: Option<File>, rules: seq<string>, results: Value, loading: bool, error: Value)

  const InitialRules: seq<string> := ["", "", ""]

  const InitialState: UiState := UiState(None, InitialRules, Arr([]), false, Null)

  const ValidationMessage: string := "Upload a PDF & enter at least one rule."

  const FallbackMessage: string := "Server error."

  /** `handleRuleChange(i, v)`: a copy of the list with entry `i` replaced. */
  function HandleRuleChange(rules: seq<string>, i: nat, v: string): (r: seq<string>)
    requires i < |rules|
    ensures |r| == |rules| && r[i] == v
    ensures forall j :: 0 <= j < |rules| && j != i ==> r[j] == rules[j]
  {
    rules[i := v]
  }

  /** A rule the form counts: one that is not all white space. */
  predicate IsActive(rule: string)
  {
    !AllSpace(rule)
  }

  /** This is the form's own test, `r.trim() !== ""`. */
  lemma IsActiveMeansNonBlank(rule: string)
    ensures IsActive(rule) <==> Trim(rule) != ""
  {
  }

  /** `a` is `b` with some entries left out, the rest kept in order. */
  predicate IsSubsequence<T(==)>(a: seq<T>, b: seq<T>)
    decreases |b|
  {
    if |a| == 0 then true
    else if |b| == 0 then false
    else if a[0] == b[0] then IsSubsequence(a[1..], b[1..])
    else IsSubsequence(a, b[1..])
  }

  /** `rules.filter((r) => r.trim() !== "")`. */
  function ActiveRules(rules: seq<string>): (active: seq<string>)
    ensures |active| <= |rules|
    ensures forall i :: 0 <= i < |active| ==> IsActive(active[i])
  {
    if |rules| == 0 then []
    else if IsActive(rules[0]) then [rules[0]] + ActiveRules(rules[1..])
    else ActiveRules(rules[1..])
  }

  /** The filter keeps the active rules in their original order. */
  lemma {:induction false} ActiveRulesInOrder(rules: seq<string>)
    ensures IsSubsequence(ActiveRules(rules), rules)
  {
    if |rules| > 0 {
      var rest := ActiveRules(rules[1..]);
      ActiveRulesInOrder(rules[1..]);
      if IsActive(rules[0]) {
        assert ([rules[0]] + rest)[1..] == rest;
      } else if |rest| > 0 {
        assert rest[0] != rules[0];
      }
    }
  }

  /** The filter keeps every occurrence of each active rule and none of a blank one. */
  lemma {:induction false} ActiveRulesCounts(rules: seq<string>, x: string)
    ensures multiset(ActiveRules(rules))[x] == if IsActive(x) then multiset(rules)[x] else 0
  {
    if |rules| > 0 {
      ActiveRulesCounts(rules[1..], x);
      assert rules == [rules[0]] + rules[1..];
      assert multiset(rules) == multiset{rules[0]} + multiset(rules[1..]);
      if IsActive(rules[0]) {
        assert multiset(ActiveRules(rules)) == multiset{rules[0]} + multiset(ActiveRules(rules[1..]));
      }
    }
  }

  /** The list is left as it is exactly when none of its rules is blank. */
  lemma {:induction false} ActiveRulesIdentity(rules: seq<string>)
    ensures ActiveRules(rules) == rules <==> forall i :: 0 <= i < |rules| ==> IsActive(rules[i])
  {
    if |rules| > 0 {
      ActiveRulesIdentity(rules[1..]);
      assert forall i :: 1 <= i < |rules| ==> rules[i] == rules[1..][i - 1];
      if IsActive(rules[0]) && ActiveRules(rules[1..]) != rules[1..] {
        assert ActiveRules(rules)[1..] == ActiveRules(rules[1..]);
      }
      if IsActive(rules[0]) && ActiveRules(rules) == rules {
        assert ActiveRules(rules)[1..] == ActiveRules(rules[1..]);
      }
    }
  }

  /** What the form posts: the file and the list of active rules. */
  datatype Submission = Submission(file: File, rules: seq<string>)

  /** The state once the synchronous part of `handleSubmit` has run, and the
      submission it posts, if any. */
  datatype Began = Began(state: UiState, sent: Option<Submission>)

  /** `handleSubmit` up to the request: clear the error and the results, then
      either stop with the validation message (without touching `loading`)
      or set `loading` and post the file with the active rules. */
  function BeginSubmit(s: UiState): (b: Began)
    ensures b.state.results == Arr([]) && b.state.rules == s.rules && b.state.pdfFile == s.pdfFile
    ensures b.sent.None? <==> s.pdfFile.None? || ActiveRules(s.rules) == []
    ensures b.sent.None? ==> b.state.error == Str(ValidationMessage) && b.state.loading == s.loading
    ensures b.sent.Some? ==>
              && b.state.error == Null && b.state.loading
              && b.sent.value == Submission(s.pdfFile.value, ActiveRules(s.rules))
  {
    var cleared := s.(error := Null, results := Arr([]));
    var active := ActiveRules(s.rules);
    if s.pdfFile.None? || |active| == 0 then
      Began(cleared.(error := Str(ValidationMessage)), None)
    else
      Began(cleared.(loading := true), Some(Submission(s.pdfFile.value, active)))
  }

  /** What axios hands back: no HTTP response at all, or a status with a body. */
  datatype HttpReply = NoResponse | HttpResponse(status: int, data: Value)

  /** The server's `error` field, when there is a response whose body has a
      truthy one. */
  function ServerError(reply: HttpReply): (r: Option<Value>)
    ensures r.Some? <==> reply.HttpResponse? && Member(reply.data, "error").Some?
                         && Truthy(Member(reply.data, "error").value)
    ensures r.Some? ==> r.value == Member(reply.data, "error").value
  {
    if reply.HttpResponse? then
      match Member(reply.data, "error")
      case Some(v) => if Truthy(v) then Some(v) else None
      case None => None
    else None
  }

  /** `err.response?.data?.error || "Server error."`. */
  function ErrorShown(reply: HttpReply): (e: Value)
    ensures Truthy(e)
    ensures ServerError(reply).Some? ==> e == ServerError(reply).value
    ensures ServerError(reply).None? ==> e == Str(FallbackMessage)
  {
    var field := if reply.HttpResponse? && Member(reply.data, "error").Some?
                 then Member(reply.data, "error").value else Undefined;
    if Truthy(field) then field else Str(FallbackMessage)
  }

  /** `handleSubmit` after the request settles: a 2xx reply stores
      `res.data.results` (reading it from `null` throws and lands in the catch);
      any other outcome stores the server's error or the fallback; `loading`
      ends false either way. */
  function FinishSubmit(s: UiState, reply: HttpReply): (t: UiState)
    ensures !t.loading && t.rules == s.rules && t.pdfFile == s.pdfFile
    ensures reply.HttpResponse? && 200 <= reply.status < 300 && Member(reply.data, "results").Some? ==>
              t.error == s.error && t.results == Member(reply.data, "results").value
    ensures reply.HttpResponse? && 200 <= reply.status < 300 && (reply.data.Null? || reply.data.Undefined?) ==>
              t.results == s.results && t.error == Str(FallbackMessage)
    ensures !(reply.HttpResponse? && 200 <= reply.status < 300) ==>
              t.results == s.results && t.error == ErrorShown(reply)
  {
    var done := s.(loading := false);
    if reply.HttpResponse? && 200 <= reply.status < 300 then
      match Member(reply.data, "results")
      case Some(v) => done.(results := v)
      case None => done.(error := Str(FallbackMessage))
    else
      done.(error := ErrorShown(reply))
  }

  /** A 2xx reply whose body is not an object, such as the raw text axios
      hands back for a page that is not JSON, ends with undefined results and
      no error: the form shows neither a table nor a message. */
  lemma NonObjectSuccessShowsNothing(s: UiState, reply: HttpReply)
    requires BeginSubmit(s).sent.Some?
    requires reply.HttpResponse? && 200 <= reply.status < 300
    requires !reply.data.Obj? && !reply.data.Null? && !reply.data.Undefined?
    ensures var t := Submit(s, reply);
            && !t.loading && t.results == Undefined && !Truthy(t.error)
            && ResultTable(t.results).Nothing?
  {
  }

  /** The whole of `handleSubmit`, with the reply the request would get. */
  function Submit(s: UiState, reply: HttpReply): (t: UiState)
    ensures BeginSubmit(s).sent.None? ==>
              t.error == Str(ValidationMessage) && t.loading == s.loading && t.results == Arr([])
    ensures BeginSubmit(s).sent.Some? ==> !t.loading
  {
    var b := BeginSubmit(s);
    if b.sent.None? then b.state else FinishSubmit(b.state, reply)
  }

  /** The initial form has three empty rule fields and cannot be submitted. */
  lemma InitialFormBlocked(file: Option<File>)
    ensures |InitialRules| == 3 && forall i :: 0 <= i < 3 ==> InitialRules[i] == ""
    ensures ActiveRules(InitialRules) == []
    ensures BeginSubmit(InitialState.(pdfFile := file)).sent.None?
  {
    assert !IsActive("");
    assert ActiveRules(InitialRules) == ActiveRules(InitialRules[1..]);
    assert ActiveRules(InitialRules[1..]) == ActiveRules(InitialRules[2..]);
  }

  /** Whatever the backend replies, the form shows it faithfully: each of its
      error messages appears as it was sent, and a success stores the results. */
  lemma BackendRepliesShown(s: UiState, v: Value)
    ensures FinishSubmit(s, HttpResponse(NoFile.status, NoFile.body)).error == Str(NoFileMessage)
    ensures FinishSubmit(s, HttpResponse(RulesMissing.status, RulesMissing.body)).error == Str(RulesMissingMessage)
    ensures FinishSubmit(s, HttpResponse(ExtractionFailed.status, ExtractionFailed.body)).error
            == Str(ExtractionMessage)
    ensures FinishSubmit(s, HttpResponse(ModelFailed.status, ModelFailed.body)).error == Str(ModelMessage)
    ensures FinishSubmit(s, HttpResponse(Success(v).status, Success(v).body)).results == v
    ensures FinishSubmit(s, NoResponse).error == Str(FallbackMessage)
  {
  }

  /** The backend request built from a submission: the file, and the rules
      field carrying the serialized list. */
  function ToRequest(sub: Submission, stringify: seq<string> -> string): Request
  {
    Request(Some(Upload(sub.file.name, sub.file.bytes)), Some(stringify(sub.rules)))
  }

  lemma RuleTextsOfStrings(env: Env, xs: seq<string>)
    ensures RuleTexts(env, Strings(xs).items) == xs
  {
  }

  /** Blank rules never reach the model: when the serialized list parses back
      to itself and the extraction succeeds, the backend asks the model with a
      prompt built from exactly the active rules, in form order. */
  lemma OnlyActiveRulesReachModel(s: UiState, env: Env, stringify: seq<string> -> string)
    requires BeginSubmit(s).sent.Some?
    requires stringify(ActiveRules(s.rules)) != ""
    requires env.parseJson(stringify(ActiveRules(s.rules))) == Some(Strings(ActiveRules(s.rules)))
    requires !ExtractionFails(env, Upload(s.pdfFile.value.name, s.pdfFile.value.bytes))
    ensures var req := ToRequest(BeginSubmit(s).sent.value, stringify);
            && ReachesModel(env, req)
            && PromptOf(SourceTemplate, env, req)
               == BuildPrompt(ActiveRules(s.rules), JoinPages(env.extract(s.pdfFile.value.bytes).value))
  {
    RuleTextsOfStrings(env, ActiveRules(s.rules));
  }
}
