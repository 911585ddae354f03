/**
 * The benchmark runner: the benchmark list, the chat-completion request, the two-attempt retry
 * policy of `callModel` and `runBenchmark`. Each HTTP exchange is given as an `Attempt` outcome
 * and the clock as millisecond readings.
 */
module BenchmarkRunner {
  import opened Wrappers
  import opened Text
  import opened Models
  import CodeExtractor

  // ---------------------------------------------------------------------------------------------
  // listBenchmarks

  datatype BenchmarkInfo = BenchmarkInfo(id: string, name: string, prompt: string)

  /** An entry of the `benchmarks` directory, with the text of its `prompt.txt` when that file exists. */
  datatype DirEntry = DirEntry(name: string, isDirectory: bool, promptFile: Option<string>)

  function InfoOf(e: DirEntry): BenchmarkInfo {
    BenchmarkInfo(e.name, TitleFromId(e.name), e.promptFile.GetOr(""))
  }

  function ListFrom(entries: seq<DirEntry>): (r: seq<BenchmarkInfo>)
    ensures |r| <= |entries|
    ensures forall b :: b in r ==> b.prompt != [] && exists e :: e in entries && e.isDirectory && b == InfoOf(e)
    ensures forall e :: e in entries && e.isDirectory && e.promptFile.GetOr("") != [] ==> InfoOf(e) in r
  {
    if entries == [] then []
    else
      var rest := ListFrom(entries[1..]);
      assert forall e :: e in entries <==> e == entries[0] || e in entries[1..];
      var e := entries[0];
      if e.isDirectory && InfoOf(e).prompt != [] then [InfoOf(e)] + rest else rest
  }

  /** `listBenchmarks`: one entry per sub-directory with a non-empty prompt, named after its id;
      nothing when the directory is missing. */
  function ListBenchmarks(benchDirExists: bool, entries: seq<DirEntry>): seq<BenchmarkInfo> {
    if !benchDirExists then [] else ListFrom(entries)
  }

  /** Every listed benchmark has a non-empty prompt read from a sub-directory, and its name is the
      title of its id; every sub-directory with a non-empty prompt is listed. */
  lemma ListBenchmarksSpec(benchDirExists: bool, entries: seq<DirEntry>)
    ensures !benchDirExists ==> ListBenchmarks(benchDirExists, entries) == []
    ensures forall b :: b in ListBenchmarks(benchDirExists, entries) ==>
      b.prompt != [] && b.name == TitleFromId(b.id) &&
      exists e :: e in entries && e.isDirectory && e.name == b.id && e.promptFile == Some(b.prompt)
    ensures benchDirExists ==> forall e :: e in entries && e.isDirectory && e.promptFile.Some? && e.promptFile.value != [] ==>
      BenchmarkInfo(e.name, TitleFromId(e.name), e.promptFile.value) in ListBenchmarks(benchDirExists, entries)
  {
  }

  // ---------------------------------------------------------------------------------------------
  // the request

  const SystemPrompt := "You are an expert frontend developer. Respond ONLY with code inside a single fenced code block (```html). Do not include explanations before or after the code block."
  const Temperature: real := 0.3
  const MaxTokens: nat := 16384
  const MaxAttempts: nat := 2

  datatype ChatRequest = ChatRequest(
    url: string,
    authorization: Option<string>,
    model: string,
    systemMessage: string,
    userMessage: string,
    temperature: real,
    maxTokens: nat)

  /** `<baseUrl without one trailing slash>/chat/completions`. */
  function EndpointUrl(baseUrl: string): (url: string)
    ensures StartsWith(url, StripTrailingSlash(baseUrl))
    ensures url[|StripTrailingSlash(baseUrl)|..] == "/chat/completions"
  {
    var b := StripTrailingSlash(baseUrl);
    assert (b + "/chat/completions")[..|b|] == b;
    b + "/chat/completions"
  }

  /** The base URL is kept whole unless it ends in `/`, in which case exactly that one `/` goes. */
  lemma EndpointUrlSlash(baseUrl: string)
    ensures (baseUrl == [] || baseUrl[|baseUrl| - 1] != '/') ==> EndpointUrl(baseUrl) == baseUrl + "/chat/completions"
    ensures baseUrl != [] && baseUrl[|baseUrl| - 1] == '/' ==>
      EndpointUrl(baseUrl) == baseUrl[..|baseUrl| - 1] + "/chat/completions"
  {
  }

  /** The POST `callModel` sends for a model and a prompt. */
  function RequestFor(model: ModelConfig, prompt: string): (req: ChatRequest)
    ensures req.url == EndpointUrl(model.baseUrl)
    ensures req.authorization == (if model.apiKey != "" && model.apiKey != "not-needed" then Some("Bearer " + model.apiKey) else None)
    ensures req.model == model.defaultModel && req.userMessage == prompt
    ensures req.systemMessage == SystemPrompt && req.temperature == 0.3 && req.maxTokens == 16384
  {
    ChatRequest(EndpointUrl(model.baseUrl), Authorization(model.apiKey), model.defaultModel,
                SystemPrompt, prompt, Temperature, MaxTokens)
  }

  // ---------------------------------------------------------------------------------------------
  // callModel

  /** One pass through the `try` block: the fetch or the body read threw (message), the server
      answered with a non-2xx status, or the body parsed, with `choices[0].message.content` and
      `choices[0].text` when present, and the clock reading when it was done. */
  datatype Attempt =
    | Threw(message: string)
    | NotOk(status: nat, errorText: string)
    | Answered(content: Option<string>, text: Option<string>, finishedAt: int)

  datatype CallResult = Success(content: string, durationMs: int) | Failure(message: string)

  function DigitChar(d: nat): char
    requires d < 10
  {
    ('0' as int + d) as char
  }

  /** Decimal digits of a natural number, as `${n}` prints it. */
  function NatToString(n: nat): (s: string)
    ensures |s| >= 1
    ensures forall k :: 0 <= k < |s| ==> '0' <= s[k] <= '9'
    decreases n
  {
    if n < 10 then [DigitChar(n)] else NatToString(n / 10) + [DigitChar(n % 10)]
  }

  function DigitsValue(s: string): nat
    requires forall k :: 0 <= k < |s| ==> '0' <= s[k] <= '9'
  {
    if s == [] then 0 else DigitsValue(s[..|s| - 1]) * 10 + (s[|s| - 1] as int - '0' as int)
  }

  /** Reading the digits back gives the number. */
  lemma {:induction false} NatToStringValue(n: nat)
    ensures DigitsValue(NatToString(n)) == n
    decreases n
  {
    if n >= 10 {
      NatToStringValue(n / 10);
      var s := NatToString(n);
      assert s[..|s| - 1] == NatToString(n / 10);
      assert s[|s| - 1] as int - '0' as int == n % 10;
    }
  }

  /** `API error ${res.status} from ${model.name}: ${errorText}`. */
  function ApiErrorMessage(status: nat, modelName: string, errorText: string): string {
    "API error " + NatToString(status) + " from " + modelName + ": " + errorText
  }

  lemma ApiErrorMessagePrefix(status: nat, modelName: string, errorText: string)
    ensures StartsWith(ApiErrorMessage(status, modelName, errorText), "API error " + NatToString(status))
    ensures StartsWith(ApiErrorMessage(status, modelName, errorText), "API error")
  {
    var p := "API error " + NatToString(status);
    var m := ApiErrorMessage(status, modelName, errorText);
    assert m == p + (" from " + modelName + ": " + errorText);
    assert m[..|p|] == p;
    assert m[..9] == p[..9];
  }

  /** The message of the error a failed attempt leaves in `lastError`. */
  function ErrorOf(modelName: string, a: Attempt): string
    requires !a.Answered?
  {
    match a
    case Threw(message) => message
    case NotOk(status, errorText) => ApiErrorMessage(status, modelName, errorText)
  }

  /** A failed attempt that is retried: one whose error message does not start with `API error`. */
  predicate Retryable(modelName: string, a: Attempt) {
    !a.Answered? && !StartsWith(ErrorOf(modelName, a), "API error")
  }

  /** `message.content ?? text ?? ""`. */
  function ContentOf(content: Option<string>, text: Option<string>): (c: string)
    ensures content.Some? ==> c == content.value
    ensures content.None? && text.Some? ==> c == text.value
    ensures content.None? && text.None? ==> c == ""
  {
    content.GetOr(text.GetOr(""))
  }

  /** What `callModel` resolves or rejects with, from attempt `k` on. */
  function CallFrom(modelName: string, start: int, attempts: seq<Attempt>, k: nat): CallResult
    requires k < |attempts| == MaxAttempts
    decreases MaxAttempts - k
  {
    match attempts[k]
    case Answered(content, text, finishedAt) => Success(ContentOf(content, text), finishedAt - start)
    case _ =>
      if Retryable(modelName, attempts[k]) && k + 1 < MaxAttempts then CallFrom(modelName, start, attempts, k + 1)
      else Failure(ErrorOf(modelName, attempts[k]))
  }

  /** How many requests `callModel` sends: a second one only after a retryable first failure. */
  function AttemptsMade(modelName: string, attempts: seq<Attempt>): nat
    requires |attempts| == MaxAttempts
  {
    if Retryable(modelName, attempts[0]) then 2 else 1
  }

  /**
   * `callModel`: up to two attempts. A parsed body returns its content and the time since `start`;
   * an error whose message starts with `API error` is rethrown at once; any other failure waits
   * (only after the first attempt) and tries again; after two failures the last error is thrown.
   * Every attempt sends the same request, `sent` lists them.
   */
  method CallModel(model: ModelConfig, prompt: string, start: int, attempts: seq<Attempt>)
    returns (result: CallResult, made: nat, waits: nat, sent: seq<ChatRequest>)
    requires |attempts| == MaxAttempts
    ensures result == CallFrom(model.name, start, attempts, 0)
    ensures made == AttemptsMade(model.name, attempts)
    ensures |sent| == made && forall q :: q in sent ==> q == RequestFor(model, prompt)
    ensures waits == (if Retryable(model.name, attempts[0]) then 1 else 0)
  {
    var request := RequestFor(model, prompt);
    var lastError: Option<string> := None;
    made, waits, sent := 0, 0, [];
    for attempt := 0 to MaxAttempts
      invariant made == attempt && waits == (if attempt == 0 then 0 else 1)
      invariant |sent| == made && forall q :: q in sent ==> q == request
      invariant forall j :: 0 <= j < attempt ==> Retryable(model.name, attempts[j])
      invariant attempt > 0 ==> lastError == Some(ErrorOf(model.name, attempts[attempt - 1]))
    {
      made := made + 1;
      sent := sent + [request];
      var outcome := attempts[attempt];
      if outcome.Answered? {
        result := Success(ContentOf(outcome.content, outcome.text), outcome.finishedAt - start);
        assert attempt == 1 ==> Retryable(model.name, attempts[0]);
        return;
      }
      var err := ErrorOf(model.name, outcome);
      lastError := Some(err);
      if StartsWith(err, "API error") {
        result := Failure(err);
        assert attempt == 1 ==> Retryable(model.name, attempts[0]);
        return;
      }
      if attempt == 0 {
        waits := waits + 1;
      }
    }
    result := Failure(lastError.value);
  }

  /** At most two requests are sent, and a wait happens exactly when a second one is. */
  lemma AttemptBounds(modelName: string, attempts: seq<Attempt>)
    requires |attempts| == MaxAttempts
    ensures 1 <= AttemptsMade(modelName, attempts) <= 2
    ensures AttemptsMade(modelName, attempts) == 2 <==> Retryable(modelName, attempts[0])
  {
  }

  /** A non-2xx answer is never retried: the call fails with `API error <status>…` on that attempt. */
  lemma ApiErrorNotRetried(modelName: string, start: int, attempts: seq<Attempt>)
    requires |attempts| == MaxAttempts && attempts[0].NotOk?
    ensures AttemptsMade(modelName, attempts) == 1
    ensures CallFrom(modelName, start, attempts, 0).Failure?
    ensures StartsWith(CallFrom(modelName, start, attempts, 0).message, "API error " + NatToString(attempts[0].status))
  {
    ApiErrorMessagePrefix(attempts[0].status, modelName, attempts[0].errorText);
  }

  /** A network failure is retried once; the second attempt decides, and its failure is what is thrown. */
  lemma NetworkFailureRetried(modelName: string, start: int, attempts: seq<Attempt>)
    requires |attempts| == MaxAttempts && attempts[0].Threw? && !StartsWith(attempts[0].message, "API error")
    ensures AttemptsMade(modelName, attempts) == 2
    ensures attempts[1].Answered? ==> (CallFrom(modelName, start, attempts, 0) ==
      Success(ContentOf(attempts[1].content, attempts[1].text), attempts[1].finishedAt - start))
    ensures !attempts[1].Answered? ==> CallFrom(modelName, start, attempts, 0) == Failure(ErrorOf(modelName, attempts[1]))
  {
  }

  /** A call succeeds exactly when one of the attempts it makes gets a parsed body. */
  lemma CallSucceedsIffAnswered(modelName: string, start: int, attempts: seq<Attempt>)
    requires |attempts| == MaxAttempts
    ensures CallFrom(modelName, start, attempts, 0).Success? <==>
      attempts[0].Answered? || (Retryable(modelName, attempts[0]) && attempts[1].Answered?)
  {
  }

  // ---------------------------------------------------------------------------------------------
  // runBenchmark

  datatype RunOutput = RunOutput(rawResponse: string, extractedCode: string, durationMs: int)

  /** `runBenchmark`: the raw content exactly, the code extracted from it, and the call's duration;
      a failed call propagates its error. Every request sent is the chat request for the benchmark's prompt. */
  method RunBenchmark(benchmark: BenchmarkInfo, model: ModelConfig, start: int, attempts: seq<Attempt>)
    returns (r: Result<RunOutput>, sent: seq<ChatRequest>)
    requires |attempts| == MaxAttempts
    ensures |sent| == AttemptsMade(model.name, attempts)
    ensures forall q :: q in sent ==> q.userMessage == benchmark.prompt && q == RequestFor(model, benchmark.prompt)
    ensures CallFrom(model.name, start, attempts, 0).Failure? ==> r == Err(CallFrom(model.name, start, attempts, 0).message)
    ensures CallFrom(model.name, start, attempts, 0).Success? ==> (r.Ok? &&
      r.value.rawResponse == CallFrom(model.name, start, attempts, 0).content &&
      r.value.extractedCode == CodeExtractor.ExtractCode(r.value.rawResponse) &&
      r.value.durationMs == CallFrom(model.name, start, attempts, 0).durationMs)
    ensures r.Ok? ==> IsTrimmed(r.value.extractedCode) && IsSlice(r.value.extractedCode, r.value.rawResponse)
  {
    var call, _, _, requests := CallModel(model, benchmark.prompt, start, attempts);
    sent := requests;
    match call
    case Failure(message) =>
      r := Err(message);
    case Success(content, durationMs) =>
      r := Ok(RunOutput(content, CodeExtractor.ExtractCode(content), durationMs));
  }
}
