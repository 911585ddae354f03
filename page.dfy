/**
 * The decision logic of the main page: the model selection toggle, the id-to-name map, the guards
 * of the two run buttons, the results the run loops collect, loading a past result, and the score
 * list update. Rendering and React state plumbing are outside this model; each state update is a
 * function from the previous value to the next.
 */
module Page {
  import opened Wrappers
  import Scores
  import BenchmarkRunner

  // ---------------------------------------------------------------------------------------------
  // the model selection

  predicate NoDup(s: seq<string>) {
    forall i, j :: 0 <= i < j < |s| ==> s[i] != s[j]
  }

  /** `Set.delete`. */
  function Remove(s: seq<string>, id: string): (r: seq<string>)
    ensures forall x :: x in r <==> x in s && x != id
    ensures NoDup(s) ==> NoDup(r)
    ensures id !in s ==> r == s
  {
    if s == [] then []
    else
      var rest := Remove(s[1..], id);
      assert forall x :: x in s <==> x == s[0] || x in s[1..];
      assert NoDup(s) ==> NoDup(s[1..]) && s[0] !in s[1..] by {
        if NoDup(s) {
          forall i, j | 0 <= i < j < |s[1..]| ensures s[1..][i] != s[1..][j] {
            assert s[1..][i] == s[i + 1] && s[1..][j] == s[j + 1];
          }
          forall k | 0 <= k < |s[1..]| ensures s[1..][k] != s[0] {
            assert s[1..][k] == s[k + 1];
          }
        }
      }
      if s[0] == id then rest else [s[0]] + rest
  }

  /**
   * `toggleModel`: the selection is a `Set`, whose iteration order (used when the runs take
   * `Array.from(selectedModels)`) is insertion order; an id is deleted if present, added at the end
   * otherwise.
   */
  function ToggleModel(selected: seq<string>, id: string): seq<string> {
    if id in selected then Remove(selected, id) else selected + [id]
  }

  /** Toggling flips the id's membership, leaves every other id as it was, and keeps the set a set. */
  lemma ToggleModelMembership(selected: seq<string>, id: string)
    ensures id in ToggleModel(selected, id) <==> id !in selected
    ensures forall x :: x != id ==> (x in ToggleModel(selected, id) <==> x in selected)
    ensures NoDup(selected) ==> NoDup(ToggleModel(selected, id))
  {
  }

  /** Toggling twice restores the set; when the id was absent it restores the order as well. */
  lemma ToggleModelTwice(selected: seq<string>, id: string)
    ensures forall x :: x in ToggleModel(ToggleModel(selected, id), id) <==> x in selected
    ensures id !in selected ==> ToggleModel(ToggleModel(selected, id), id) == selected
  {
    if id !in selected {
      RemoveLast(selected, id);
    }
  }

  lemma {:induction false} RemoveLast(s: seq<string>, id: string)
    requires id !in s
    ensures Remove(s + [id], id) == s
    decreases |s|
  {
    if s == [] {
      assert Remove([id], id) == Remove([], id);
    } else {
      assert (s + [id])[1..] == s[1..] + [id];
      RemoveLast(s[1..], id);
      assert s == [s[0]] + s[1..];
    }
  }

  // ---------------------------------------------------------------------------------------------
  // the id-to-name map

  datatype ModelInfo = ModelInfo(id: string, name: string)

  /** `modelNames` after its loop over `models`: each model writes its name under its id. */
  function NamesOf(models: seq<ModelInfo>): map<string, string>
    decreases |models|
  {
    if models == [] then map[] else NamesOf(models[..|models| - 1])[models[|models| - 1].id := models[|models| - 1].name]
  }

  /** The loop building `modelNames`. */
  method BuildModelNames(models: seq<ModelInfo>) returns (names: map<string, string>)
    ensures names == NamesOf(models)
  {
    names := map[];
    for i := 0 to |models|
      invariant names == NamesOf(models[..i])
    {
      assert models[..i + 1][..i] == models[..i];
      names := names[models[i].id := models[i].name];
    }
    assert models[..|models|] == models;
  }

  /** An id is named exactly when some model has it, and a later model with the same id wins. */
  lemma {:induction false} NamesOfLastWins(models: seq<ModelInfo>)
    ensures forall id :: id in NamesOf(models) <==> exists k :: 0 <= k < |models| && models[k].id == id
    ensures forall k :: 0 <= k < |models| && (forall j :: k < j < |models| ==> models[j].id != models[k].id) ==>
      models[k].id in NamesOf(models) && NamesOf(models)[models[k].id] == models[k].name
    decreases |models|
  {
    if models != [] {
      var init := models[..|models| - 1];
      NamesOfLastWins(init);
      forall id | id in NamesOf(models) ensures exists k :: 0 <= k < |models| && models[k].id == id {
        if id != models[|models| - 1].id {
          var k :| 0 <= k < |init| && init[k].id == id;
          assert models[k] == init[k];
        }
      }
      forall id | (exists k :: 0 <= k < |models| && models[k].id == id) ensures id in NamesOf(models) {
        var k :| 0 <= k < |models| && models[k].id == id;
        if k < |init| { assert init[k] == models[k]; }
      }
      forall k | 0 <= k < |models| && (forall j :: k < j < |models| ==> models[j].id != models[k].id)
        ensures models[k].id in NamesOf(models) && NamesOf(models)[models[k].id] == models[k].name
      {
        if k < |init| {
          assert init[k] == models[k];
          assert forall j :: k < j < |init| ==> init[j] == models[j];
        }
      }
    }
  }

  /** `modelNames[modelId] ?? modelId`. */
  function DisplayName(names: map<string, string>, modelId: string): string {
    if modelId in names then names[modelId] else modelId
  }

  // ---------------------------------------------------------------------------------------------
  // run results

  datatype RunResult = RunResult(
    benchmarkId: string,
    modelId: string,
    modelName: string,
    rawResponse: string,
    extractedCode: string,
    resultPath: string,
    durationMs: int,
    success: bool,
    error: Option<string>)

  /** The record a run loop pushes when its request throws: failed, empty, zero duration. */
  function FailureRecord(benchmarkId: string, modelId: string, names: map<string, string>, message: Option<string>): (r: RunResult)
    ensures !r.success && r.durationMs == 0 && r.rawResponse == "" && r.extractedCode == "" && r.resultPath == ""
    ensures r.benchmarkId == benchmarkId && r.modelId == modelId && r.modelName == DisplayName(names, modelId)
    ensures r.error == Some(message.GetOr("Network error"))
  {
    RunResult(benchmarkId, modelId, DisplayName(names, modelId), "", "", "", 0, false, Some(message.GetOr("Network error")))
  }

  /** What one `POST /api/run-benchmark` gave the page: the request or the body read threw (with a
      message when it was an `Error`), or a body with or without a `results` array. */
  datatype RunResponse = RequestThrew(message: Option<string>) | Responded(results: Option<seq<RunResult>>)

  /** The records one request adds to `allResults`. */
  function ResultsOf(benchmarkId: string, modelId: string, names: map<string, string>, resp: RunResponse): seq<RunResult> {
    match resp
    case RequestThrew(message) => [FailureRecord(benchmarkId, modelId, names, message)]
    case Responded(results) => results.GetOr([])
  }

  /** The records of a `runBenchmark` loop over the selected models for one benchmark. */
  function CollectForModels(benchmarkId: string, modelIds: seq<string>, names: map<string, string>, resps: seq<RunResponse>): seq<RunResult>
    requires |resps| == |modelIds|
    decreases |modelIds|
  {
    if modelIds == [] then []
    else
      var n := |modelIds| - 1;
      CollectForModels(benchmarkId, modelIds[..n], names, resps[..n]) + ResultsOf(benchmarkId, modelIds[n], names, resps[n])
  }

  /** The records of a `runAllBenchmarks` loop over every benchmark for one model. */
  function CollectForBenchmarks(benchmarks: seq<BenchmarkRunner.BenchmarkInfo>, modelId: string, names: map<string, string>, resps: seq<RunResponse>): seq<RunResult>
    requires |resps| == |benchmarks|
    decreases |benchmarks|
  {
    if benchmarks == [] then []
    else
      var n := |benchmarks| - 1;
      CollectForBenchmarks(benchmarks[..n], modelId, names, resps[..n]) + ResultsOf(benchmarks[n].id, modelId, names, resps[n])
  }

  predicate Truthy(s: Option<string>) {
    s.Some? && s.value != ""
  }

  /** The guard of `runBenchmark`: a benchmark is selected and at least one model. */
  predicate CanRun(selectedBenchmark: Option<string>, selected: seq<string>) {
    Truthy(selectedBenchmark) && |selected| > 0
  }

  /** `canRunAll`, which shows the run-all button: exactly one model selected and at least one
      benchmark listed. */
  predicate CanRunAll(selected: seq<string>, benchmarks: seq<BenchmarkRunner.BenchmarkInfo>) {
    |selected| == 1 && |benchmarks| > 0
  }

  /** `runBenchmark`: nothing without a benchmark or a model; otherwise one request per selected
      model, in selection order, each adding its results or one failure record. */
  method RunBenchmark(selectedBenchmark: Option<string>, selected: seq<string>, names: map<string, string>, resps: seq<RunResponse>)
    returns (ran: bool, allResults: seq<RunResult>)
    requires |resps| == |selected|
    ensures ran <==> CanRun(selectedBenchmark, selected)
    ensures !ran ==> allResults == []
    ensures ran ==> allResults == CollectForModels(selectedBenchmark.value, selected, names, resps)
  {
    if !Truthy(selectedBenchmark) || |selected| == 0 {
      return false, [];
    }
    ran := true;
    var benchmarkId := selectedBenchmark.value;
    allResults := [];
    for i := 0 to |selected|
      invariant allResults == CollectForModels(benchmarkId, selected[..i], names, resps[..i])
    {
      assert selected[..i + 1][..i] == selected[..i] && resps[..i + 1][..i] == resps[..i];
      allResults := allResults + ResultsOf(benchmarkId, selected[i], names, resps[i]);
    }
    assert selected[..|selected|] == selected && resps[..|resps|] == resps;
  }

  /** `runAllBenchmarks`: nothing unless exactly one model is selected; otherwise one request per
      benchmark, in list order, for that model; the selected benchmark ends as the last one run. */
  method RunAllBenchmarks(selectedBenchmark: Option<string>, selected: seq<string>, benchmarks: seq<BenchmarkRunner.BenchmarkInfo>,
                          names: map<string, string>, resps: seq<RunResponse>)
    returns (ran: bool, allResults: seq<RunResult>, selectedAfter: Option<string>)
    requires |resps| == |benchmarks|
    ensures ran <==> |selected| == 1
    ensures !ran ==> allResults == [] && selectedAfter == selectedBenchmark
    ensures ran ==> allResults == CollectForBenchmarks(benchmarks, selected[0], names, resps)
    ensures ran && |benchmarks| > 0 ==> selectedAfter == Some(benchmarks[|benchmarks| - 1].id)
    ensures ran && |benchmarks| == 0 ==> selectedAfter == selectedBenchmark
    ensures CanRunAll(selected, benchmarks) ==> ran && selectedAfter == Some(benchmarks[|benchmarks| - 1].id)
    ensures !CanRunAll(selected, benchmarks) ==> allResults == [] && selectedAfter == selectedBenchmark
  {
    selectedAfter := selectedBenchmark;
    if |selected| != 1 {
      return false, [], selectedAfter;
    }
    ran := true;
    var modelId := selected[0];
    allResults := [];
    for i := 0 to |benchmarks|
      invariant allResults == CollectForBenchmarks(benchmarks[..i], modelId, names, resps[..i])
      invariant i > 0 ==> selectedAfter == Some(benchmarks[i - 1].id)
      invariant i == 0 ==> selectedAfter == selectedBenchmark
    {
      selectedAfter := Some(benchmarks[i].id);
      assert benchmarks[..i + 1][..i] == benchmarks[..i] && resps[..i + 1][..i] == resps[..i];
      allResults := allResults + ResultsOf(benchmarks[i].id, modelId, names, resps[i]);
    }
    assert benchmarks[..|benchmarks|] == benchmarks && resps[..|resps|] == resps;
  }

  /** When every request throws, the run holds exactly one failure record per model, in order. */
  lemma {:induction false} AllFailedRecords(benchmarkId: string, modelIds: seq<string>, names: map<string, string>, resps: seq<RunResponse>)
    requires |resps| == |modelIds| && forall k :: 0 <= k < |resps| ==> resps[k].RequestThrew?
    ensures |CollectForModels(benchmarkId, modelIds, names, resps)| == |modelIds|
    ensures forall k :: 0 <= k < |modelIds| ==>
      CollectForModels(benchmarkId, modelIds, names, resps)[k] == FailureRecord(benchmarkId, modelIds[k], names, resps[k].message)
    decreases |modelIds|
  {
    if modelIds != [] {
      var n := |modelIds| - 1;
      AllFailedRecords(benchmarkId, modelIds[..n], names, resps[..n]);
    }
  }

  /** When every request of a run-all throws, it holds exactly one failure record per benchmark, in
      list order, each for the one selected model. */
  lemma {:induction false} AllBenchmarksFailed(benchmarks: seq<BenchmarkRunner.BenchmarkInfo>, modelId: string, names: map<string, string>, resps: seq<RunResponse>)
    requires |resps| == |benchmarks| && forall k :: 0 <= k < |resps| ==> resps[k].RequestThrew?
    ensures |CollectForBenchmarks(benchmarks, modelId, names, resps)| == |benchmarks|
    ensures forall k :: 0 <= k < |benchmarks| ==>
      CollectForBenchmarks(benchmarks, modelId, names, resps)[k] == FailureRecord(benchmarks[k].id, modelId, names, resps[k].message)
    decreases |benchmarks|
  {
    if benchmarks != [] {
      var n := |benchmarks| - 1;
      AllBenchmarksFailed(benchmarks[..n], modelId, names, resps[..n]);
    }
  }

  /** Every record a run collects is either a record the server returned or a failure record of a
      selected model for the run's benchmark. */
  lemma {:induction false} CollectedRecordsOrigin(benchmarkId: string, modelIds: seq<string>, names: map<string, string>, resps: seq<RunResponse>)
    requires |resps| == |modelIds|
    ensures forall r :: r in CollectForModels(benchmarkId, modelIds, names, resps) ==>
      (exists k :: 0 <= k < |resps| && resps[k].Responded? && resps[k].results.Some? && r in resps[k].results.value) ||
      (exists k :: 0 <= k < |resps| && resps[k].RequestThrew? && r == FailureRecord(benchmarkId, modelIds[k], names, resps[k].message))
    decreases |modelIds|
  {
    if modelIds != [] {
      var n := |modelIds| - 1;
      CollectedRecordsOrigin(benchmarkId, modelIds[..n], names, resps[..n]);
      forall r | r in CollectForModels(benchmarkId, modelIds, names, resps)
        ensures (exists k :: 0 <= k < |resps| && resps[k].Responded? && resps[k].results.Some? && r in resps[k].results.value) ||
          (exists k :: 0 <= k < |resps| && resps[k].RequestThrew? && r == FailureRecord(benchmarkId, modelIds[k], names, resps[k].message))
      {
        if r in CollectForModels(benchmarkId, modelIds[..n], names, resps[..n]) {
          if exists k :: 0 <= k < n && resps[..n][k].Responded? && resps[..n][k].results.Some? && r in resps[..n][k].results.value {
            var k :| 0 <= k < n && resps[..n][k].Responded? && resps[..n][k].results.Some? && r in resps[..n][k].results.value;
            assert resps[k] == resps[..n][k];
          } else {
            var k :| 0 <= k < n && resps[..n][k].RequestThrew? && r == FailureRecord(benchmarkId, modelIds[..n][k], names, resps[..n][k].message);
            assert resps[k] == resps[..n][k] && modelIds[k] == modelIds[..n][k];
          }
        }
      }
    }
  }

  // ---------------------------------------------------------------------------------------------
  // loadPastResult

  /** `/results/<benchmark>/<model>/index.html`. */
  function ResultPath(benchmarkId: string, modelId: string): string {
    "/results/" + benchmarkId + "/" + modelId + "/index.html"
  }

  /** What `loadPastResult` sets: the selected benchmark, the active tab and the result list. */
  datatype PastView = PastView(selectedBenchmark: Option<string>, activeTab: string, results: seq<RunResult>)

  /** `loadPastResult`: selects the benchmark, switches to the runner tab, and shows one successful
      record per model id, in order, pointing at its saved page with no response or code of its own. */
  function LoadPastResult(benchmarkId: string, modelIds: seq<string>, names: map<string, string>): (v: PastView)
    ensures v.selectedBenchmark == Some(benchmarkId) && v.activeTab == "runner"
    ensures |v.results| == |modelIds|
    ensures forall k :: 0 <= k < |v.results| ==> (v.results[k].success && v.results[k].durationMs == 0 &&
      v.results[k].benchmarkId == benchmarkId && v.results[k].modelId == modelIds[k] &&
      v.results[k].modelName == DisplayName(names, modelIds[k]) &&
      v.results[k].rawResponse == "" && v.results[k].extractedCode == "" &&
      v.results[k].resultPath == ResultPath(benchmarkId, modelIds[k]) && v.results[k].error.None?)
  {
    PastView(Some(benchmarkId), "runner",
      seq(|modelIds|, k requires 0 <= k < |modelIds| =>
        RunResult(benchmarkId, modelIds[k], DisplayName(names, modelIds[k]), "", "", ResultPath(benchmarkId, modelIds[k]), 0, true, None)))
  }

  /** The path of a loaded record starts at the results folder, names the benchmark and ends at the model's page. */
  lemma ResultPathShape(benchmarkId: string, modelId: string)
    ensures var p := ResultPath(benchmarkId, modelId);
      p[..9] == "/results/" && p[9..9 + |benchmarkId|] == benchmarkId &&
      p[|p| - |modelId| - 11..|p| - 11] == modelId && p[|p| - 11..] == "/index.html"
  {
  }

  // ---------------------------------------------------------------------------------------------
  // handleScoreSaved

  /** The page's `scores` state. */
  class ScoreState {
    var scores: seq<Scores.Score>

    constructor(initial: seq<Scores.Score>)
      ensures scores == initial
    {
      scores := initial;
    }

    /** `handleScoreSaved`: replace the first score with the same benchmark, model and scorer, or
        append; the page keeps at most one score per key, as the route does. */
    method HandleScoreSaved(score: Scores.Score)
      modifies this
      ensures scores == Scores.Upsert(old(scores), score)
      ensures Scores.KeysUnique(old(scores)) ==> Scores.KeysUnique(scores)
      ensures score in scores
    {
      if Scores.KeysUnique(scores) {
        Scores.UpsertKeepsKeysUnique(scores, score);
      }
      Scores.UpsertShape(old(scores), score);
      var idx := Scores.FindKey(scores, Scores.KeyOf(score));
      if idx.Some? {
        scores := scores[idx.value := score];
      } else {
        scores := scores + [score];
      }
    }
  }
}
