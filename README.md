# eval-studio core, modelled in Dafny

eval-studio runs HTML/JS generation benchmarks against locally hosted or remote chat models. The
models are OpenAI-compatible endpoints, discovered from configured providers or listed by hand. The
tool extracts the code from each answer, stores manual scores and exports a showcase page. This
project models the logic at the core of that tool:

- **Code extraction.** The fenced-block extraction and the merge of several blocks into one HTML
  document (`code_extractor.dfy`).
- **Model registry.** API-key resolution, display names derived from model ids, the skip filter for
  non-chat models, discovery, the manual-over-discovered merge, the sort by name and the 30-second
  cache (`models.dfy`).
- **Benchmark runner.** Benchmark listing, the chat-completions request, the retry-once-on-network-error
  call, and running a benchmark (`benchmark_runner.dfy`).
- **Scores.** The `POST /api/scores` checks, defaults and replace-or-append upsert (`scores.dfy`).
- **Export.** The `GET /api/export-html` checks, the srcdoc escaping, the score colour bands and the
  column rule (`export_html.dfy`).
- **Page logic.** Selection toggling, model-name map, run guards, failure records, past-result loading
  and the page's own score update (`page.dfy`).
- **Past-results panel.** Which benchmarks it lists, the model-to-benchmarks inversion and the sort by
  display name (`past_results.dfy`).
- **Results route.** The `--` to `/` directory-name decoding (`results_route.dfy`).
- **Model management.** The `GET` state projection and the `POST` validation and dispatch
  (`model_management.dfy`).

Shared string machinery lives in `text.dfy`: the JavaScript whitespace set and `trim`, ASCII case
folding, `indexOf`, `split`/`join` and the dash-separated title case. The stable sort by a string key
lives in `sorting.dfy`.

Conventions:

- A string is a sequence of UTF-16 code units (`seq<char>`), as JavaScript lengths and indices count them.
- Regular expressions are written out as explicit scanners. For a fence these find the leftmost opener,
  the greedy `\s*\n` after the language tag, and a lazy body ending at the first following fence.
- Everything the code reads from outside becomes a parameter: the clock, the environment, directory
  listings, file contents, and the outcome of every HTTP request (`Discovery`, `Attempt`,
  `RunResponse`, the LM Studio model list).
- State the code updates in place is a class: the model cache (`Models.ModelRegistry`), the scores
  file (`Scores.ScoreStore`) and the page's score list (`Page.ScoreState`).
- Loops in the source become methods with loop invariants, each proved equal to a specification
  function. These are `CollectBlocks`, `FillBuckets`, `CallModel`, `BuildModelNames`, the two page
  run loops, `ByModel`/`AddBenchmark` and `ProjectStates`.

Three facts about `extractCode` that its contracts make explicit:

- It does no think-tag or answer-block filtering.
- An unclosed fence produces no capture.
- Among fences of one pattern, the first (leftmost) match wins.

## Model

| member | source | states |
|---|---|---|
| Text.Trim | src/lib/code-extractor.ts:28 | `trim` yields a slice of its input with no whitespace at either end and strips nothing else (with `TrimRemovesOnlySpace`) |
| Text.TrimRemovesOnlySpace | src/lib/code-extractor.ts:45 | the characters cut off on either side by `trim` are all JavaScript whitespace |
| Text.TrimIdempotent | src/lib/code-extractor.ts:45 | trimming twice is trimming once |
| Text.TrimOfTrimmed | src/lib/code-extractor.ts:51 | a string with no whitespace at either end is its own trim |
| Text.Lower | src/lib/code-extractor.ts:28 | lower-casing keeps the length and maps each character through the ASCII fold |
| Text.LowerOccursAt | src/lib/code-extractor.ts:30-32 | a needle occurs in the lower-cased text at `i` iff it matches the original there ignoring case |
| Text.ContainsMeaning | src/lib/code-extractor.ts:32 | `includes` holds iff the needle occurs at some position |
| Text.IndexOf | src/lib/code-extractor.ts:62 | `indexOf` gives the first position of the character, or none iff it does not occur |
| Text.LastIndexOf | src/lib/code-extractor.ts:63 | `lastIndexOf` gives the last position of the character, or none iff it does not occur |
| Text.SplitOn | src/app/api/export-html/route.ts:85 | `split` gives at least one piece and no piece holds the separator |
| Text.JoinSplitOn | src/app/api/export-html/route.ts:85-87 | joining the pieces of a split with the same separator gives back the input |
| Text.Capitalize | src/app/api/export-html/route.ts:86 | `charAt(0).toUpperCase() + slice(1)` keeps the length, upper-cases the first character and keeps the rest |
| Text.TitleFromIdIsCharwise | src/app/api/export-html/route.ts:84-87 | the split/capitalise/join title equals a character-wise definition: dashes become spaces and the character after each dash (and the first) is upper-cased |
| Text.TitleShape | src/lib/benchmark-runner.ts:22-26 | the title has the id's length, a space exactly where the id has a dash, and the same letters up to case elsewhere |
| CodeExtractor.Leftmost | src/lib/code-extractor.ts:12-20 | a pattern's match is at the leftmost position where it matches, and no match means none at any position |
| CodeExtractor.PatternCapture | src/lib/code-extractor.ts:49 | a pattern's capture never contains a fence and is a slice of the text |
| CodeExtractor.BodyHasNoFence | src/lib/code-extractor.ts:12 | the lazy body of a well-formed match stops before the first closing fence, so it holds none |
| CodeExtractor.NoClosingFenceNoCapture | src/lib/code-extractor.ts:12-20 | with at most one fence in the text no pattern matches |
| CodeExtractor.FenceHit | src/lib/code-extractor.ts:48-53 | a hit is a non-empty, fence-free slice of the text |
| CodeExtractor.FenceHitIsFirstNonEmpty | src/lib/code-extractor.ts:48-53 | the hit is the capture of pattern k iff k has a non-empty capture and every earlier pattern has none |
| CodeExtractor.FenceHitNone | src/lib/code-extractor.ts:48-53 | there is no hit iff no pattern has a non-empty capture |
| CodeExtractor.LooksLikeFullHtmlMeaning | src/lib/code-extractor.ts:27-34 | true iff the trimmed text starts with `<!doctype` or `<html`, or contains both `<head` and `<body`, all ignoring ASCII case |
| CodeExtractor.LooksLikeFullHtmlIgnoresCase | src/lib/code-extractor.ts:28 | lower-casing the input does not change the verdict |
| CodeExtractor.TagSpan | src/lib/code-extractor.ts:62-69 | the inline-HTML candidate, when accepted, is a trimmed slice of the text |
| CodeExtractor.ExtractCode | src/lib/code-extractor.ts:44-73 | the result is always a contiguous slice of the raw answer with no whitespace at either end |
| CodeExtractor.ExtractFromFence | src/lib/code-extractor.ts:48-52 | with a fence hit the result is the trimmed capture and holds no fence |
| CodeExtractor.HtmlFenceWins | src/lib/code-extractor.ts:10-12 | a non-empty `html` fence decides the result whatever other fences occur, even earlier ones |
| CodeExtractor.EmptyCaptureSkipped | src/lib/code-extractor.ts:50 | a pattern whose capture is empty is passed over for the next pattern |
| CodeExtractor.WholeDocumentPassthrough | src/lib/code-extractor.ts:55-58 | with no fence hit, a trimmed input that looks like a full document is returned unchanged |
| CodeExtractor.TagSliceFallback | src/lib/code-extractor.ts:60-72 | otherwise the result is the tag span when it is over 50 characters and looks like a document, else the trimmed input |
| CodeExtractor.ExtractCodeOfTrimmed | src/lib/code-extractor.ts:45 | extracting from the trimmed answer gives the same code |
| CodeExtractor.UnclosedFenceFallsBack | src/lib/code-extractor.ts:12-20 | a single, unclosed fence yields no fence hit |
| CodeExtractor.ExtractCodeIdempotentWithoutFences | src/lib/code-extractor.ts:44-73 | on fence-free text, extracting twice is extracting once |
| CodeExtractor.ExecBlock | src/lib/code-extractor.ts:81-85 | each `exec` step moves strictly forward and yields a trimmed, fence-free slice |
| CodeExtractor.AllBlocksShape | src/lib/code-extractor.ts:84-86 | every collected block is trimmed, fence-free and a slice of the answer |
| CodeExtractor.CollectBlocks | src/lib/code-extractor.ts:80-86 | the `while` loop collects exactly the blocks the global pattern finds, in order |
| CodeExtractor.FindFirst | src/lib/code-extractor.ts:92 | `find` gives the first element that satisfies the predicate (here the first block that looks like a full document), or none iff no element does |
| CodeExtractor.FillBuckets | src/lib/code-extractor.ts:96-120 | the `for` loop appends each block and a newline to the css, js or html bucket by its opening keyword |
| CodeExtractor.BucketsPartition | src/lib/code-extractor.ts:100-120 | every block lands in exactly one bucket: the three bucket lengths add up to all blocks plus newlines |
| CodeExtractor.BucketEmpty | src/lib/code-extractor.ts:108-118 | a bucket is empty iff no block is of its kind |
| CodeExtractor.DocumentSections | src/lib/code-extractor.ts:127-131 | the `<style>` and `<script>` sections appear iff some block is CSS, respectively JS |
| CodeExtractor.MergeBlocks | src/lib/code-extractor.ts:79-134 | no blocks: `extractCode`; one: that block; else the first full document; else the assembled page |
| ResultsRoute.UnsafeModelDir | src/app/api/results/route.ts:8-10 | the decoded name is no longer than the directory name and starts with a dash only if it did |
| ResultsRoute.UnsafeModelDirIdentity | src/app/api/results/route.ts:9 | a name without `--` is unchanged |
| ResultsRoute.UnsafeModelDirNoDoubleDash | src/app/api/results/route.ts:9 | the decoded name never contains `--` |
| ResultsRoute.UnsafeModelDirLength | src/app/api/results/route.ts:9 | the length drops by exactly the number of slashes the replacement added |
| ResultsRoute.DashRun | src/app/api/results/route.ts:9 | a run of k dashes becomes k/2 slashes followed by k mod 2 dashes, left to right |
| ExportHtml.EscapeIsCharwise | src/app/api/export-html/route.ts:102-109 | the four chained global replaces equal escaping each character on its own |
| ExportHtml.EscapedHasNoSpecials | src/app/api/export-html/route.ts:102-109 | the escaped text holds no `"`, `<` or `>` |
| ExportHtml.EscapedAmpersandsAreEntities | src/app/api/export-html/route.ts:105 | every `&` in the escaped text starts one of the four entities |
| ExportHtml.EscapeIdentity | src/app/api/export-html/route.ts:102-109 | text without `&`, `"`, `<` and `>` is unchanged |
| ExportHtml.UnescapeEscape | src/app/api/export-html/route.ts:102-109 | decoding the four entities gives back the original text, so no information is lost |
| ExportHtml.ScoreColor | src/app/api/export-html/route.ts:111-115 | the colour is one of green, yellow or red |
| ExportHtml.ScoreColorBands | src/app/api/export-html/route.ts:111-115 | green iff at least 7, yellow iff from 4 below 7, red iff below 4, and the colour never worsens as the score rises |
| ExportHtml.Cols | src/app/api/export-html/route.ts:128-129 | at most three columns, never more than cards, and at least one when there are cards |
| ExportHtml.ColsMonotone | src/app/api/export-html/route.ts:129 | more cards never mean fewer columns |
| ExportHtml.ExportGet | src/app/api/export-html/route.ts:5-97 | 400 iff the id is missing or empty, 404 iff the benchmark is missing, otherwise the showcase named by the title-cased id, with an attachment header iff `download` is `1` |
| Sorting.StrLeTotal | src/lib/models.ts:125 | the name order compares any two names |
| Sorting.StrLeTransitive | src/lib/models.ts:125 | the name order is transitive |
| Sorting.StrLeAntisymmetric | src/lib/models.ts:125 | two names each ordered before the other are equal |
| Sorting.InsertBySorted | src/lib/models.ts:125 | inserting an element after the elements whose keys do not exceed its own keeps a sorted list sorted |
| Sorting.SortBy | src/lib/models.ts:125 | the sort yields a list sorted by the key that is a permutation of its input |
| Models.StripTrailingSlash | src/lib/models.ts:61 | one trailing `/` is removed, and a URL without one is unchanged |
| Models.Authorization | src/lib/models.ts:65-67 | a bearer header is sent iff the key is non-empty and not `not-needed`, and it reads `Bearer <key>` |
| Models.ResolveApiKey | src/lib/models.ts:37-43 | `env:NAME` reads the variable, or gives "" when it is unset; any other value is returned as is |
| Models.StripOrgPrefix | src/lib/models.ts:47 | the result is the suffix after the last `/` of the first line, or the id itself when that line has none; the cut never reaches past the first line |
| Models.SplitRunsShape | src/lib/models.ts:48 | pieces hold no `-`/`_`, inner pieces are non-empty, and the first/last piece is empty iff the id starts/ends with a separator |
| Models.SplitRunsKeepsText | src/lib/models.ts:48 | concatenating the pieces gives the id with its separators removed |
| Models.SplitRunsSubset | src/lib/models.ts:48 | every character of a piece comes from the id |
| Models.ModelIdToNameShape | src/lib/models.ts:45-51 | a derived name never holds `-` or `_`, and holds no `/` when the id is one line |
| Models.AnyContainsFrom | src/lib/models.ts:54 | some pattern matches iff it occurs at some position |
| Models.ShouldSkipModelMeaning | src/lib/models.ts:19-25 | an id is skipped iff it contains `embed`, `rerank`, `whisper`, `tts` or `clip` ignoring ASCII case |
| Models.DiscoveryRequest | src/lib/models.ts:61-67 | discovery asks `<baseUrl without trailing slash>/models` with the header of the resolved key |
| Models.EntriesFor | src/lib/models.ts:76-86 | exactly the listed ids that are not skipped become entries carrying the provider's URL, key, type and name |
| Models.DiscoverModels | src/lib/models.ts:60-91 | an unreachable or failing provider contributes nothing; a listing contributes one entry per id kept by the skip filter |
| Models.DiscoverAll | src/lib/models.ts:106-108 | a model is in the flattened list iff some provider's discovery returns it |
| Models.DiscoverAllAppend | src/lib/models.ts:106-108 | `flat()` keeps provider order: the list for two runs of providers is the concatenation of their lists, and one provider gives exactly its own entries |
| Models.ResolveManual | src/lib/models.ts:111-115 | a manual model keeps every field but gets the provider `openai` by default and its key resolved |
| Models.ResolveAll | src/lib/models.ts:111-115 | every manual model is resolved, in order |
| Models.WithoutIds | src/lib/models.ts:118-121 | a discovered model is kept iff no manual model has its id |
| Models.MergeModelsMembership | src/lib/models.ts:117-122 | every manual model is kept, a discovered one is kept iff its id is not manual, and nothing else appears |
| Models.ManualWinsById | src/lib/models.ts:117-122 | for an id that a manual model has, only manual entries carry it in the merge |
| Models.LoadModelsSpec | src/lib/models.ts:103-125 | the loaded list is sorted by name, is a permutation of the merge, and contains every resolved manual model |
| Models.ResolveAllKeepsIds | src/lib/models.ts:111-118 | resolving the manual entries neither adds nor loses an id |
| Models.LoadModelsKeepsDiscovered | src/lib/models.ts:103-125 | a model any provider discovers is in the loaded list unless a manual entry has its id |
| Models.FindById | src/lib/models.ts:134 | the found model has the id, and there is none iff no model has it |
| Models.FindByIdFirst | src/lib/models.ts:134 | `find` returns the first model with the id |
| Models.ModelRegistry.GetModels | src/lib/models.ts:97-130 | a cache younger than 30 s is returned untouched; otherwise the list is reloaded, cached and stamped with `now` |
| Models.ModelRegistry.GetModelById | src/lib/models.ts:132-135 | the lookup goes through the cache rule of `getModels` |
| Models.ModelRegistry.ReloadModels | src/lib/models.ts:138-141 | the cache is emptied and is then stale at every time |
| Models.CacheScenario | src/lib/models.ts:97-141 | two reads within 30 s see the same list, and a read after `reloadModels` reloads |
| BenchmarkRunner.ListFrom | src/lib/benchmark-runner.ts:14-30 | exactly the directories with a non-empty prompt are listed, each with its title-cased name |
| BenchmarkRunner.ListBenchmarksSpec | src/lib/benchmark-runner.ts:9-31 | no benchmarks directory lists nothing; otherwise the directories with a non-empty prompt |
| BenchmarkRunner.EndpointUrl | src/lib/benchmark-runner.ts:42 | the URL is the base URL without one trailing slash, followed by `/chat/completions` |
| BenchmarkRunner.EndpointUrlSlash | src/lib/benchmark-runner.ts:42 | the two cases of the trailing slash spelt out |
| BenchmarkRunner.RequestFor | src/lib/benchmark-runner.ts:44-67 | the request names the model's default model and carries the fixed system message, the prompt, temperature 0.3 and 16384 max tokens; `Authorization` is `Bearer <key>` exactly when the key is non-empty and not `not-needed` |
| BenchmarkRunner.NatToStringValue | src/lib/benchmark-runner.ts:86 | the decimal rendering of the status reads back as the status |
| BenchmarkRunner.ApiErrorMessagePrefix | src/lib/benchmark-runner.ts:85-87 | a non-OK answer's message starts with `API error <status>` |
| BenchmarkRunner.ContentOf | src/lib/benchmark-runner.ts:91-92 | the message content, else the completion text, else "" |
| BenchmarkRunner.CallModel | src/lib/benchmark-runner.ts:71-107 | the loop's result equals the call specification, with its attempt count; it waits once iff the first attempt failed with a retryable error, and every attempt sends the same request for the prompt |
| BenchmarkRunner.AttemptBounds | src/lib/benchmark-runner.ts:73 | one or two attempts, two iff the first failure is retryable |
| BenchmarkRunner.ApiErrorNotRetried | src/lib/benchmark-runner.ts:83-99 | a non-OK status fails at once with the `API error` message |
| BenchmarkRunner.NetworkFailureRetried | src/lib/benchmark-runner.ts:96-107 | a network failure is retried once; the second attempt's answer or error is the outcome |
| BenchmarkRunner.CallSucceedsIffAnswered | src/lib/benchmark-runner.ts:71-107 | the call succeeds iff the first attempt, or the second after a retryable failure, is answered |
| BenchmarkRunner.RunBenchmark | src/lib/benchmark-runner.ts:113-129 | a failed call is an error with its message; a successful one returns the content and its extracted code, a trimmed slice of it; every request sent carries the benchmark's prompt |
| Scores.FindKey | src/app/api/scores/route.ts:42-47 | `findIndex` gives the first entry with the same benchmark, model and scorer, or none iff there is none |
| Scores.UpsertReplaces | src/app/api/scores/route.ts:58-59 | with a match, that entry is replaced and every other entry is unchanged |
| Scores.UpsertAppends | src/app/api/scores/route.ts:60-62 | without a match, the score is appended |
| Scores.UpsertShape | src/app/api/scores/route.ts:42-62 | the list grows by at most one, holds the new score, and keeps every entry with another key |
| Scores.UpsertKeepsKeysUnique | src/app/api/scores/route.ts:42-62 | an upsert keeps one entry per key, and the entry with the new key is the new score |
| Scores.OrDefault | src/app/api/scores/route.ts:53-54 | a missing or empty field falls back to the default |
| Scores.NewScore | src/app/api/scores/route.ts:49-56 | the stored score takes the request's ids and scores, scorer `manual` and empty notes by default, and the time `now` |
| Scores.ScoreStore.Post | src/app/api/scores/route.ts:27-72 | unreadable body: 500 with the thrown error's message (`Unknown error` for a non-`Error`) and nothing saved; missing id or scores: 400 and nothing saved; otherwise the upsert is saved and the score returned |
| Scores.PostKeepsKeysUnique | src/app/api/scores/route.ts:42-62 | saving through the route keeps one score per key and stores the new score |
| Page.Remove | src/app/page.tsx:62 | deleting removes exactly that id and keeps the set free of duplicates |
| Page.ToggleModelMembership | src/app/page.tsx:59-66 | the id is selected afterwards iff it was not before, and no other id changes |
| Page.ToggleModelTwice | src/app/page.tsx:59-66 | toggling twice restores the selection, and restores its order when the id was absent |
| Page.RemoveLast | src/app/page.tsx:62-63 | deleting the id just added gives back the previous selection |
| Page.BuildModelNames | src/app/page.tsx:54-57 | the loop builds the id-to-name map of the specification |
| Page.NamesOfLastWins | src/app/page.tsx:54-57 | the map has exactly the ids of the models, each with the name of the last model with that id |
| Page.FailureRecord | src/app/page.tsx:110-122 | a failed request records an unsuccessful result with the display name, empty outputs, zero duration and the error or `Network error` |
| Page.RunBenchmark | src/app/page.tsx:85-124 | nothing runs without a benchmark and a model; otherwise the results are the per-model responses' results or failure records, in order |
| Page.RunAllBenchmarks | src/app/page.tsx:135-211 | runs iff exactly one model is selected, collects per-benchmark results, and leaves the last benchmark selected; when `canRunAll` shows the button the run goes through to the last benchmark, and otherwise nothing is collected |
| Page.AllBenchmarksFailed | src/app/page.tsx:164-177 | when every request of a run-all throws, there is exactly one failure record per benchmark, in list order, for the selected model |
| Page.AllFailedRecords | src/app/page.tsx:110-122 | when every request throws, there is exactly one failure record per model, in order |
| Page.CollectedRecordsOrigin | src/app/page.tsx:106-122 | every collected record is either a result some response returned or a failure record for a selected model |
| Page.LoadPastResult | src/app/page.tsx:190-205 | selects the benchmark and the runner tab, and shows one successful record per model, in order, with empty response and code, pointing at that model's stored result page |
| Page.ResultPathShape | src/app/page.tsx:190-205 | the path is `/results/<benchmark>/<model>/index.html` |
| Page.ScoreState.HandleScoreSaved | src/app/page.tsx:68-83 | the page's scores become the upsert of the saved score, which keeps one score per key and contains the new score |
| PastResults.KeptEntries | src/components/PastResults.tsx:20-22 | exactly the benchmarks with at least one model are kept |
| PastResults.RendersNothingIff | src/components/PastResults.tsx:24 | the panel renders nothing iff no benchmark has a model |
| PastResults.ByModel | src/components/PastResults.tsx:26-33 | the nested loop builds the grouping and key order of the specification |
| PastResults.AddBenchmark | src/components/PastResults.tsx:29-32 | the inner loop adds the pairs of one benchmark to the grouping |
| PastResults.GroupIsSelect | src/components/PastResults.tsx:27-33 | each model's list holds the benchmarks it was listed under, in visiting order, and is never empty |
| PastResults.InversionMembership | src/components/PastResults.tsx:20-33 | benchmark b is in the list of model m iff m is among the models of b |
| PastResults.OrderIsKeys | src/components/PastResults.tsx:30 | the key order holds each model of the grouping exactly once |
| PastResults.InversionPreservesPairs | src/components/PastResults.tsx:27-33 | the list lengths add up to the number of (benchmark, model) pairs listed |
| PastResults.ModelEntries | src/components/PastResults.tsx:34-36 | the model entries are sorted by display name, the name or, if missing or empty, the id |
| PastResults.ModelEntriesContents | src/components/PastResults.tsx:34-36 | the sorted entries are exactly the models of the grouping with their lists |
| ModelManagement.RoundToMb | src/app/api/model-management/route.ts:42 | `Math.round` of bytes over 2^20: the nearest whole number, halves rounding up |
| ModelManagement.StateOf | src/app/api/model-management/route.ts:35-43 | loaded iff there are instances, the instance id is the first when loaded, quantization defaults to "" |
| ModelManagement.ProjectStates | src/app/api/model-management/route.ts:34-44 | the loop builds the record of the specification |
| ModelManagement.StatesKeys | src/app/api/model-management/route.ts:36 | the record has a key iff some model has it |
| ModelManagement.StatesLastWins | src/app/api/model-management/route.ts:36 | each key holds the state of the last model with that key |
| ModelManagement.LaterKeyOverwrites | src/app/api/model-management/route.ts:36 | a later model overwrites its key and leaves every other key alone |
| ModelManagement.Get | src/app/api/model-management/route.ts:10-47 | 400 iff the base URL is missing or empty, otherwise the projected record |
| ModelManagement.Post | src/app/api/model-management/route.ts:50-96 | unreadable body: 500 with the thrown error's message (`Unknown error` for a non-`Error`); base URL checked first; `load`/`unload` need a model id; `unload-all`; anything else is `Unknown action: <action>` |
| ModelManagement.PostErrorMessages | src/app/api/model-management/route.ts:54-88 | each 400 carries the message of the first check the request fails |

## Left out

- I/O is not modelled: file reads and writes, directory scans and `JSON.parse` of files. Their results are parameters, and a scores file that cannot be read is the empty list, as the route's fallback makes it.
- The network is not modelled: `fetch`, `AbortSignal.timeout` and the 2-second sleep between attempts. Each request's outcome is an input, and the sleep is counted as a wait.
- `Date.now` and `process.env` are parameters.
- The React rendering, hooks, JSX and streaming plumbing are not modelled. These include the server-sent events and heartbeat of the run route.
- The card ordering of the export page is not modelled, because it averages floating-point scores. The same goes for every other average and percentage.
- Scores and colour thresholds use `real` in place of IEEE doubles.
- `localeCompare` is replaced by code-unit lexicographic order.
- Sorting.SortBy: proves a sorted permutation, not the stability of `Array.prototype.sort`. The sort is computed on values rather than in place.
- Text.UpperChar: folds only ASCII letters. `toUpperCase` also maps non-ASCII letters, and some of them to several characters.
- Text.LowerChar: folds only ASCII letters. This matches the non-Unicode `/i` flag of the fence and skip patterns, but not `toLowerCase` on non-ASCII text.
- JavaScript objects used as dictionaries (`byModel`, `states`, `modelNames`) are Dafny maps. Keys inherited from `Object.prototype` are not modelled; a model id such as `constructor` would make the panel's `byModel[modelId].push` fail. The order of integer-like keys that `Object.entries` puts first is not modelled either; it only affects ties in the display-name sort.
- ModelManagement.Post: models the choice of LM Studio call, not its result. `lmstudio.ts` (the HTTP client, `new URL` parsing, and the unordered pushes of `unloadAllModels`) is not part of this model, so the 500 that an unparsable base URL would cause there is not captured.
- ModelManagement.Get: the 500 from an unparsable base URL is not captured either.
- Request bodies are typed records. A field of the wrong JSON type (say, a numeric `action`) is not modelled, and a missing `action` is rendered as `undefined`.
- `safeModelDir` is not part of this model. Its definition is not in the repository's `src/lib/types.ts`, so no encode/decode round trip with `UnsafeModelDir` is stated.
- `src/app/api/models/route.ts` is a thin wrapper over `getModels` and is not modelled.
- The JavaScript module-level cache variables are fields of one `ModelRegistry` object. Concurrent requests interleaving on the cache are not modelled.
