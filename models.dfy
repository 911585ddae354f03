/**
 * The model registry: API-key resolution, id prettifying and the skip filter, discovery of a
 * provider's models (the HTTP response given as an outcome), the manual-over-discovered merge,
 * the sort by name and the 30-second cache.
 */
module Models {
  import opened Wrappers
  import opened Text
  import opened Sorting

  datatype ProviderType = OpenAI | Anthropic

  datatype ModelConfig = ModelConfig(
    id: string,
    name: string,
    baseUrl: string,
    apiKey: string,
    defaultModel: string,
    provider: Option<ProviderType>,
    source: Option<string>)

  datatype ProviderConfig = ProviderConfig(
    id: string,
    name: string,
    baseUrl: string,
    apiKey: string,
    kind: ProviderType)

  /** `config/models.json`; `models` may be absent. */
  datatype ModelsConfig = ModelsConfig(providers: seq<ProviderConfig>, models: Option<seq<ModelConfig>>)

  /** The process environment. */
  type Env = map<string, string>

  // ---------------------------------------------------------------------------------------------
  // HTTP helpers shared with the benchmark runner

  /** `url.replace(/\/$/, "")`: at most one trailing slash removed. */
  function StripTrailingSlash(url: string): (r: string)
    ensures url != [] && url[|url| - 1] == '/' ==> url == r + "/"
    ensures (url == [] || url[|url| - 1] != '/') ==> r == url
  {
    if url != [] && url[|url| - 1] == '/' then url[..|url| - 1] else url
  }

  /** `apiKey && apiKey !== "not-needed"`: when the Authorization header is sent. */
  predicate SendsBearer(apiKey: string) {
    apiKey != "" && apiKey != "not-needed"
  }

  /** The Authorization header, if one is sent. */
  function Authorization(apiKey: string): (h: Option<string>)
    ensures h.Some? <==> apiKey != "" && apiKey != "not-needed"
    ensures h.Some? ==> h.value == "Bearer " + apiKey
  {
    if SendsBearer(apiKey) then Some("Bearer " + apiKey) else None
  }

  // ---------------------------------------------------------------------------------------------
  // resolveApiKey

  /** An `env:NAME` key is read from the environment (empty when unset); any other key is literal. */
  function ResolveApiKey(env: Env, value: string): (r: string)
    ensures StartsWith(value, "env:") && value[4..] in env ==> r == env[value[4..]]
    ensures StartsWith(value, "env:") && value[4..] !in env ==> r == ""
    ensures !StartsWith(value, "env:") ==> r == value
  {
    if StartsWith(value, "env:") then
      var name := value[4..];
      if name in env then env[name] else ""
    else value
  }

  // ---------------------------------------------------------------------------------------------
  // modelIdToName

  /** End of the first line: the first line terminator, or the length. */
  function LineEnd(s: string, i: nat): (k: nat)
    requires i <= |s|
    ensures i <= k <= |s|
    ensures forall m :: i <= m < k ==> !IsLineTerminator(s[m])
    ensures k < |s| ==> IsLineTerminator(s[k])
    decreases |s| - i
  {
    if i == |s| || IsLineTerminator(s[i]) then i else LineEnd(s, i + 1)
  }

  /** `replace(/^.*\//, "")`: drops everything through the last `/` of the first line (`.` stops at
      a line terminator); the string is unchanged when its first line has no `/`. */
  function StripOrgPrefix(id: string): (r: string)
    ensures |r| <= |id| && r == id[|id| - |r|..]
    ensures |id| - |r| <= LineEnd(id, 0)
    ensures forall m :: 0 <= m < LineEnd(id, 0) && m >= |id| - |r| ==> id[m] != '/'
    ensures r != id ==> id[|id| - |r| - 1] == '/'
  {
    var k := LineEnd(id, 0);
    match LastIndexOf(id[..k], '/')
    case None => id
    case Some(j) => id[j + 1..]
  }

  predicate IsNameSep(c: char) {
    c == '-' || c == '_'
  }

  /** First separator at or after `i`, or the length. */
  function NextSep(s: string, i: nat): (k: nat)
    requires i <= |s|
    ensures i <= k <= |s|
    ensures forall m :: i <= m < k ==> !IsNameSep(s[m])
    ensures k < |s| ==> IsNameSep(s[k])
    decreases |s| - i
  {
    if i == |s| || IsNameSep(s[i]) then i else NextSep(s, i + 1)
  }

  /** End of the separator run starting at `i`. */
  function SkipSeps(s: string, i: nat): (k: nat)
    requires i <= |s|
    ensures i <= k <= |s|
    ensures forall m :: i <= m < k ==> IsNameSep(s[m])
    ensures k < |s| ==> !IsNameSep(s[k])
    decreases |s| - i
  {
    if i < |s| && IsNameSep(s[i]) then SkipSeps(s, i + 1) else i
  }

  function Concat(ws: seq<string>): string {
    if ws == [] then [] else ws[0] + Concat(ws[1..])
  }

  /** The characters of `s` that are not separators. */
  function DropSeps(s: string): string {
    if s == [] then [] else (if IsNameSep(s[0]) then [] else [s[0]]) + DropSeps(s[1..])
  }

  /** The end of the first piece of `s` and the start of the rest: the first separator run. */
  function FirstRun(s: string): (r: (nat, nat))
    ensures r.0 <= r.1 <= |s|
    ensures forall m :: 0 <= m < r.0 ==> !IsNameSep(s[m])
    ensures r.0 == |s| ==> r.1 == |s|
    ensures r.0 < |s| ==> r.0 < r.1 && forall m :: r.0 <= m < r.1 ==> IsNameSep(s[m])
    ensures r.1 < |s| ==> !IsNameSep(s[r.1])
  {
    var i := NextSep(s, 0);
    if i == |s| then (i, i) else (i, SkipSeps(s, i))
  }

  /** `split(/[-_]+/)`: the pieces between maximal separator runs. */
  function SplitRuns(s: string): (ws: seq<string>)
    ensures |ws| >= 1
    decreases |s|
  {
    var (i, j) := FirstRun(s);
    if i == |s| then [s] else [s[..i]] + SplitRuns(s[j..])
  }

  /** No piece holds a separator; only the first and the last piece may be empty, and they are
      exactly when the string starts or ends with a separator. */
  lemma SplitRunsShape(s: string)
    ensures var ws := SplitRuns(s);
      && (forall k :: 0 <= k < |ws| ==> forall m :: 0 <= m < |ws[k]| ==> !IsNameSep(ws[k][m]))
      && (forall k :: 0 < k < |ws| - 1 ==> ws[k] != [])
      && (ws[0] == [] <==> s == [] || IsNameSep(s[0]))
      && (|ws| > 1 ==> |s| > 0 && (ws[|ws| - 1] == [] <==> IsNameSep(s[|s| - 1])))
      && (|ws| == 1 ==> ws[0] == s)
  {
    SplitRunsNoSeps(s);
    SplitRunsFirst(s);
    SplitRunsLast(s);
    SplitRunsInner(s);
  }

  /** Peeling off the first piece and the separator run after it. */
  lemma SplitRunsCons(s: string)
    requires FirstRun(s).0 < |s|
    ensures SplitRuns(s) == [s[..FirstRun(s).0]] + SplitRuns(s[FirstRun(s).1..])
  {
  }

  lemma {:induction false} SplitRunsNoSeps(s: string)
    ensures forall k :: 0 <= k < |SplitRuns(s)| ==> forall m :: 0 <= m < |SplitRuns(s)[k]| ==> !IsNameSep(SplitRuns(s)[k][m])
    decreases |s|
  {
    var i, j := FirstRun(s).0, FirstRun(s).1;
    if i < |s| {
      var rest := SplitRuns(s[j..]);
      SplitRunsNoSeps(s[j..]);
      SplitRunsCons(s);
      forall k | 1 <= k < |SplitRuns(s)| ensures SplitRuns(s)[k] == rest[k - 1] {
        ConsAt(s[..i], rest, k);
      }
    }
  }

  lemma ConsAt<T>(x: T, xs: seq<T>, k: nat)
    requires 1 <= k <= |xs|
    ensures ([x] + xs)[k] == xs[k - 1]
  {
  }

  /** The first piece is empty exactly when the string is empty or starts with a separator, and
      a string without separators is its own only piece. */
  lemma SplitRunsFirst(s: string)
    ensures SplitRuns(s)[0] == [] <==> s == [] || IsNameSep(s[0])
    ensures |SplitRuns(s)| == 1 ==> SplitRuns(s)[0] == s
  {
    var i := FirstRun(s).0;
    if i < |s| {
      SplitRunsCons(s);
    }
  }

  /** With two or more pieces, the last is empty exactly when the string ends with a separator. */
  lemma {:induction false} SplitRunsLast(s: string)
    ensures |SplitRuns(s)| > 1 ==> |s| > 0 && (SplitRuns(s)[|SplitRuns(s)| - 1] == [] <==> IsNameSep(s[|s| - 1]))
    decreases |s|
  {
    var i, j := FirstRun(s).0, FirstRun(s).1;
    if i < |s| {
      var t := s[j..];
      SplitRunsCons(s);
      SplitRunsLast(t);
      SplitRunsFirst(t);
      ConsAt(s[..i], SplitRuns(t), |SplitRuns(t)|);
      if j < |s| {
        assert t[|t| - 1] == s[|s| - 1];
      } else {
        assert IsNameSep(s[|s| - 1]);
      }
    }
  }

  /** Only the first and the last piece may be empty. */
  lemma {:induction false} SplitRunsInner(s: string)
    ensures forall k :: 0 < k < |SplitRuns(s)| - 1 ==> SplitRuns(s)[k] != []
    decreases |s|
  {
    var i, j := FirstRun(s).0, FirstRun(s).1;
    if i < |s| {
      var t := s[j..];
      var rest := SplitRuns(t);
      SplitRunsCons(s);
      SplitRunsInner(t);
      SplitRunsFirst(t);
      forall k | 0 < k < |SplitRuns(s)| - 1 ensures SplitRuns(s)[k] != [] {
        ConsAt(s[..i], rest, k);
        if k == 1 {
          assert t != [] && t[0] == s[j];
        }
      }
    }
  }

  lemma ConcatCons(w: string, ws: seq<string>)
    ensures Concat([w] + ws) == w + Concat(ws)
  {
    assert ([w] + ws)[1..] == ws;
  }

  lemma DropSepsThree(a: string, b: string, c: string)
    requires forall m :: 0 <= m < |a| ==> !IsNameSep(a[m])
    requires forall m :: 0 <= m < |b| ==> IsNameSep(b[m])
    ensures DropSeps(a + b + c) == a + DropSeps(c)
  {
    DropSepsNone(a);
    DropSepsAllSeps(b);
    DropSepsAppend(a + b, c);
    DropSepsAppend(a, b);
  }

  /** The pieces hold all the non-separator characters, in order. */
  lemma {:induction false} SplitRunsKeepsText(s: string)
    ensures Concat(SplitRuns(s)) == DropSeps(s)
    decreases |s|
  {
    var (i, j) := FirstRun(s);
    if i == |s| {
      DropSepsNone(s);
      ConcatCons(s, []);
    } else {
      SplitRunsKeepsText(s[j..]);
      SplitRunsCons(s);
      ConcatCons(s[..i], SplitRuns(s[j..]));
      FirstRunDrop(s);
    }
  }

  /** Dropping separators keeps the first piece, loses the run after it, and goes on. */
  lemma FirstRunDrop(s: string)
    requires FirstRun(s).0 < |s|
    ensures DropSeps(s) == s[..FirstRun(s).0] + DropSeps(s[FirstRun(s).1..])
  {
    DropSepsRun(s, FirstRun(s).0, FirstRun(s).1);
  }

  lemma DropSepsRun(s: string, i: nat, j: nat)
    requires i <= j <= |s|
    requires forall m :: 0 <= m < i ==> !IsNameSep(s[m])
    requires forall m :: i <= m < j ==> IsNameSep(s[m])
    ensures DropSeps(s) == s[..i] + DropSeps(s[j..])
  {
    var a, b, c := s[..i], s[i..j], s[j..];
    forall m | 0 <= m < |a| ensures !IsNameSep(a[m]) {
      assert a[m] == s[m];
    }
    forall m | 0 <= m < |b| ensures IsNameSep(b[m]) {
      assert b[m] == s[i + m];
    }
    SplitThree(s, i, j);
    DropSepsThree(a, b, c);
  }

  lemma SplitThree(s: string, i: nat, j: nat)
    requires i <= j <= |s|
    ensures s == s[..i] + s[i..j] + s[j..]
  {
  }

  lemma {:induction false} DropSepsAppend(a: string, b: string)
    ensures DropSeps(a + b) == DropSeps(a) + DropSeps(b)
    decreases |a|
  {
    if a == [] {
      assert a + b == b;
    } else {
      DropSepsAppend(a[1..], b);
      assert (a + b)[1..] == a[1..] + b;
    }
  }

  lemma {:induction false} DropSepsNone(s: string)
    requires forall m :: 0 <= m < |s| ==> !IsNameSep(s[m])
    ensures DropSeps(s) == s
    decreases |s|
  {
    if s != [] {
      DropSepsNone(s[1..]);
      assert s == [s[0]] + s[1..];
    }
  }

  lemma {:induction false} DropSepsAllSeps(s: string)
    requires forall m :: 0 <= m < |s| ==> IsNameSep(s[m])
    ensures DropSeps(s) == []
    decreases |s|
  {
    if s != [] {
      DropSepsAllSeps(s[1..]);
    }
  }

  /** `modelIdToName`: the id without its organisation prefix, split on separator runs, each piece
      capitalised, joined with single spaces. */
  function ModelIdToName(id: string): string {
    Join(MapCapitalize(SplitRuns(StripOrgPrefix(id))), " ")
  }

  lemma {:induction false} JoinWithout(ws: seq<string>, sep: string, c: char)
    requires c !in sep
    requires forall w :: w in ws ==> c !in w
    ensures c !in Join(ws, sep)
    decreases |ws|
  {
    if |ws| > 1 {
      JoinWithout(ws[1..], sep, c);
    }
  }

  lemma CapitalizeWithout(w: string, c: char)
    requires c !in w && !('A' <= c <= 'Z')
    ensures c !in Capitalize(w)
  {
    if w != [] {
      assert Capitalize(w)[0] == UpperChar(w[0]);
      forall k | 0 < k < |w| ensures Capitalize(w)[k] != c {
        assert w[k] in w;
      }
    }
  }

  /** Capitalising pieces that lack a non-letter `c` and joining them with spaces gives no `c`. */
  lemma JoinCapitalizedWithout(ws: seq<string>, c: char)
    requires c != ' ' && !('A' <= c <= 'Z')
    requires forall k :: 0 <= k < |ws| ==> c !in ws[k]
    ensures c !in Join(MapCapitalize(ws), " ")
  {
    var cs := MapCapitalize(ws);
    forall w | w in cs ensures c !in w {
      var k :| 0 <= k < |cs| && cs[k] == w;
      CapitalizeWithout(ws[k], c);
    }
    JoinWithout(cs, " ", c);
  }

  lemma PiecesWithoutSeps(s: string, c: char)
    requires IsNameSep(c)
    ensures forall k :: 0 <= k < |SplitRuns(s)| ==> c !in SplitRuns(s)[k]
  {
    SplitRunsShape(s);
  }

  lemma PiecesWithout(s: string, c: char)
    requires c !in s
    ensures forall k :: 0 <= k < |SplitRuns(s)| ==> c !in SplitRuns(s)[k]
  {
    var ws := SplitRuns(s);
    forall k | 0 <= k < |ws| ensures c !in ws[k] {
      SplitRunsSubset(s, k);
    }
  }

  lemma StripOrgPrefixSingleLine(id: string)
    requires LineEnd(id, 0) == |id|
    ensures '/' !in StripOrgPrefix(id)
  {
    var stripped := StripOrgPrefix(id);
    forall m | 0 <= m < |stripped| ensures stripped[m] != '/' {
      SuffixAt(id, stripped, m);
    }
  }

  lemma SuffixAt(s: string, r: string, m: nat)
    requires |r| <= |s| && r == s[|s| - |r|..] && m < |r|
    ensures r[m] == s[|s| - |r| + m]
  {
  }

  /** A display name holds no `-` or `_`, and no `/` when the id is a single line. */
  lemma ModelIdToNameShape(id: string)
    ensures '-' !in ModelIdToName(id) && '_' !in ModelIdToName(id)
    ensures LineEnd(id, 0) == |id| ==> '/' !in ModelIdToName(id)
  {
    var stripped := StripOrgPrefix(id);
    PiecesWithoutSeps(stripped, '-');
    JoinCapitalizedWithout(SplitRuns(stripped), '-');
    PiecesWithoutSeps(stripped, '_');
    JoinCapitalizedWithout(SplitRuns(stripped), '_');
    if LineEnd(id, 0) == |id| {
      StripOrgPrefixSingleLine(id);
      PiecesWithout(stripped, '/');
      JoinCapitalizedWithout(SplitRuns(stripped), '/');
    }
  }

  /** Every character of a piece comes from the string. */
  lemma {:induction false} SplitRunsSubset(s: string, k: nat)
    requires k < |SplitRuns(s)|
    ensures forall x :: x in SplitRuns(s)[k] ==> x in s
    decreases |s|
  {
    var (i, j) := FirstRun(s);
    if i < |s| {
      var t := s[j..];
      assert SplitRuns(s) == [s[..i]] + SplitRuns(t);
      if k > 0 {
        SplitRunsSubset(t, k - 1);
        forall x | x in t ensures x in s {
          var n :| 0 <= n < |t| && t[n] == x;
          assert s[j + n] == x;
        }
      } else {
        forall x | x in s[..i] ensures x in s {
          var n :| 0 <= n < i && s[..i][n] == x;
          assert s[n] == x;
        }
      }
    }
  }

  // ---------------------------------------------------------------------------------------------
  // shouldSkipModel

  /** The `/embed/i`, `/rerank/i`, `/whisper/i`, `/tts/i`, `/clip/i` patterns of non-chat models. */
  const SkipPatterns: seq<string> := ["embed", "rerank", "whisper", "tts", "clip"]

  function AnyContainsFrom(lower: string, pats: seq<string>): (b: bool)
    ensures b <==> exists p, i :: p in pats && 0 <= i <= |lower| && OccursAt(lower, i, p)
  {
    if pats == [] then false
    else
      ContainsMeaning(lower, pats[0]);
      if Contains(lower, pats[0]) then true
    else AnyContainsFrom(lower, pats[1..])
  }

  /** `SKIP_PATTERNS.some((p) => p.test(id))`. */
  function ShouldSkipModel(id: string): bool {
    AnyContainsFrom(Lower(id), SkipPatterns)
  }

  /** An id is skipped exactly when one of the five words occurs in it, ignoring ASCII case. */
  lemma ShouldSkipModelMeaning(id: string)
    ensures ShouldSkipModel(id) <==> exists p, i :: p in SkipPatterns && 0 <= i <= |id| && MatchesAtCI(id, i, p)
  {
    if ShouldSkipModel(id) {
      var p, i :| p in SkipPatterns && 0 <= i <= |Lower(id)| && OccursAt(Lower(id), i, p);
      LowerOccursAt(id, i, p);
    }
    if exists p, i :: p in SkipPatterns && 0 <= i <= |id| && MatchesAtCI(id, i, p) {
      var p, i :| p in SkipPatterns && 0 <= i <= |id| && MatchesAtCI(id, i, p);
      LowerOccursAt(id, i, p);
    }
  }

  // ---------------------------------------------------------------------------------------------
  // discoverModels

  /** What the `GET <baseUrl>/models` request gave: no answer (or a thrown parse), a non-2xx
      status, or the ids listed under `data` (none when `data` is absent). */
  datatype Discovery = Unreachable | NotOk | Listed(ids: seq<string>)

  /** The listing request: its URL and Authorization header. */
  function DiscoveryRequest(provider: ProviderConfig, env: Env): (req: (string, Option<string>))
    ensures req.0 == StripTrailingSlash(provider.baseUrl) + "/models"
    ensures req.1 == Authorization(ResolveApiKey(env, provider.apiKey))
  {
    (StripTrailingSlash(provider.baseUrl) + "/models", Authorization(ResolveApiKey(env, provider.apiKey)))
  }

  /** The entry built for a discovered id. */
  function DiscoveredEntry(provider: ProviderConfig, apiKey: string, id: string): ModelConfig {
    ModelConfig(id, ModelIdToName(id), provider.baseUrl, apiKey, id, Some(provider.kind), Some(provider.name))
  }

  function EntriesFor(provider: ProviderConfig, apiKey: string, ids: seq<string>): (r: seq<ModelConfig>)
    ensures forall m :: m in r ==> m.id in ids && !ShouldSkipModel(m.id) && m == DiscoveredEntry(provider, apiKey, m.id)
    ensures forall id :: id in ids && !ShouldSkipModel(id) ==> DiscoveredEntry(provider, apiKey, id) in r
  {
    if ids == [] then []
    else
      var rest := EntriesFor(provider, apiKey, ids[1..]);
      assert forall id :: id in ids[1..] ==> id in ids;
      if ShouldSkipModel(ids[0]) then rest else [DiscoveredEntry(provider, apiKey, ids[0])] + rest
  }

  /** `discoverModels`: the listed ids that are not skipped, each as an entry of the provider;
      nothing when the provider is unreachable or answers with an error. */
  function DiscoverModels(provider: ProviderConfig, env: Env, outcome: Discovery): (r: seq<ModelConfig>)
    ensures !outcome.Listed? ==> r == []
    ensures outcome.Listed? ==> forall m :: m in r ==>
      m.id in outcome.ids && !ShouldSkipModel(m.id) && m.defaultModel == m.id && m.name == ModelIdToName(m.id) &&
      m.baseUrl == provider.baseUrl && m.apiKey == ResolveApiKey(env, provider.apiKey) &&
      m.provider == Some(provider.kind) && m.source == Some(provider.name)
    ensures outcome.Listed? ==> forall id :: id in outcome.ids && !ShouldSkipModel(id) ==>
      exists m :: m in r && m.id == id
  {
    match outcome
    case Listed(ids) =>
      var r := EntriesFor(provider, ResolveApiKey(env, provider.apiKey), ids);
      assert forall id :: id in ids && !ShouldSkipModel(id) ==>
        DiscoveredEntry(provider, ResolveApiKey(env, provider.apiKey), id) in r;
      r
    case _ => []
  }

  /** `xs.map(f).flat()` for a function of paired arguments: each pair's list, in order. */
  function FlatMap<A, B, C(!new)>(xs: seq<A>, ys: seq<B>, f: (A, B) -> seq<C>): (r: seq<C>)
    requires |ys| == |xs|
    ensures forall c :: c in r <==> exists k :: 0 <= k < |xs| && c in f(xs[k], ys[k])
  {
    if xs == [] then []
    else
      var rest := FlatMap(xs[1..], ys[1..], f);
      assert forall c :: c in rest ==> exists k :: 0 <= k < |xs| && c in f(xs[k], ys[k]) by {
        forall c | c in rest ensures exists k :: 0 <= k < |xs| && c in f(xs[k], ys[k]) {
          var k :| 0 <= k < |xs[1..]| && c in f(xs[1..][k], ys[1..][k]);
          assert xs[k + 1] == xs[1..][k] && ys[k + 1] == ys[1..][k];
        }
      }
      assert forall k, c :: 1 <= k < |xs| && c in f(xs[k], ys[k]) ==> c in rest by {
        forall k, c | 1 <= k < |xs| && c in f(xs[k], ys[k]) ensures c in rest {
          assert xs[1..][k - 1] == xs[k] && ys[1..][k - 1] == ys[k];
        }
      }
      f(xs[0], ys[0]) + rest
  }

  /** Flattening two runs of pairs one after the other is flattening each and concatenating. */
  lemma {:induction false} FlatMapAppend<A, B, C(!new)>(x1: seq<A>, y1: seq<B>, x2: seq<A>, y2: seq<B>, f: (A, B) -> seq<C>)
    requires |y1| == |x1| && |y2| == |x2|
    ensures FlatMap(x1 + x2, y1 + y2, f) == FlatMap(x1, y1, f) + FlatMap(x2, y2, f)
    decreases |x1|
  {
    if x1 == [] {
      assert x1 + x2 == x2 && y1 + y2 == y2;
    } else {
      FlatMapAppend(x1[1..], y1[1..], x2, y2, f);
      assert (x1 + x2)[1..] == x1[1..] + x2 && (y1 + y2)[1..] == y1[1..] + y2;
    }
  }

  /** `Promise.all(providers.map(discoverModels)).flat()`: each provider's entries, in provider order. */
  function DiscoverAll(providers: seq<ProviderConfig>, env: Env, outcomes: seq<Discovery>): (r: seq<ModelConfig>)
    requires |outcomes| == |providers|
    ensures forall m :: m in r <==> exists k :: 0 <= k < |providers| && m in DiscoverModels(providers[k], env, outcomes[k])
  {
    FlatMap(providers, outcomes, (p, o) => DiscoverModels(p, env, o))
  }

  /** `flat()` keeps the providers' order: discovering over two lists of providers one after the
      other is discovering over each and concatenating, and one provider gives its own entries. */
  lemma DiscoverAllAppend(p1: seq<ProviderConfig>, o1: seq<Discovery>, p2: seq<ProviderConfig>, o2: seq<Discovery>, env: Env)
    requires |o1| == |p1| && |o2| == |p2|
    ensures DiscoverAll(p1 + p2, env, o1 + o2) == DiscoverAll(p1, env, o1) + DiscoverAll(p2, env, o2)
    ensures |p1| == 1 ==> DiscoverAll(p1, env, o1) == DiscoverModels(p1[0], env, o1[0])
  {
    FlatMapAppend(p1, o1, p2, o2, (p, o) => DiscoverModels(p, env, o));
  }

  // ---------------------------------------------------------------------------------------------
  // merging and sorting

  /** A manual entry with its provider defaulted to OpenAI and its key resolved. */
  function ResolveManual(env: Env, m: ModelConfig): (r: ModelConfig)
    ensures r.provider == Some(m.provider.GetOr(OpenAI)) && r.apiKey == ResolveApiKey(env, m.apiKey)
    ensures r.(provider := m.provider, apiKey := m.apiKey) == m
  {
    m.(provider := Some(m.provider.GetOr(OpenAI)), apiKey := ResolveApiKey(env, m.apiKey))
  }

  function ResolveAll(env: Env, ms: seq<ModelConfig>): (r: seq<ModelConfig>)
    ensures |r| == |ms| && forall k :: 0 <= k < |ms| ==> r[k] == ResolveManual(env, ms[k])
  {
    if ms == [] then [] else [ResolveManual(env, ms[0])] + ResolveAll(env, ms[1..])
  }

  predicate HasId(ms: seq<ModelConfig>, id: string) {
    exists m :: m in ms && m.id == id
  }

  function WithoutIds(ds: seq<ModelConfig>, manual: seq<ModelConfig>): (r: seq<ModelConfig>)
    ensures forall d :: d in r <==> d in ds && !HasId(manual, d.id)
  {
    if ds == [] then []
    else
      var rest := WithoutIds(ds[1..], manual);
      assert forall d :: d in ds <==> d == ds[0] || d in ds[1..];
      if HasId(manual, ds[0].id) then rest else [ds[0]] + rest
  }

  /** `[...manual, ...discovered.filter((m) => !manualIds.has(m.id))]`. */
  function MergeModels(manual: seq<ModelConfig>, discovered: seq<ModelConfig>): seq<ModelConfig> {
    manual + WithoutIds(discovered, manual)
  }

  /** Every manual entry survives the merge; a discovered one survives exactly when no manual entry
      has its id; nothing else appears. */
  lemma MergeModelsMembership(manual: seq<ModelConfig>, discovered: seq<ModelConfig>)
    ensures forall m :: m in manual ==> m in MergeModels(manual, discovered)
    ensures forall d :: d in discovered && d !in manual ==>
      (d in MergeModels(manual, discovered) <==> !HasId(manual, d.id))
    ensures forall m :: m in MergeModels(manual, discovered) ==> m in manual || m in discovered
  {
  }

  /** Manual entries win by id: an id held by a manual entry appears only through manual entries. */
  lemma ManualWinsById(manual: seq<ModelConfig>, discovered: seq<ModelConfig>, m: ModelConfig)
    requires m in MergeModels(manual, discovered) && HasId(manual, m.id)
    ensures m in manual
  {
  }

  function NameOf(m: ModelConfig): string {
    m.name
  }

  /** The list `getModels` builds on a cache miss: manual entries resolved, merged with the
      discovered ones, and sorted by name. */
  function LoadModels(config: ModelsConfig, env: Env, outcomes: seq<Discovery>): seq<ModelConfig>
    requires |outcomes| == |config.providers|
  {
    var manual := ResolveAll(env, config.models.GetOr([]));
    SortBy(MergeModels(manual, DiscoverAll(config.providers, env, outcomes)), NameOf)
  }

  /** The loaded list is sorted by name, is a rearrangement of the merge, and holds every manual entry. */
  lemma LoadModelsSpec(config: ModelsConfig, env: Env, outcomes: seq<Discovery>)
    requires |outcomes| == |config.providers|
    ensures SortedBy(LoadModels(config, env, outcomes), NameOf)
    ensures var manual := ResolveAll(env, config.models.GetOr([]));
      multiset(LoadModels(config, env, outcomes)) == multiset(MergeModels(manual, DiscoverAll(config.providers, env, outcomes)))
    ensures forall m :: m in config.models.GetOr([]) ==> ResolveManual(env, m) in LoadModels(config, env, outcomes)
  {
    var manual := ResolveAll(env, config.models.GetOr([]));
    var merged := MergeModels(manual, DiscoverAll(config.providers, env, outcomes));
    forall m | m in config.models.GetOr([]) ensures ResolveManual(env, m) in LoadModels(config, env, outcomes) {
      var k :| 0 <= k < |config.models.GetOr([])| && config.models.GetOr([])[k] == m;
      assert manual[k] == ResolveManual(env, m);
      assert manual[k] in merged;
      assert manual[k] in multiset(merged);
    }
  }

  /** Resolving the manual entries keeps their ids. */
  lemma ResolveAllKeepsIds(env: Env, ms: seq<ModelConfig>, id: string)
    ensures HasId(ResolveAll(env, ms), id) <==> HasId(ms, id)
  {
    var rs := ResolveAll(env, ms);
    if HasId(rs, id) {
      var x :| x in rs && x.id == id;
      var j :| 0 <= j < |rs| && rs[j] == x;
      assert ms[j] in ms && ms[j].id == id;
    }
    if HasId(ms, id) {
      var x :| x in ms && x.id == id;
      var j :| 0 <= j < |ms| && ms[j] == x;
      assert rs[j] in rs && rs[j].id == id;
    }
  }

  /** A model some provider discovers reaches the loaded list unless a manual entry has its id. */
  lemma LoadModelsKeepsDiscovered(config: ModelsConfig, env: Env, outcomes: seq<Discovery>, k: nat, m: ModelConfig)
    requires |outcomes| == |config.providers| && k < |config.providers|
    requires m in DiscoverModels(config.providers[k], env, outcomes[k]) && !HasId(config.models.GetOr([]), m.id)
    ensures m in LoadModels(config, env, outcomes)
  {
    var manual := ResolveAll(env, config.models.GetOr([]));
    var discovered := DiscoverAll(config.providers, env, outcomes);
    assert m in discovered;
    ResolveAllKeepsIds(env, config.models.GetOr([]), m.id);
    assert m in WithoutIds(discovered, manual);
    var merged := MergeModels(manual, discovered);
    assert m in merged;
    assert m in multiset(merged);
    LoadModelsSpec(config, env, outcomes);
    assert m in multiset(LoadModels(config, env, outcomes));
  }

  /** `models.find((m) => m.id === id)`. */
  function FindById(ms: seq<ModelConfig>, id: string): (r: Option<ModelConfig>)
    ensures r.Some? ==> r.value in ms && r.value.id == id
    ensures r.None? <==> !HasId(ms, id)
  {
    if ms == [] then None
    else if ms[0].id == id then Some(ms[0])
    else
      assert forall m :: m in ms[1..] ==> m in ms;
      FindById(ms[1..], id)
  }

  /** `find` returns the first match. */
  lemma FindByIdFirst(ms: seq<ModelConfig>, id: string, k: nat)
    requires k < |ms| && ms[k].id == id && forall j :: 0 <= j < k ==> ms[j].id != id
    ensures FindById(ms, id) == Some(ms[k])
    decreases k
  {
    if k > 0 {
      FindByIdFirst(ms[1..], id, k - 1);
    }
  }

  // ---------------------------------------------------------------------------------------------
  // the cache

  const CacheTtlMs := 30000

  /** The module-level cache of `models.ts`. Time is passed in as `now` (milliseconds); the
      configuration file and the discovery answers are passed in and only consulted on a miss. */
  class ModelRegistry {
    var cachedModels: Option<seq<ModelConfig>>
    var cacheTimestamp: int

    constructor()
      ensures cachedModels == None && cacheTimestamp == 0
    {
      cachedModels := None;
      cacheTimestamp := 0;
    }

    predicate IsFresh(now: int)
      reads this
    {
      cachedModels.Some? && now - cacheTimestamp < CacheTtlMs
    }

    /** `getModels`: the cached list while it is fresh; otherwise a reload, stored with `now`. */
    method GetModels(now: int, config: ModelsConfig, env: Env, outcomes: seq<Discovery>)
      returns (models: seq<ModelConfig>, reloaded: bool)
      requires |outcomes| == |config.providers|
      modifies this
      ensures reloaded <==> !old(IsFresh(now))
      ensures !reloaded ==> models == old(cachedModels).value && unchanged(this)
      ensures reloaded ==> models == LoadModels(config, env, outcomes)
      ensures reloaded ==> cachedModels == Some(models) && cacheTimestamp == now
    {
      if IsFresh(now) {
        return cachedModels.value, false;
      }
      models := LoadModels(config, env, outcomes);
      cachedModels := Some(models);
      cacheTimestamp := now;
      reloaded := true;
    }

    /** `getModelById`: the first entry with the id in the list `getModels` returns. */
    method GetModelById(id: string, now: int, config: ModelsConfig, env: Env, outcomes: seq<Discovery>)
      returns (r: Option<ModelConfig>)
      requires |outcomes| == |config.providers|
      modifies this
      ensures old(IsFresh(now)) ==> r == FindById(old(cachedModels).value, id) && unchanged(this)
      ensures !old(IsFresh(now)) ==> r == FindById(LoadModels(config, env, outcomes), id)
      ensures !old(IsFresh(now)) ==> cachedModels == Some(LoadModels(config, env, outcomes)) && cacheTimestamp == now
    {
      var models, _ := GetModels(now, config, env, outcomes);
      r := FindById(models, id);
    }

    /** `reloadModels`: empties the cache, so the next `getModels` reloads whatever the time. */
    method ReloadModels()
      modifies this
      ensures cachedModels == None && cacheTimestamp == 0
      ensures forall now :: !IsFresh(now)
    {
      cachedModels := None;
      cacheTimestamp := 0;
    }
  }

  /** A hit and a miss: a second call within the time-to-live returns the same list without
      reloading, and a call after `reloadModels` reloads. */
  method CacheScenario(config: ModelsConfig, env: Env, outcomes: seq<Discovery>, t0: int, dt: nat)
    returns (first: seq<ModelConfig>, second: seq<ModelConfig>, third: seq<ModelConfig>, thirdReloaded: bool)
    requires |outcomes| == |config.providers| && dt < CacheTtlMs
    ensures first == second == LoadModels(config, env, outcomes)
    ensures thirdReloaded && third == LoadModels(config, env, outcomes)
  {
    var registry := new ModelRegistry();
    var r1, r2;
    first, r1 := registry.GetModels(t0, config, env, outcomes);
    second, r2 := registry.GetModels(t0 + dt, config, env, outcomes);
    registry.ReloadModels();
    third, thirdReloaded := registry.GetModels(t0 + dt, config, env, outcomes);
  }
}
