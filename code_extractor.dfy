/**
 * The code extractor: turns free-form chat output into one HTML artifact.
 *
 * The fenced-block regular expressions of the source are written out as left-to-right scanners:
 * an opener "```" plus a language tag, then `\s*\n` (greedy, so the body starts after the LAST
 * newline of the whitespace run that follows the tag), then a lazy body that ends at the first
 * "```" after it. A pattern's match is its leftmost opener for which all of that succeeds.
 */
module CodeExtractor {
  import opened Wrappers
  import opened Text

  // ---------------------------------------------------------------------------------------------
  // Fence patterns

  /** The language tag an opening fence must carry: one of a list of alternatives, matched
      ignoring ASCII case (tried in order), or any run of word characters. */
  datatype Pattern = Tags(alternatives: seq<string>) | WordTag

  /** The priority-ordered patterns: html, htm, javascript/js, css, then an untagged fence. */
  const FencePatterns: seq<Pattern> :=
    [Tags(["html"]), Tags(["htm"]), Tags(["javascript", "js"]), Tags(["css"]), Tags([""])]

  /** The pattern that collects every fenced block, whatever its tag. */
  const BlockPattern: Pattern := WordTag

  /** A match: the opener's position, and the body `s[start..end]`; the closing fence sits at `end`. */
  datatype Match = Match(open: nat, start: nat, end: nat)

  predicate FenceAt(s: string, i: nat) {
    i + 3 <= |s| && s[i] == '`' && s[i + 1] == '`' && s[i + 2] == '`'
  }

  ghost predicate HasFence(s: string) {
    exists k :: 0 <= k < |s| && FenceAt(s, k)
  }

  /** A well-formed match: fences at both ends, the body starts after a newline, and the body
      holds no fence (the lazy body stops at the first closing fence). */
  ghost predicate WellFormed(s: string, m: Match) {
    && FenceAt(s, m.open) && FenceAt(s, m.end)
    && m.open + 3 < m.start <= m.end
    && s[m.start - 1] == '\n'
    && forall k :: m.start <= k < m.end ==> !FenceAt(s, k)
  }

  /** The body of a well-formed match holds no fence. */
  lemma BodyHasNoFence(s: string, m: Match)
    requires WellFormed(s, m)
    ensures !HasFence(s[m.start..m.end])
  {
    var body := s[m.start..m.end];
    forall k | 0 <= k < |body| ensures !FenceAt(body, k) {
      assert !FenceAt(s, m.start + k);
    }
  }

  /** A fence-free string keeps no fence in any piece of it. */
  lemma NoFenceInSlice(s: string, i: nat, j: nat)
    requires !HasFence(s) && i <= j <= |s|
    ensures !HasFence(s[i..j])
  {
    var t := s[i..j];
    forall k | 0 <= k < |t| ensures !FenceAt(t, k) {
      assert !FenceAt(s, i + k);
    }
  }

  predicate IsWordChar(c: char) {
    ('a' <= c <= 'z') || ('A' <= c <= 'Z') || ('0' <= c <= '9') || c == '_'
  }

  /** End of the run of word characters (`\w*`) starting at `i`. */
  function SkipWord(s: string, i: nat): (j: nat)
    requires i <= |s|
    ensures i <= j <= |s|
    decreases |s| - i
  {
    if i < |s| && IsWordChar(s[i]) then SkipWord(s, i + 1) else i
  }

  /** `\w*` is greedy: the run holds only word characters and stops at the first other one. */
  lemma {:induction false} SkipWordShape(s: string, i: nat)
    requires i <= |s|
    ensures var j := SkipWord(s, i); (j == |s| || !IsWordChar(s[j])) && forall k :: i <= k < j ==> IsWordChar(s[k])
    decreases |s| - i
  {
    if i < |s| && IsWordChar(s[i]) {
      SkipWordShape(s, i + 1);
    }
  }

  /** The first fence at or after `from`. */
  function NextFence(s: string, from: nat): (r: Option<nat>)
    requires from <= |s|
    ensures r.Some? ==> from <= r.value && FenceAt(s, r.value)
    ensures r.Some? ==> forall k :: from <= k < r.value ==> !FenceAt(s, k)
    decreases |s| - from
  {
    if FenceAt(s, from) then Some(from)
    else if from == |s| then None
    else NextFence(s, from + 1)
  }

  /** No fence is found only when there is none from `from` on. */
  lemma {:induction false} NextFenceNone(s: string, from: nat)
    requires from <= |s|
    ensures NextFence(s, from).None? <==> forall k :: from <= k ==> !FenceAt(s, k)
    decreases |s| - from
  {
    if !FenceAt(s, from) && from < |s| {
      NextFenceNone(s, from + 1);
    }
  }

  /** Position just after the last newline in `s[lo..j]`. */
  function LastNewline(s: string, lo: nat, j: nat): (r: Option<nat>)
    requires lo <= j <= |s|
    ensures r.Some? ==> lo < r.value <= j && s[r.value - 1] == '\n'
    decreases j
  {
    if j == lo then None
    else if s[j - 1] == '\n' then Some(j)
    else LastNewline(s, lo, j - 1)
  }

  /** The newline found is the last one: none follows it before `j`, and none is found only when
      `s[lo..j]` holds no newline. */
  lemma {:induction false} LastNewlineShape(s: string, lo: nat, j: nat)
    requires lo <= j <= |s|
    ensures LastNewline(s, lo, j).Some? ==> forall k :: LastNewline(s, lo, j).value <= k < j ==> s[k] != '\n'
    ensures LastNewline(s, lo, j).None? <==> forall k :: lo <= k < j ==> s[k] != '\n'
    decreases j
  {
    if j > lo && s[j - 1] != '\n' {
      LastNewlineShape(s, lo, j - 1);
    }
  }

  /** The rest of a match once the opener at `p` and its tag (ending at `q`) are read:
      `\s*\n` then a lazy body up to the next fence. */
  function CloseAfterTag(s: string, p: nat, q: nat): (r: Option<Match>)
    requires FenceAt(s, p) && p + 3 <= q <= |s|
    ensures r.Some? ==> r.value.open == p && WellFormed(s, r.value)
  {
    match LastNewline(s, q, SkipSpaces(s, q))
    case None => None
    case Some(c) =>
      match NextFence(s, c)
      case None => None
      case Some(e) => Some(Match(p, c, e))
  }

  /** `\s*\n` is greedy: the body starts after the last newline of the whitespace run that follows
      the tag; the match fails when that run holds no newline or no fence follows it. */
  lemma CloseAfterTagShape(s: string, p: nat, q: nat)
    requires FenceAt(s, p) && p + 3 <= q <= |s|
    ensures var r := CloseAfterTag(s, p, q);
            && (r.Some? ==> q < r.value.start <= SkipSpaces(s, q))
            && (r.Some? ==> forall k :: r.value.start <= k < SkipSpaces(s, q) ==> s[k] != '\n')
            && (r.None? <==> (LastNewline(s, q, SkipSpaces(s, q)).None? ||
                              NextFence(s, LastNewline(s, q, SkipSpaces(s, q)).value).None?))
  {
    LastNewlineShape(s, q, SkipSpaces(s, q));
  }

  /** Try the tag alternatives in order at `p`. */
  function MatchTags(s: string, p: nat, alts: seq<string>): (r: Option<Match>)
    requires p <= |s|
    ensures r.Some? ==> r.value.open == p && WellFormed(s, r.value)
    decreases |alts|
  {
    if alts == [] then None
    else if FenceAt(s, p) && MatchesAtCI(s, p + 3, alts[0]) then
      match CloseAfterTag(s, p, p + 3 + |alts[0]|)
      case Some(m) => Some(m)
      case None => MatchTags(s, p, alts[1..])
    else MatchTags(s, p, alts[1..])
  }

  /** The match of `pat` whose opener is at exactly `p`, if any. */
  function MatchAt(s: string, p: nat, pat: Pattern): (r: Option<Match>)
    requires p <= |s|
    ensures r.Some? ==> r.value.open == p && WellFormed(s, r.value)
  {
    match pat
    case Tags(alts) => MatchTags(s, p, alts)
    case WordTag => if FenceAt(s, p) then CloseAfterTag(s, p, SkipWord(s, p + 3)) else None
  }

  /** A regular-expression search from `from`: the match with the leftmost opener. */
  function Leftmost(s: string, pat: Pattern, from: nat): (r: Option<Match>)
    requires from <= |s|
    ensures r.Some? ==> WellFormed(s, r.value)
    ensures r.Some? ==> from <= r.value.open && MatchAt(s, r.value.open, pat) == r
    ensures r.Some? ==> forall p :: from <= p < r.value.open ==> MatchAt(s, p, pat).None?
    ensures r.None? ==> forall p :: from <= p <= |s| ==> MatchAt(s, p, pat).None?
    decreases |s| - from
  {
    if MatchAt(s, from, pat).Some? then MatchAt(s, from, pat)
    else if from == |s| then None
    else Leftmost(s, pat, from + 1)
  }

  /** `s.match(pat)?.[1]`: the capture of the leftmost match, which may be empty. */
  function PatternCapture(s: string, pat: Pattern): (r: Option<string>)
    ensures r.Some? ==> !HasFence(r.value) && IsSlice(r.value, s)
  {
    match Leftmost(s, pat, 0)
    case None => None
    case Some(m) =>
      BodyHasNoFence(s, m);
      Some(s[m.start..m.end])
  }

  /** A match needs a fence after its opener: text with no second fence matches no pattern. */
  lemma NoClosingFenceNoCapture(s: string, pat: Pattern)
    requires forall i, j :: 0 <= i < j < |s| && FenceAt(s, i) ==> !FenceAt(s, j)
    ensures PatternCapture(s, pat).None?
  {
    match Leftmost(s, pat, 0)
    case None =>
    case Some(m) =>
      assert false;
  }

  /** The priority scan: the capture of the first pattern, in order, whose leftmost match has a
      non-empty capture (an empty capture is falsy and moves on to the next pattern). */
  function FenceHit(s: string, pats: seq<Pattern>): (r: Option<string>)
    ensures r.Some? ==> r.value != [] && !HasFence(r.value) && IsSlice(r.value, s)
    decreases |pats|
  {
    if pats == [] then None
    else match PatternCapture(s, pats[0])
      case Some(body) => if body != [] then Some(body) else FenceHit(s, pats[1..])
      case None => FenceHit(s, pats[1..])
  }

  predicate NonEmptyCapture(s: string, pat: Pattern) {
    PatternCapture(s, pat).Some? && PatternCapture(s, pat).value != []
  }

  /** Priority order: the scan answers with pattern `k`'s capture exactly when pattern `k` has a
      non-empty capture and no earlier pattern does — wherever in the text the matches sit. */
  lemma {:induction false} FenceHitIsFirstNonEmpty(s: string, pats: seq<Pattern>, k: nat)
    requires k < |pats|
    ensures (FenceHit(s, pats).Some? && FenceHit(s, pats) == PatternCapture(s, pats[k]) &&
             forall j :: 0 <= j < k ==> !NonEmptyCapture(s, pats[j]))
            <==>
            (NonEmptyCapture(s, pats[k]) && forall j :: 0 <= j < k ==> !NonEmptyCapture(s, pats[j]))
    decreases k
  {
    if k > 0 {
      FenceHitIsFirstNonEmpty(s, pats[1..], k - 1);
      if forall j :: 0 <= j < k ==> !NonEmptyCapture(s, pats[j]) {
        assert !NonEmptyCapture(s, pats[0]);
        assert FenceHit(s, pats) == FenceHit(s, pats[1..]);
        forall j | 0 <= j < k - 1 ensures !NonEmptyCapture(s, pats[1..][j]) {
          assert pats[1..][j] == pats[j + 1];
        }
      }
      if forall j :: 0 <= j < k - 1 ==> !NonEmptyCapture(s, pats[1..][j]) {
        if !NonEmptyCapture(s, pats[0]) {
          forall j | 0 <= j < k ensures !NonEmptyCapture(s, pats[j]) {
            if j > 0 { assert pats[j] == pats[1..][j - 1]; }
          }
        }
      }
    }
  }

  /** No pattern has a non-empty capture exactly when the scan finds nothing. */
  lemma {:induction false} FenceHitNone(s: string, pats: seq<Pattern>)
    ensures FenceHit(s, pats).None? <==> forall j :: 0 <= j < |pats| ==> !NonEmptyCapture(s, pats[j])
    decreases |pats|
  {
    if pats != [] {
      FenceHitNone(s, pats[1..]);
      if forall j :: 0 <= j < |pats| ==> !NonEmptyCapture(s, pats[j]) {
        forall j | 0 <= j < |pats| - 1 ensures !NonEmptyCapture(s, pats[1..][j]) {
          assert pats[1..][j] == pats[j + 1];
        }
      }
      if FenceHit(s, pats).None? {
        forall j | 0 <= j < |pats| ensures !NonEmptyCapture(s, pats[j]) {
          if j > 0 { assert pats[j] == pats[1..][j - 1]; }
        }
      }
    }
  }

  // ---------------------------------------------------------------------------------------------
  // Full-document detection

  /** `looksLikeFullHtml`: the trimmed, lower-cased text starts with a doctype or `<html`, or
      contains both `<head` and `<body`. */
  function LooksLikeFullHtml(text: string): bool {
    var lower := Lower(Trim(text));
    StartsWith(lower, "<!doctype") || StartsWith(lower, "<html") ||
    (Contains(lower, "<head") && Contains(lower, "<body"))
  }

  /** The same test stated without lower-casing: a case-blind prefix or occurrence in the trimmed text. */
  ghost predicate FullHtmlMarkers(t: string) {
    MatchesAtCI(t, 0, "<!doctype") || MatchesAtCI(t, 0, "<html") ||
    ((exists i :: 0 <= i <= |t| && MatchesAtCI(t, i, "<head")) &&
     (exists i :: 0 <= i <= |t| && MatchesAtCI(t, i, "<body")))
  }

  lemma StartsWithIsOccursAt(s: string, pat: string)
    ensures StartsWith(s, pat) <==> OccursAt(s, 0, pat)
  {
  }

  /** `looksLikeFullHtml` is case-insensitive and looks at the trimmed text only. */
  lemma LooksLikeFullHtmlMeaning(text: string)
    ensures LooksLikeFullHtml(text) <==> FullHtmlMarkers(Trim(text))
  {
    var t := Trim(text);
    var lower := Lower(t);
    StartsWithIsOccursAt(lower, "<!doctype");
    StartsWithIsOccursAt(lower, "<html");
    ContainsMeaning(lower, "<head");
    ContainsMeaning(lower, "<body");
    LowerOccursAt(t, 0, "<!doctype");
    LowerOccursAt(t, 0, "<html");
    forall i | 0 <= i <= |t|
      ensures OccursAt(lower, i, "<head") <==> MatchesAtCI(t, i, "<head")
      ensures OccursAt(lower, i, "<body") <==> MatchesAtCI(t, i, "<body")
    {
      LowerOccursAt(t, i, "<head");
      LowerOccursAt(t, i, "<body");
    }
  }

  /** Upper- or lower-casing ASCII letters does not change the verdict. */
  lemma LooksLikeFullHtmlIgnoresCase(text: string)
    ensures LooksLikeFullHtml(Lower(text)) == LooksLikeFullHtml(text)
  {
    var l := Lower(text);
    assert TrimStart(l) == TrimStart(text) by {
      SkipSpacesLower(text, 0);
    }
    assert TrimEnd(l) == TrimEnd(text) by {
      BackSpacesLower(text, TrimStart(text), |text|);
    }
    assert Lower(Trim(l)) == Lower(Trim(text));
  }

  lemma {:induction false} SkipSpacesLower(s: string, i: nat)
    requires i <= |s|
    ensures SkipSpaces(Lower(s), i) == SkipSpaces(s, i)
    decreases |s| - i
  {
    if i < |s| {
      LowerCharKeepsSpace(s[i]);
      if IsSpace(s[i]) {
        SkipSpacesLower(s, i + 1);
      }
    }
  }

  lemma {:induction false} BackSpacesLower(s: string, lo: nat, j: nat)
    requires lo <= j <= |s|
    ensures BackSpaces(Lower(s), lo, j) == BackSpaces(s, lo, j)
    decreases j
  {
    if lo < j {
      LowerCharKeepsSpace(s[j - 1]);
      if IsSpace(s[j - 1]) {
        BackSpacesLower(s, lo, j - 1);
      }
    }
  }

  // ---------------------------------------------------------------------------------------------
  // extractCode

  /** The first-`<`-to-last-`>` slice of the trimmed text, trimmed, when there is one. */
  function TagSpan(t: string): (r: Option<string>)
    ensures r.Some? ==> IsSlice(r.value, t) && IsTrimmed(r.value)
  {
    match IndexOf(t, '<')
    case None => None
    case Some(first) =>
      match LastIndexOf(t, '>')
      case None => None
      case Some(last) =>
        if last > first then
          TrimIsSlice(t[first..last + 1]);
          SliceOfSlice(t, t[first..last + 1], TrimStart(t[first..last + 1]), TrimEnd(t[first..last + 1]));
          assert IsSlice(t[first..last + 1], t);
          Some(Trim(t[first..last + 1]))
        else None
  }

  /** `extractCode`: the fenced body of the first pattern with a non-empty capture; else the whole
      trimmed text when it looks like a full document; else the `<`…`>` slice when it is longer
      than 50 characters and looks like a full document; else the trimmed text.
      Whatever it returns is a piece of the input with no whitespace at either end. */
  function ExtractCode(raw: string): (r: string)
    ensures IsTrimmed(r)
    ensures IsSlice(r, raw)
  {
    var trimmed := Trim(raw);
    TrimIsSlice(raw);
    match FenceHit(trimmed, FencePatterns)
    case Some(body) =>
      TrimIsSlice(body);
      SliceOfSlice(trimmed, body, 0, |body|);
      assert body[0..|body|] == body;
      SliceOfSlice(raw, trimmed, 0, |trimmed|);
      assert trimmed[0..|trimmed|] == trimmed;
      SliceOfSliceTransitive(Trim(body), body, trimmed, raw);
      Trim(body)
    case None =>
      if LooksLikeFullHtml(trimmed) then trimmed
      else match TagSpan(trimmed)
        case Some(candidate) =>
          if |candidate| > 50 && LooksLikeFullHtml(candidate) then
            SliceOfSliceTransitive(candidate, trimmed, trimmed, raw);
            candidate
          else trimmed
        case None => trimmed
  }

  lemma SliceOfSliceTransitive(a: string, b: string, c: string, d: string)
    requires IsSlice(a, b) && IsSlice(b, c) && IsSlice(c, d)
    ensures IsSlice(a, d)
  {
    var i, j :| 0 <= i <= j <= |c| && b == c[i..j];
    SliceOfSlice(d, c, i, j);
    var k, l :| 0 <= k <= l <= |b| && a == b[k..l];
    SliceOfSlice(d, b, k, l);
  }

  /** A fence hit is returned trimmed, and it holds no fence. */
  lemma ExtractFromFence(raw: string, body: string)
    requires FenceHit(Trim(raw), FencePatterns) == Some(body)
    ensures ExtractCode(raw) == Trim(body)
    ensures !HasFence(ExtractCode(raw))
  {
    NoFenceInSlice(body, TrimStart(body), TrimEnd(body));
  }

  /** The html pattern outranks every other: a non-empty html capture decides the result even if a
      fence of another language comes first in the text. */
  lemma HtmlFenceWins(raw: string)
    requires NonEmptyCapture(Trim(raw), Tags(["html"]))
    ensures ExtractCode(raw) == Trim(PatternCapture(Trim(raw), Tags(["html"])).value)
  {
  }

  /** An empty capture is skipped: the next pattern in order is consulted. */
  lemma EmptyCaptureSkipped(raw: string, k: nat)
    requires k + 1 < |FencePatterns|
    requires forall j :: 0 <= j < k ==> !NonEmptyCapture(Trim(raw), FencePatterns[j])
    requires PatternCapture(Trim(raw), FencePatterns[k]) == Some([])
    requires NonEmptyCapture(Trim(raw), FencePatterns[k + 1])
    ensures ExtractCode(raw) == Trim(PatternCapture(Trim(raw), FencePatterns[k + 1]).value)
  {
    FenceHitSkipsEmpty(Trim(raw), FencePatterns, k);
    ExtractFromFence(raw, PatternCapture(Trim(raw), FencePatterns[k + 1]).value);
  }

  lemma FenceHitSkipsEmpty(s: string, pats: seq<Pattern>, k: nat)
    requires k + 1 < |pats|
    requires forall j :: 0 <= j < k ==> !NonEmptyCapture(s, pats[j])
    requires PatternCapture(s, pats[k]) == Some([])
    requires NonEmptyCapture(s, pats[k + 1])
    ensures FenceHit(s, pats) == PatternCapture(s, pats[k + 1])
  {
    assert forall j :: 0 <= j < k + 1 ==> !NonEmptyCapture(s, pats[j]);
    FenceHitIsFirstNonEmpty(s, pats, k + 1);
  }

  /** With no fence match, a trimmed input that looks like a full document is returned unchanged. */
  lemma WholeDocumentPassthrough(raw: string)
    requires forall j :: 0 <= j < |FencePatterns| ==> !NonEmptyCapture(Trim(raw), FencePatterns[j])
    requires LooksLikeFullHtml(Trim(raw))
    ensures ExtractCode(raw) == Trim(raw)
  {
    FenceHitNone(Trim(raw), FencePatterns);
  }

  /** The fallbacks: with no fence match and no whole-document match, the answer is the tag slice
      when (and only when) that slice is longer than 50 characters and looks like a full document;
      otherwise the trimmed input. */
  lemma TagSliceFallback(raw: string)
    requires forall j :: 0 <= j < |FencePatterns| ==> !NonEmptyCapture(Trim(raw), FencePatterns[j])
    requires !LooksLikeFullHtml(Trim(raw))
    ensures var span := TagSpan(Trim(raw));
            if span.Some? && |span.value| > 50 && LooksLikeFullHtml(span.value)
            then ExtractCode(raw) == span.value
            else ExtractCode(raw) == Trim(raw)
  {
    FenceHitNone(Trim(raw), FencePatterns);
  }

  /** Leading and trailing whitespace of the input never matter. */
  lemma ExtractCodeOfTrimmed(raw: string)
    ensures ExtractCode(Trim(raw)) == ExtractCode(raw)
  {
    TrimIdempotent(raw);
  }

  /** An unclosed trailing fence (text cut off at a token limit) is not a fence match here: with
      no second fence anywhere, the result comes from the fallbacks. */
  lemma UnclosedFenceFallsBack(raw: string)
    requires forall i, j :: 0 <= i < j < |Trim(raw)| && FenceAt(Trim(raw), i) ==> !FenceAt(Trim(raw), j)
    ensures FenceHit(Trim(raw), FencePatterns).None?
  {
    var t := Trim(raw);
    forall j | 0 <= j < |FencePatterns| ensures !NonEmptyCapture(t, FencePatterns[j]) {
      NoClosingFenceNoCapture(t, FencePatterns[j]);
    }
    FenceHitNone(t, FencePatterns);
  }

  /** On text with no fence at all, extracting twice gives what extracting once gives. */
  lemma ExtractCodeIdempotentWithoutFences(raw: string)
    requires !HasFence(raw)
    ensures ExtractCode(ExtractCode(raw)) == ExtractCode(raw)
  {
    var t := Trim(raw);
    NoFenceInSlice(raw, TrimStart(raw), TrimEnd(raw));
    FenceHitNoFence(t, FencePatterns);
    var r := ExtractCode(raw);
    TrimOfTrimmed(r);
    if LooksLikeFullHtml(t) {
      TrimIdempotent(raw);
    } else if TagSpan(t).Some? && |TagSpan(t).value| > 50 && LooksLikeFullHtml(TagSpan(t).value) {
      var c := TagSpan(t).value;
      assert r == c;
      var i, j :| 0 <= i <= j <= |t| && c == t[i..j];
      NoFenceInSlice(t, i, j);
      FenceHitNoFence(c, FencePatterns);
    } else {
      TrimIdempotent(raw);
    }
  }

  /** Fence-free text has no fence hit. */
  lemma FenceHitNoFence(s: string, pats: seq<Pattern>)
    requires !HasFence(s)
    ensures FenceHit(s, pats).None?
  {
    forall j | 0 <= j < |pats| ensures !NonEmptyCapture(s, pats[j]) {
      NoClosingFenceNoCapture(s, pats[j]);
    }
    FenceHitNone(s, pats);
  }

  // ---------------------------------------------------------------------------------------------
  // mergeBlocks

  /** One `exec` of the global block pattern from `lastIndex` = `from`: the trimmed body and the
      new `lastIndex` (just past the closing fence). */
  function ExecBlock(s: string, from: nat): (r: Option<(string, nat)>)
    requires from <= |s|
    ensures r.Some? ==> from < r.value.1 <= |s|
  {
    match Leftmost(s, BlockPattern, from)
    case None => None
    case Some(m) => Some((Trim(s[m.start..m.end]), m.end + 3))
  }

  /** Each step's block is trimmed, holds no fence and is a piece of the text. */
  lemma ExecBlockShape(s: string, from: nat)
    requires from <= |s| && ExecBlock(s, from).Some?
    ensures var b := ExecBlock(s, from).value.0; IsTrimmed(b) && !HasFence(b) && IsSlice(b, s)
  {
    BlockShape(s, Leftmost(s, BlockPattern, from).value);
  }

  /** Every fenced block, in order: each search resumes after the previous match's closing fence
      (the `lastIndex` of a global regular expression); each body is trimmed. */
  function AllBlocks(s: string, from: nat): (blocks: seq<string>)
    requires from <= |s|
    decreases |s| - from
  {
    match ExecBlock(s, from)
    case None => []
    case Some((block, next)) => [block] + AllBlocks(s, next)
  }

  /** Every collected block is trimmed, holds no fence, and is a piece of the text. */
  lemma {:induction false} AllBlocksShape(s: string, from: nat)
    requires from <= |s|
    ensures forall b :: b in AllBlocks(s, from) ==> IsTrimmed(b) && !HasFence(b) && IsSlice(b, s)
    decreases |s| - from
  {
    match ExecBlock(s, from)
    case None =>
    case Some((block, next)) =>
      ExecBlockShape(s, from);
      AllBlocksShape(s, next);
      assert AllBlocks(s, from) == [block] + AllBlocks(s, next);
  }

  lemma BlockShape(s: string, m: Match)
    requires WellFormed(s, m)
    ensures var b := Trim(s[m.start..m.end]); IsTrimmed(b) && !HasFence(b) && IsSlice(b, s)
  {
    var body := s[m.start..m.end];
    BodyHasNoFence(s, m);
    NoFenceInSlice(body, TrimStart(body), TrimEnd(body));
    assert body[TrimStart(body)..TrimEnd(body)] == s[m.start + TrimStart(body)..m.start + TrimEnd(body)];
  }

  /** How a block is filed when several are merged. */
  datatype Kind = Css | Js | Markup

  /** Classification by the block's lower-cased prefix. */
  function KindOf(block: string): Kind {
    var lower := Lower(Trim(block));
    if StartsWith(lower, "body") || StartsWith(lower, ".") || StartsWith(lower, "#") || StartsWith(lower, "*") then Css
    else if StartsWith(lower, "function") || StartsWith(lower, "const ") || StartsWith(lower, "let ") ||
            StartsWith(lower, "var ") || StartsWith(lower, "document.") then Js
    else Markup
  }

  /** The accumulator for one kind: each block of that kind followed by a newline, in input order. */
  function Bucket(blocks: seq<string>, k: Kind): string
    decreases |blocks|
  {
    if blocks == [] then []
    else Bucket(blocks[..|blocks| - 1], k) +
         (if KindOf(blocks[|blocks| - 1]) == k then blocks[|blocks| - 1] + "\n" else [])
  }

  /** A bucket is empty exactly when no block has that kind. */
  lemma {:induction false} BucketEmpty(blocks: seq<string>, k: Kind)
    ensures Bucket(blocks, k) == [] <==> forall i :: 0 <= i < |blocks| ==> KindOf(blocks[i]) != k
    decreases |blocks|
  {
    if blocks != [] {
      var n := |blocks| - 1;
      var init := blocks[..n];
      BucketEmpty(init, k);
      BucketStep(blocks, n, k);
      assert blocks[..n + 1] == blocks;
      NoneOfKindSnoc(blocks, init, k);
    }
  }

  /** No block of kind `k` in `blocks` means none in all but the last, and not the last. */
  lemma NoneOfKindSnoc(blocks: seq<string>, init: seq<string>, k: Kind)
    requires blocks != [] && init == blocks[..|blocks| - 1]
    ensures (forall i :: 0 <= i < |blocks| ==> KindOf(blocks[i]) != k) <==>
            ((forall i :: 0 <= i < |init| ==> KindOf(init[i]) != k) && KindOf(blocks[|blocks| - 1]) != k)
  {
    assert forall i :: 0 <= i < |init| ==> init[i] == blocks[i];
  }

  /** One more block adds its text, with a newline, to its own bucket only. */
  lemma BucketStep(blocks: seq<string>, i: nat, k: Kind)
    requires i < |blocks|
    ensures Bucket(blocks[..i + 1], k) ==
            Bucket(blocks[..i], k) + (if KindOf(blocks[i]) == k then blocks[i] + "\n" else [])
  {
    assert blocks[..i + 1][..i] == blocks[..i];
  }

  /** Every block lands in exactly one bucket: the three buckets together hold all blocks. */
  lemma {:induction false} BucketsPartition(blocks: seq<string>)
    ensures |Bucket(blocks, Css)| + |Bucket(blocks, Js)| + |Bucket(blocks, Markup)| == TotalLength(blocks)
    decreases |blocks|
  {
    if blocks != [] {
      BucketsPartition(blocks[..|blocks| - 1]);
    }
  }

  /** Sum of the block lengths, one newline each. */
  function TotalLength(blocks: seq<string>): nat
    decreases |blocks|
  {
    if blocks == [] then 0 else TotalLength(blocks[..|blocks| - 1]) + |blocks[|blocks| - 1]| + 1
  }

  function StyleSection(css: string): string {
    if css == [] then [] else "<style>\n" + css + "</style>"
  }

  function ScriptSection(js: string): string {
    if js == [] then [] else "<script>\n" + js + "</script>"
  }

  /** The synthesised document around the three buckets. */
  function Document(css: string, js: string, html: string): string {
    "<!DOCTYPE html>\n<html lang=\"en\">\n<head>\n<meta charset=\"UTF-8\">\n" +
    "<meta name=\"viewport\" content=\"width=device-width, initial-scale=1.0\">\n" +
    StyleSection(css) + "\n</head>\n<body>\n" + html + "\n" + ScriptSection(js) + "\n</body>\n</html>"
  }

  /** The merged document has a `<style>` section exactly when some block is CSS, and a
      `<script>` section exactly when some block is JavaScript. */
  lemma DocumentSections(blocks: seq<string>)
    ensures StyleSection(Bucket(blocks, Css)) != [] <==> exists i :: 0 <= i < |blocks| && KindOf(blocks[i]) == Css
    ensures ScriptSection(Bucket(blocks, Js)) != [] <==> exists i :: 0 <= i < |blocks| && KindOf(blocks[i]) == Js
  {
    BucketEmpty(blocks, Css);
    BucketEmpty(blocks, Js);
  }

  /** `Array.prototype.find`, as an index: the first position from `from` on whose element
      satisfies `p`. */
  function Find<T>(xs: seq<T>, p: T -> bool, from: nat): (r: Option<nat>)
    requires from <= |xs|
    ensures r.Some? ==> from <= r.value < |xs|
    decreases |xs| - from
  {
    if from == |xs| then None
    else if p(xs[from]) then Some(from)
    else Find(xs, p, from + 1)
  }

  /** The search gives the first element from `from` on that satisfies `p`, and none only when no
      element from `from` on does. */
  lemma {:induction false} FindFirst<T>(xs: seq<T>, p: T -> bool, from: nat)
    requires from <= |xs|
    ensures Find(xs, p, from).Some? ==> p(xs[Find(xs, p, from).value])
    ensures Find(xs, p, from).Some? ==> forall i :: from <= i < Find(xs, p, from).value ==> !p(xs[i])
    ensures Find(xs, p, from).None? ==> forall i :: from <= i < |xs| ==> !p(xs[i])
    decreases |xs| - from
  {
    if from < |xs| && !p(xs[from]) {
      FindFirst(xs, p, from + 1);
    }
  }

  /** The `while` loop of `mergeBlocks`: run the global search until it fails, pushing each
      trimmed body. */
  method CollectBlocks(raw: string) returns (blocks: seq<string>)
    ensures blocks == AllBlocks(raw, 0)
  {
    blocks := [];
    var pos := 0;
    var done := false;
    while !done
      invariant pos <= |raw|
      invariant !done ==> blocks + AllBlocks(raw, pos) == AllBlocks(raw, 0)
      invariant done ==> blocks == AllBlocks(raw, 0)
      decreases |raw| - pos, !done
    {
      var m := ExecBlock(raw, pos);
      if m.None? {
        AllBlocksStep(raw, pos);
        done := true;
      } else {
        CollectStep(raw, blocks, pos);
        blocks := blocks + [m.value.0];
        pos := m.value.1;
      }
    }
  }

  lemma CollectStep(s: string, done: seq<string>, from: nat)
    requires from <= |s| && ExecBlock(s, from).Some?
    ensures done + AllBlocks(s, from) == (done + [ExecBlock(s, from).value.0]) + AllBlocks(s, ExecBlock(s, from).value.1)
  {
    AllBlocksStep(s, from);
  }

  lemma AllBlocksStep(s: string, from: nat)
    requires from <= |s|
    ensures ExecBlock(s, from).None? ==> AllBlocks(s, from) == []
    ensures ExecBlock(s, from).Some? ==>
      AllBlocks(s, from) == [ExecBlock(s, from).value.0] + AllBlocks(s, ExecBlock(s, from).value.1)
  {
  }

  /** The `for` loop of `mergeBlocks`: append each block, with a newline, to the accumulator of
      its kind. */
  method FillBuckets(blocks: seq<string>) returns (css: string, js: string, html: string)
    ensures css == Bucket(blocks, Css) && js == Bucket(blocks, Js) && html == Bucket(blocks, Markup)
  {
    css, js, html := "", "", "";
    for i := 0 to |blocks|
      invariant css == Bucket(blocks[..i], Css)
      invariant js == Bucket(blocks[..i], Js)
      invariant html == Bucket(blocks[..i], Markup)
    {
      BucketStep(blocks, i, Css);
      BucketStep(blocks, i, Js);
      BucketStep(blocks, i, Markup);
      var block := blocks[i];
      var kind := KindOf(block);
      if kind == Css {
        css := css + (block + "\n");
      } else if kind == Js {
        js := js + (block + "\n");
      } else {
        html := html + (block + "\n");
      }
    }
    assert blocks[..|blocks|] == blocks;
  }

  /** `mergeBlocks`: collect every fenced block; none — extract as usual; one — that block;
      several — the first that looks like a full document, or else a new document built from the
      CSS, JavaScript and markup buckets. */
  method MergeBlocks(raw: string) returns (r: string)
    ensures var blocks := AllBlocks(raw, 0);
            && (|blocks| == 0 ==> r == ExtractCode(raw))
            && (|blocks| == 1 ==> r == blocks[0])
            && (|blocks| >= 2 && Find(blocks, LooksLikeFullHtml, 0).Some? ==> r == blocks[Find(blocks, LooksLikeFullHtml, 0).value])
            && (|blocks| >= 2 && Find(blocks, LooksLikeFullHtml, 0).None? ==>
                  r == Document(Bucket(blocks, Css), Bucket(blocks, Js), Bucket(blocks, Markup)))
  {
    var blocks := CollectBlocks(raw);
    if |blocks| == 0 {
      return ExtractCode(raw);
    }
    if |blocks| == 1 {
      return blocks[0];
    }
    var fullDoc := Find(blocks, LooksLikeFullHtml, 0);
    if fullDoc.Some? {
      return blocks[fullDoc.value];
    }
    var css, js, html := FillBuckets(blocks);
    r := Document(css, js, html);
  }
}
