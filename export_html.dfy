/**
 * The showcase export route: attribute escaping for `srcdoc`, the score colour, the grid-column
 * rule, and the request checks of `GET`. File reading, the card list and its average-based sort
 * are outside this model.
 */
module ExportHtml {
  import opened Wrappers
  import opened Text

  // ---------------------------------------------------------------------------------------------
  // escapeForSrcdoc

  /** `s.replace(/c/g, rep)`. */
  function ReplaceChar(s: string, c: char, rep: string): string
    decreases |s|
  {
    if s == [] then [] else (if s[0] == c then rep else [s[0]]) + ReplaceChar(s[1..], c, rep)
  }

  lemma {:induction false} ReplaceCharAppend(a: string, b: string, c: char, rep: string)
    ensures ReplaceChar(a + b, c, rep) == ReplaceChar(a, c, rep) + ReplaceChar(b, c, rep)
    decreases |a|
  {
    if a == [] {
      assert a + b == b;
    } else {
      ReplaceCharAppend(a[1..], b, c, rep);
      assert (a + b)[1..] == a[1..] + b;
    }
  }

  lemma {:induction false} ReplaceCharAbsent(s: string, c: char, rep: string)
    requires c !in s
    ensures ReplaceChar(s, c, rep) == s
    decreases |s|
  {
    if s != [] {
      ReplaceCharAbsent(s[1..], c, rep);
    }
  }

  /** `escapeForSrcdoc`: four global replacements, `&` first, then `"`, `<`, `>`. */
  function EscapeForSrcdoc(html: string): string {
    ReplaceChar(ReplaceChar(ReplaceChar(ReplaceChar(html, '&', "&amp;"), '"', "&quot;"), '<', "&lt;"), '>', "&gt;")
  }

  /** The entity each character stands for after escaping. */
  function EscapeChar(c: char): string {
    if c == '&' then "&amp;"
    else if c == '"' then "&quot;"
    else if c == '<' then "&lt;"
    else if c == '>' then "&gt;"
    else [c]
  }

  /** The one-pass reading of the escape: each character replaced by its entity. */
  function EscapeEach(s: string): string
    decreases |s|
  {
    if s == [] then [] else EscapeChar(s[0]) + EscapeEach(s[1..])
  }

  lemma ReplaceCharSingle(x: char, c: char, rep: string)
    ensures ReplaceChar([x], c, rep) == if x == c then rep else [x]
  {
    assert [x][1..] == [];
  }

  lemma EscapeOneEntity(c: char, e: string)
    requires c in "&\"<>" && e == EscapeChar(c)
    requires '"' !in e[1..] && '<' !in e[1..] && '>' !in e[1..]
    ensures EscapeForSrcdoc([c]) == e
  {
    ReplaceCharSingle(c, '&', "&amp;");
    var r1 := ReplaceChar([c], '&', "&amp;");
    if c == '&' {
      ReplaceCharAbsent(r1, '"', "&quot;");
      ReplaceCharAbsent(r1, '<', "&lt;");
      ReplaceCharAbsent(r1, '>', "&gt;");
    } else {
      ReplaceCharSingle(c, '"', "&quot;");
      var r2 := ReplaceChar([c], '"', "&quot;");
      if c == '"' {
        ReplaceCharAbsent(r2, '<', "&lt;");
        ReplaceCharAbsent(r2, '>', "&gt;");
      } else {
        ReplaceCharSingle(c, '<', "&lt;");
        var r3 := ReplaceChar([c], '<', "&lt;");
        if c == '<' {
          ReplaceCharAbsent(r3, '>', "&gt;");
        } else {
          ReplaceCharSingle(c, '>', "&gt;");
        }
      }
    }
  }

  lemma EscapeOneChar(c: char)
    ensures EscapeForSrcdoc([c]) == EscapeChar(c)
  {
    if c in "&\"<>" {
      EscapeOneEntity(c, EscapeChar(c));
    } else {
      ReplaceCharAbsent([c], '&', "&amp;");
      ReplaceCharAbsent([c], '"', "&quot;");
      ReplaceCharAbsent([c], '<', "&lt;");
      ReplaceCharAbsent([c], '>', "&gt;");
    }
  }

  /** The four passes agree with the one-pass escape, because no entity a pass writes holds a
      character a later pass replaces. */
  lemma {:induction false} EscapeIsCharwise(s: string)
    ensures EscapeForSrcdoc(s) == EscapeEach(s)
    decreases |s|
  {
    if s != [] {
      var c, t := s[0], s[1..];
      assert s == [c] + t;
      EscapeIsCharwise(t);
      EscapeOneChar(c);
      var a1 := ReplaceChar([c], '&', "&amp;");
      var b1 := ReplaceChar(t, '&', "&amp;");
      ReplaceCharAppend([c], t, '&', "&amp;");
      var a2 := ReplaceChar(a1, '"', "&quot;");
      var b2 := ReplaceChar(b1, '"', "&quot;");
      ReplaceCharAppend(a1, b1, '"', "&quot;");
      var a3 := ReplaceChar(a2, '<', "&lt;");
      var b3 := ReplaceChar(b2, '<', "&lt;");
      ReplaceCharAppend(a2, b2, '<', "&lt;");
      ReplaceCharAppend(a3, b3, '>', "&gt;");
    }
  }

  /** The escaped text holds no `"`, `<` or `>`, so it is safe inside a double-quoted attribute. */
  lemma EscapedHasNoSpecials(s: string)
    ensures '"' !in EscapeForSrcdoc(s) && '<' !in EscapeForSrcdoc(s) && '>' !in EscapeForSrcdoc(s)
  {
    EscapeIsCharwise(s);
    EachHasNoSpecials(s);
  }

  lemma {:induction false} EachHasNoSpecials(s: string)
    ensures '"' !in EscapeEach(s) && '<' !in EscapeEach(s) && '>' !in EscapeEach(s)
    decreases |s|
  {
    if s != [] {
      EachHasNoSpecials(s[1..]);
      assert EscapeEach(s) == EscapeChar(s[0]) + EscapeEach(s[1..]);
    }
  }

  /** A text with none of `& " < >` is returned unchanged. */
  lemma {:induction false} EscapeIdentity(s: string)
    requires '&' !in s && '"' !in s && '<' !in s && '>' !in s
    ensures EscapeForSrcdoc(s) == s
  {
    ReplaceCharAbsent(s, '&', "&amp;");
    ReplaceCharAbsent(s, '"', "&quot;");
    ReplaceCharAbsent(s, '<', "&lt;");
    ReplaceCharAbsent(s, '>', "&gt;");
  }

  predicate EntityAt(s: string, i: nat)
    requires i <= |s|
  {
    OccursAt(s, i, "&amp;") || OccursAt(s, i, "&quot;") || OccursAt(s, i, "&lt;") || OccursAt(s, i, "&gt;")
  }

  /** Every `&` in `s` begins one of the four entities. */
  predicate AmpersandsAreEntities(s: string) {
    forall i :: 0 <= i < |s| && s[i] == '&' ==> EntityAt(s, i)
  }

  lemma OccursAtShift(p: string, t: string, i: nat, pat: string)
    requires OccursAt(t, i, pat)
    ensures OccursAt(p + t, |p| + i, pat)
  {
    assert (p + t)[|p| + i..|p| + i + |pat|] == t[i..i + |pat|];
  }

  lemma EntityAtShift(p: string, t: string, i: nat)
    requires i <= |t| && EntityAt(t, i)
    ensures EntityAt(p + t, |p| + i)
  {
    if OccursAt(t, i, "&amp;") {
      OccursAtShift(p, t, i, "&amp;");
    } else if OccursAt(t, i, "&quot;") {
      OccursAtShift(p, t, i, "&quot;");
    } else if OccursAt(t, i, "&lt;") {
      OccursAtShift(p, t, i, "&lt;");
    } else {
      OccursAtShift(p, t, i, "&gt;");
    }
  }

  /** Because `&` is replaced before the other three, every `&` in the output starts an entity. */
  lemma {:induction false} EscapedAmpersandsAreEntities(s: string)
    ensures AmpersandsAreEntities(EscapeForSrcdoc(s))
  {
    EscapeIsCharwise(s);
    EachAmpersandsAreEntities(s);
  }

  lemma {:induction false} EachAmpersandsAreEntities(s: string)
    ensures AmpersandsAreEntities(EscapeEach(s))
    decreases |s|
  {
    if s != [] {
      var p, t := EscapeChar(s[0]), EscapeEach(s[1..]);
      EachAmpersandsAreEntities(s[1..]);
      EscapeCharEntities(s[0]);
      var e := p + t;
      assert EscapeEach(s) == e;
      forall i | 0 <= i < |e| && e[i] == '&'
        ensures EntityAt(e, i)
      {
        if i < |p| {
          EntityAtExtend(p, t, i);
        } else {
          assert t[i - |p|] == '&';
          EntityAtShift(p, t, i - |p|);
        }
      }
    }
  }

  /** The only `&` a single escaped character holds is the one its entity starts with. */
  lemma EscapeCharEntities(c: char)
    ensures AmpersandsAreEntities(EscapeChar(c))
  {
    var e := EscapeChar(c);
    forall i | 0 <= i < |e| && e[i] == '&' ensures EntityAt(e, i) {
      assert i == 0;
      assert e[0..|e|] == e;
    }
  }

  lemma EntityAtExtend(p: string, t: string, i: nat)
    requires i <= |p| && EntityAt(p, i)
    ensures EntityAt(p + t, i)
  {
    forall pat | OccursAt(p, i, pat) ensures OccursAt(p + t, i, pat) {
      assert (p + t)[i..i + |pat|] == p[i..i + |pat|];
    }
  }

  /** Reading the entities back: what an HTML parser does with the attribute value. */
  function Unescape(s: string): string
    decreases |s|
  {
    if StartsWith(s, "&amp;") then "&" + Unescape(s[5..])
    else if StartsWith(s, "&quot;") then "\"" + Unescape(s[6..])
    else if StartsWith(s, "&lt;") then "<" + Unescape(s[4..])
    else if StartsWith(s, "&gt;") then ">" + Unescape(s[4..])
    else if s == [] then []
    else [s[0]] + Unescape(s[1..])
  }

  /** `&` is escaped first, so decoding the entities gives back the original text. */
  lemma {:induction false} UnescapeEscape(s: string)
    ensures Unescape(EscapeForSrcdoc(s)) == s
  {
    EscapeIsCharwise(s);
    UnescapeEscapeEach(s);
  }

  lemma NotStartsWith(s: string, pat: string, k: nat)
    requires k < |pat| && k < |s| && s[k] != pat[k]
    ensures !StartsWith(s, pat)
  {
    if |pat| <= |s| {
      assert s[..|pat|][k] == s[k];
    }
  }

  lemma {:induction false} UnescapeEscapeEach(s: string)
    ensures Unescape(EscapeEach(s)) == s
    decreases |s|
  {
    if s != [] {
      var c, t := s[0], EscapeEach(s[1..]);
      UnescapeEscapeEach(s[1..]);
      var e := EscapeChar(c) + t;
      assert EscapeEach(s) == e;
      if c == '&' {
        assert e[..5] == "&amp;" && e[5..] == t;
      } else if c == '"' {
        NotStartsWith(e, "&amp;", 1);
        assert e[..6] == "&quot;" && e[6..] == t;
      } else if c == '<' {
        NotStartsWith(e, "&amp;", 1);
        NotStartsWith(e, "&quot;", 1);
        assert e[..4] == "&lt;" && e[4..] == t;
      } else if c == '>' {
        NotStartsWith(e, "&amp;", 1);
        NotStartsWith(e, "&quot;", 1);
        NotStartsWith(e, "&lt;", 1);
        assert e[..4] == "&gt;" && e[4..] == t;
      } else {
        NotStartsWith(e, "&amp;", 0);
        NotStartsWith(e, "&quot;", 0);
        NotStartsWith(e, "&lt;", 0);
        NotStartsWith(e, "&gt;", 0);
        assert e[0] == c && e[1..] == t;
      }
      assert s == [c] + s[1..];
    }
  }

  // ---------------------------------------------------------------------------------------------
  // Score colour and grid columns

  const Green := "#4ade80"
  const Yellow := "#facc15"
  const Red := "#f87171"

  /** `scoreColor`: green from 7, yellow from 4, red below. */
  function ScoreColor(val: real): (c: string)
    ensures c == Green || c == Yellow || c == Red
  {
    if val >= 7.0 then Green
    else if val >= 4.0 then Yellow
    else Red
  }

  function ColorRank(c: string): nat {
    if c == Green then 2 else if c == Yellow then 1 else 0
  }

  /** A higher score never gets a worse colour, and the colour bands are exactly [7, ∞), [4, 7) and below 4. */
  lemma ScoreColorBands(a: real, b: real)
    ensures a <= b ==> ColorRank(ScoreColor(a)) <= ColorRank(ScoreColor(b))
    ensures ScoreColor(a) == Green <==> a >= 7.0
    ensures ScoreColor(a) == Yellow <==> 4.0 <= a < 7.0
    ensures ScoreColor(a) == Red <==> a < 4.0
  {
  }

  /** The `cols` rule of `buildShowcaseHtml`: as many columns as cards up to two, two up to four
      cards, three beyond. */
  function Cols(cardCount: nat): (cols: nat)
    ensures cols <= 3 && cols <= cardCount
    ensures cardCount > 0 ==> cols > 0
  {
    if cardCount <= 2 then cardCount else if cardCount <= 4 then 2 else 3
  }

  /** More cards never means fewer columns. */
  lemma ColsMonotone(a: nat, b: nat)
    requires a <= b
    ensures Cols(a) <= Cols(b)
  {
  }

  // ---------------------------------------------------------------------------------------------
  // GET

  datatype ExportResponse =
    | BadRequest(error: string)
    | NotFound(error: string)
    | Showcase(benchmarkName: string, contentDisposition: Option<string>)

  /** The checks of `GET` before the page is built: the query's `benchmarkId` (null when absent)
      must be non-empty, the benchmark's results directory must exist; the page title comes from
      the id, and `download=1` adds an attachment header. */
  function ExportGet(benchmarkId: Option<string>, benchmarkExists: bool, download: Option<string>): (r: ExportResponse)
    ensures r.BadRequest? <==> benchmarkId.None? || benchmarkId.value == ""
    ensures r.NotFound? <==> benchmarkId.Some? && benchmarkId.value != "" && !benchmarkExists
    ensures r.Showcase? ==> r.benchmarkName == TitleFromId(benchmarkId.value)
    ensures r.Showcase? ==> (r.contentDisposition.Some? <==> download == Some("1"))
  {
    match benchmarkId
    case None => BadRequest("benchmarkId required")
    case Some(id) =>
      if id == "" then BadRequest("benchmarkId required")
      else if !benchmarkExists then NotFound("Benchmark not found")
      else Showcase(TitleFromId(id),
                    if download == Some("1") then Some("attachment; filename=\"" + id + "-showcase.html\"") else None)
  }
}
