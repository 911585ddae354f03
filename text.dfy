/** Option values, used wherever the source returns `null`/`undefined` or reads an optional field;
    Result values, where it returns a value or throws an error with a message. */
module Wrappers {
  datatype Option<+T> = None | Some(value: T) {
    function GetOr(default: T): T {
      match this
      case Some(v) => v
      case None => default
    }
  }

  datatype Result<+T> = Ok(value: T) | Err(error: string)

  /** A JSON request body as a route reads it: parsed and destructured, or the read threw, with the
      thrown `Error`'s message (`None` when the thrown value is not an `Error`). */
  datatype Body<+T> = Parsed(req: T) | Unreadable(thrown: Option<string>)

  /** The `error` of a route's 500: the thrown `Error`'s message, else `Unknown error`. */
  function ThrownMessage(thrown: Option<string>): string {
    thrown.GetOr("Unknown error")
  }
}

/**
 * The string primitives the source leans on: JavaScript's `trim`, ASCII case folding,
 * `startsWith`/`includes`/`indexOf`, `split` and `join`.
 *
 * A string is a sequence of UTF-16 code units, one `char` each, so `|s|` is JavaScript's `length`.
 */
module Text {
  import opened Wrappers

  /** JavaScript's WhiteSpace and LineTerminator characters: the `\s` class and what `trim` removes. */
  predicate IsSpace(c: char) {
    c == '\t' || c == '\n' || c == '\U{000B}' || c == '\U{000C}' || c == '\r' || c == ' ' ||
    c == '\U{00A0}' || c == '\U{1680}' || ('\U{2000}' <= c <= '\U{200A}') ||
    c == '\U{2028}' || c == '\U{2029}' || c == '\U{202F}' || c == '\U{205F}' || c == '\U{3000}' || c == '\U{FEFF}'
  }

  /** The characters `.` refuses to match in a JavaScript regular expression. */
  predicate IsLineTerminator(c: char) {
    c == '\n' || c == '\r' || c == '\U{2028}' || c == '\U{2029}'
  }

  ghost predicate AllSpace(s: string) {
    forall k :: 0 <= k < |s| ==> IsSpace(s[k])
  }

  /** No whitespace at either end: what `trim` guarantees of its result. */
  predicate IsTrimmed(s: string) {
    s == [] || (!IsSpace(s[0]) && !IsSpace(s[|s| - 1]))
  }

  /** `r` is a contiguous piece of `s`. */
  ghost predicate IsSlice(r: string, s: string) {
    exists i, j :: 0 <= i <= j <= |s| && r == s[i..j]
  }

  lemma SliceOfSlice(r: string, s: string, i: nat, j: nat)
    requires IsSlice(s, r) && i <= j <= |s|
    ensures IsSlice(s[i..j], r)
  {
    var a, b :| 0 <= a <= b <= |r| && s == r[a..b];
    assert a + j <= b;
    assert forall k :: 0 <= k < j - i ==> s[i..j][k] == r[a + i..a + j][k];
    assert s[i..j] == r[a + i..a + j];
  }

  // ---------------------------------------------------------------------------------------------
  // trim

  /** Index of the first non-space character at or after `i`. */
  function SkipSpaces(s: string, i: nat): (j: nat)
    requires i <= |s|
    ensures i <= j <= |s| && (j == |s| || !IsSpace(s[j]))
    ensures forall k :: i <= k < j ==> IsSpace(s[k])
    decreases |s| - i
  {
    if i < |s| && IsSpace(s[i]) then SkipSpaces(s, i + 1) else i
  }

  /** Walking left from `j`, but not past `lo`: the index just after the last non-space character. */
  function BackSpaces(s: string, lo: nat, j: nat): (k: nat)
    requires lo <= j <= |s|
    ensures lo <= k <= j && (k == lo || !IsSpace(s[k - 1]))
    ensures forall m :: k <= m < j ==> IsSpace(s[m])
    decreases j
  {
    if lo < j && IsSpace(s[j - 1]) then BackSpaces(s, lo, j - 1) else j
  }

  function TrimStart(s: string): (i: nat)
    ensures i <= |s|
  {
    SkipSpaces(s, 0)
  }

  function TrimEnd(s: string): (j: nat)
    ensures TrimStart(s) <= j <= |s|
  {
    BackSpaces(s, TrimStart(s), |s|)
  }

  /** `String.prototype.trim`. */
  function Trim(s: string): (r: string)
    ensures IsTrimmed(r) && |r| <= |s|

    ensures r == s[TrimStart(s)..TrimEnd(s)]
  {
    s[TrimStart(s)..TrimEnd(s)]
  }

  /** What `trim` removes is whitespace and nothing else. */
  lemma TrimRemovesOnlySpace(s: string)
    ensures AllSpace(s[..TrimStart(s)]) && AllSpace(s[TrimEnd(s)..])
  {
  }

  lemma TrimIsSlice(s: string)
    ensures IsSlice(Trim(s), s)
  {
    assert Trim(s) == s[TrimStart(s)..TrimEnd(s)];
  }

  /** Trimming a string that has no whitespace at either end leaves it as it is. */
  lemma {:induction false} TrimOfTrimmed(s: string)
    requires IsTrimmed(s)
    ensures Trim(s) == s
  {
    assert TrimStart(s) == 0 by {
      if s != [] { assert !IsSpace(s[0]); }
    }
    assert TrimEnd(s) == |s| by {
      if s != [] { assert !IsSpace(s[|s| - 1]); }
    }
  }

  lemma TrimIdempotent(s: string)
    ensures Trim(Trim(s)) == Trim(s)
  {
    TrimOfTrimmed(Trim(s));
  }

  // ---------------------------------------------------------------------------------------------
  // ASCII case

  function LowerChar(c: char): (d: char)
    ensures !('A' <= d <= 'Z')
  {
    if 'A' <= c <= 'Z' then (c as int + 32) as char else c
  }

  /** Folding case never turns whitespace into text or text into whitespace. */
  lemma LowerCharKeepsSpace(c: char)
    ensures IsSpace(LowerChar(c)) == IsSpace(c)
  {
  }

  function UpperChar(c: char): (d: char)
    ensures LowerChar(d) == LowerChar(c)
  {
    if 'a' <= c <= 'z' then (c as int - 32) as char else c
  }

  /** `toLowerCase`, restricted to ASCII letters (all that the needles compared against contain). */
  function Lower(s: string): (r: string)
    ensures |r| == |s|
    ensures forall k :: 0 <= k < |s| ==> r[k] == LowerChar(s[k])
  {
    seq(|s|, k requires 0 <= k < |s| => LowerChar(s[k]))
  }

  /** The `/i` comparison of a regular expression: `pat` (lower-case) occurs at `i` in `s`, ignoring ASCII case. */
  predicate MatchesAtCI(s: string, i: nat, pat: string) {
    i + |pat| <= |s| && forall k :: 0 <= k < |pat| ==> LowerChar(s[i + k]) == pat[k]
  }

  /** `pat` occurs at `i` in `s`. */
  predicate OccursAt(s: string, i: nat, pat: string) {
    i + |pat| <= |s| && s[i..i + |pat|] == pat
  }

  /** `startsWith`. */
  predicate StartsWith(s: string, pat: string) {
    |pat| <= |s| && s[..|pat|] == pat
  }

  /** `includes` as a left-to-right scan from `from`. */
  function ContainsFrom(s: string, pat: string, from: nat): bool
    requires from <= |s|
    decreases |s| - from
  {
    if OccursAt(s, from, pat) then true
    else if from == |s| then false
    else ContainsFrom(s, pat, from + 1)
  }

  /** The scan from `from` succeeds iff the needle occurs at some position from `from` on. */
  lemma {:induction false} ContainsFromMeaning(s: string, pat: string, from: nat)
    requires from <= |s|
    ensures ContainsFrom(s, pat, from) <==> exists i :: from <= i <= |s| && OccursAt(s, i, pat)
    decreases |s| - from
  {
    if !OccursAt(s, from, pat) && from < |s| {
      ContainsFromMeaning(s, pat, from + 1);
      if exists i :: from <= i <= |s| && OccursAt(s, i, pat) {
        var i :| from <= i <= |s| && OccursAt(s, i, pat);
        assert i != from;
      }
    }
  }

  function Contains(s: string, pat: string): bool {
    ContainsFrom(s, pat, 0)
  }

  /** `includes` holds iff the needle occurs at some position. */
  lemma ContainsMeaning(s: string, pat: string)
    ensures Contains(s, pat) <==> exists i :: 0 <= i <= |s| && OccursAt(s, i, pat)
  {
    ContainsFromMeaning(s, pat, 0);
  }

  /** For a lower-case needle, an occurrence in the lower-cased text is a case-blind occurrence in the text. */
  lemma LowerOccursAt(s: string, i: nat, pat: string)
    ensures OccursAt(Lower(s), i, pat) <==> MatchesAtCI(s, i, pat)
  {
    if i + |pat| <= |s| {
      if OccursAt(Lower(s), i, pat) {
        forall k | 0 <= k < |pat| ensures LowerChar(s[i + k]) == pat[k] {
          assert Lower(s)[i..i + |pat|][k] == pat[k];
        }
      }
      if MatchesAtCI(s, i, pat) {
        assert Lower(s)[i..i + |pat|] == pat;
      }
    }
  }

  // ---------------------------------------------------------------------------------------------
  // searching for one character

  /** `indexOf(c)`: the first index of `c`, if any. */
  function IndexOf(s: string, c: char): (r: Option<nat>)
    ensures r.Some? ==> r.value < |s| && s[r.value] == c && forall k :: 0 <= k < r.value ==> s[k] != c
    ensures r.None? ==> forall k :: 0 <= k < |s| ==> s[k] != c
  {
    if s == [] then None
    else if s[0] == c then Some(0)
    else match IndexOf(s[1..], c)
      case None => None
      case Some(k) => Some(k + 1)
  }

  /** `lastIndexOf(c)`: the last index of `c`, if any. */
  function LastIndexOf(s: string, c: char): (r: Option<nat>)
    ensures r.Some? ==> r.value < |s| && s[r.value] == c && forall k :: r.value < k < |s| ==> s[k] != c
    ensures r.None? ==> forall k :: 0 <= k < |s| ==> s[k] != c
  {
    if s == [] then None
    else if s[|s| - 1] == c then Some(|s| - 1)
    else LastIndexOf(s[..|s| - 1], c)
  }

  // ---------------------------------------------------------------------------------------------
  // split and join

  /** `s.split(c)` for a one-character separator: the pieces between the separators, empty ones kept. */
  function SplitOn(s: string, c: char): (ws: seq<string>)
    ensures |ws| >= 1
    ensures forall w :: w in ws ==> c !in w
    decreases |s|
  {
    match IndexOf(s, c)
    case None => [s]
    case Some(i) => [s[..i]] + SplitOn(s[i + 1..], c)
  }

  /** `ws.join(sep)`. */
  function Join(ws: seq<string>, sep: string): string
    decreases |ws|
  {
    if ws == [] then []
    else if |ws| == 1 then ws[0]
    else ws[0] + sep + Join(ws[1..], sep)
  }

  /** Joining the pieces of a split with the same separator gives back the string. */
  lemma {:induction false} JoinSplitOn(s: string, c: char)
    ensures Join(SplitOn(s, c), [c]) == s
    decreases |s|
  {
    match IndexOf(s, c)
    case None =>
    case Some(i) =>
      var rest := SplitOn(s[i + 1..], c);
      JoinSplitOn(s[i + 1..], c);
      assert SplitOn(s, c) == [s[..i]] + rest;
      JoinCons(s[..i], rest, [c]);
      assert s == s[..i] + [c] + s[i + 1..];
  }

  lemma JoinCons(w: string, ws: seq<string>, sep: string)
    requires ws != []
    ensures Join([w] + ws, sep) == w + sep + Join(ws, sep)
  {
    assert ([w] + ws)[1..] == ws;
  }

  /** `w.charAt(0).toUpperCase() + w.slice(1)` (ASCII upper-casing). */
  function Capitalize(w: string): (r: string)
    ensures |r| == |w|
    ensures forall k :: 0 < k < |w| ==> r[k] == w[k]
    ensures w != [] ==> r[0] == UpperChar(w[0])
  {
    if w == [] then [] else [UpperChar(w[0])] + w[1..]
  }

  function MapCapitalize(ws: seq<string>): (rs: seq<string>)
    ensures |rs| == |ws|
    ensures forall k :: 0 <= k < |ws| ==> rs[k] == Capitalize(ws[k])
  {
    if ws == [] then [] else [Capitalize(ws[0])] + MapCapitalize(ws[1..])
  }

  /**
   * `id.split("-").map(capitalise).join(" ")`: the display title derived from a dash-separated id.
   * (Benchmark names in the benchmark list and in the showcase export.)
   */
  function TitleFromId(id: string): string {
    Join(MapCapitalize(SplitOn(id, '-')), " ")
  }

  /** Character-by-character reading of a title: dashes become spaces, and a character that starts a piece is upper-cased. */
  function TitleChar(id: string, k: nat): char
    requires k < |id|
  {
    if id[k] == '-' then ' '
    else if k == 0 || id[k - 1] == '-' then UpperChar(id[k])
    else id[k]
  }

  function TitleSpec(id: string): (r: string)
    ensures |r| == |id|
  {
    seq(|id|, k requires 0 <= k < |id| => TitleChar(id, k))
  }

  /** A title splits at the id's first dash: the capitalised first piece, a space, then the title of the rest. */
  lemma TitleFromIdAtDash(id: string, i: nat)
    requires IndexOf(id, '-') == Some(i)
    ensures TitleFromId(id) == Capitalize(id[..i]) + " " + TitleFromId(id[i + 1..])
  {
    var ws := SplitOn(id[i + 1..], '-');
    assert SplitOn(id, '-') == [id[..i]] + ws;
    assert MapCapitalize([id[..i]] + ws) == [Capitalize(id[..i])] + MapCapitalize(ws);
  }

  lemma TitleSpecAtDash(id: string, i: nat)
    requires IndexOf(id, '-') == Some(i)
    ensures TitleSpec(id) == Capitalize(id[..i]) + " " + TitleSpec(id[i + 1..])
  {
    var rest := id[i + 1..];
    var r := Capitalize(id[..i]) + " " + TitleSpec(rest);
    forall k | 0 <= k < |id| ensures r[k] == TitleSpec(id)[k] {
      if k < i {
        assert id[k] != '-';
        if k > 0 { assert id[k - 1] != '-'; }
      } else if k > i {
        assert rest[k - i - 1] == id[k];
        if k - i - 1 > 0 { assert rest[k - i - 2] == id[k - 1]; }
      }
    }
  }

  /** The split/capitalise/join pipeline agrees with the character-wise reading. */
  lemma {:induction false} TitleFromIdIsCharwise(id: string)
    ensures TitleFromId(id) == TitleSpec(id)
    decreases |id|
  {
    match IndexOf(id, '-')
    case None =>
      assert SplitOn(id, '-') == [id];
      assert TitleFromId(id) == Capitalize(id);
    case Some(i) =>
      TitleFromIdIsCharwise(id[i + 1..]);
      TitleFromIdAtDash(id, i);
      TitleSpecAtDash(id, i);
  }

  /** A title is as long as its id, has a space wherever the id has a dash, and differs elsewhere only in letter case. */
  lemma TitleShape(id: string)
    ensures |TitleFromId(id)| == |id|
    ensures forall k :: 0 <= k < |id| && id[k] == '-' ==> TitleFromId(id)[k] == ' '
    ensures forall k :: 0 <= k < |id| && id[k] != '-' ==> LowerChar(TitleFromId(id)[k]) == LowerChar(id[k])
  {
    TitleFromIdIsCharwise(id);
  }
}
