/**
 * Manual scores: the replace-or-append upsert keyed by benchmark, model and scorer, shared by the
 * `POST /api/scores` route and the page's `handleScoreSaved`, and the route's request checks.
 * The scores file is the `all` field of a `ScoreStore`.
 */
module Scores {
  import opened Wrappers

  datatype Score = Score(
    benchmarkId: string,
    modelId: string,
    scores: map<string, real>,
    notes: string,
    scoredBy: string,
    timestamp: int)

  datatype Key = Key(benchmarkId: string, modelId: string, scoredBy: string)

  function KeyOf(s: Score): Key {
    Key(s.benchmarkId, s.modelId, s.scoredBy)
  }

  /** `findIndex` over the key: the first index whose entry has key `k`. */
  function FindKey(all: seq<Score>, k: Key): (r: Option<nat>)
    ensures r.Some? ==> (r.value < |all| && KeyOf(all[r.value]) == k &&
      forall j :: 0 <= j < r.value ==> KeyOf(all[j]) != k)
    ensures r.None? ==> forall j :: 0 <= j < |all| ==> KeyOf(all[j]) != k
  {
    if all == [] then None
    else if KeyOf(all[0]) == k then Some(0)
    else match FindKey(all[1..], k)
      case None => None
      case Some(i) => Some(i + 1)
  }

  /** Replace the first entry with the same key, or append. */
  function Upsert(all: seq<Score>, x: Score): seq<Score> {
    match FindKey(all, KeyOf(x))
    case Some(i) => all[i := x]
    case None => all + [x]
  }

  /** With an entry of the same key present, the first one is replaced and nothing else moves. */
  lemma UpsertReplaces(all: seq<Score>, x: Score, i: nat)
    requires i < |all| && KeyOf(all[i]) == KeyOf(x) && forall j :: 0 <= j < i ==> KeyOf(all[j]) != KeyOf(x)
    ensures |Upsert(all, x)| == |all|
    ensures Upsert(all, x)[i] == x
    ensures forall j :: 0 <= j < |all| && j != i ==> Upsert(all, x)[j] == all[j]
  {
    assert FindKey(all, KeyOf(x)) == Some(i);
  }

  /** With no entry of the same key, the score is appended at the end. */
  lemma UpsertAppends(all: seq<Score>, x: Score)
    requires forall j :: 0 <= j < |all| ==> KeyOf(all[j]) != KeyOf(x)
    ensures Upsert(all, x) == all + [x]
  {
  }

  /** The length grows by at most one, the new score is in the result, and every other key keeps its entries. */
  lemma UpsertShape(all: seq<Score>, x: Score)
    ensures |all| <= |Upsert(all, x)| <= |all| + 1
    ensures x in Upsert(all, x)
    ensures forall s :: s in all && KeyOf(s) != KeyOf(x) ==> s in Upsert(all, x)
    ensures forall s :: s in Upsert(all, x) ==> s == x || s in all
  {
    match FindKey(all, KeyOf(x))
    case Some(i) =>
      var r := all[i := x];
      assert r[i] == x;
      forall s | s in all && KeyOf(s) != KeyOf(x) ensures s in r {
        var j :| 0 <= j < |all| && all[j] == s;
        assert r[j] == s;
      }
      forall s | s in r ensures s == x || s in all {
        var j :| 0 <= j < |r| && r[j] == s;
        if j != i { assert all[j] == s; }
      }
    case None =>
  }

  predicate KeysUnique(all: seq<Score>) {
    forall i, j :: 0 <= i < j < |all| ==> KeyOf(all[i]) != KeyOf(all[j])
  }

  /** If no two entries share a key before, none do after, and exactly one entry has the new key. */
  lemma UpsertKeepsKeysUnique(all: seq<Score>, x: Score)
    requires KeysUnique(all)
    ensures KeysUnique(Upsert(all, x))
    ensures forall j :: 0 <= j < |Upsert(all, x)| && KeyOf(Upsert(all, x)[j]) == KeyOf(x) ==> Upsert(all, x)[j] == x
  {
    match FindKey(all, KeyOf(x))
    case Some(i) =>
      var r := all[i := x];
      forall a, b | 0 <= a < b < |r| ensures KeyOf(r[a]) != KeyOf(r[b]) {
        if a == i {
          assert KeyOf(r[b]) == KeyOf(all[b]);
        } else if b == i {
          assert KeyOf(r[a]) == KeyOf(all[a]);
        }
      }
    case None =>
  }

  // ---------------------------------------------------------------------------------------------
  // POST /api/scores

  /** The JSON body's fields; a field that is missing or falsy (`""`, `null`) is `None`. */
  datatype ScoreRequest = ScoreRequest(
    benchmarkId: Option<string>,
    modelId: Option<string>,
    scores: Option<map<string, real>>,
    notes: Option<string>,
    scoredBy: Option<string>)

  datatype PostResponse =
    | BadRequest(error: string)
    | ServerError(error: string)
    | Saved(score: Score)

  predicate Truthy(s: Option<string>) {
    s.Some? && s.value != ""
  }

  /** `value || fallback` for a string field. */
  function OrDefault(s: Option<string>, fallback: string): (r: string)
    ensures Truthy(s) ==> r == s.value
    ensures !Truthy(s) ==> r == fallback
  {
    if Truthy(s) then s.value else fallback
  }

  /** The request checks: benchmark id, model id and scores must all be present. */
  predicate ValidRequest(req: ScoreRequest) {
    Truthy(req.benchmarkId) && Truthy(req.modelId) && req.scores.Some?
  }

  /** The score a valid request stores: scorer `manual` and empty notes by default, stamped `now`. */
  function NewScore(req: ScoreRequest, now: int): (s: Score)
    requires ValidRequest(req)
    ensures s.benchmarkId == req.benchmarkId.value && s.modelId == req.modelId.value && s.scores == req.scores.value
    ensures s.scoredBy == OrDefault(req.scoredBy, "manual") && s.notes == OrDefault(req.notes, "")
    ensures s.timestamp == now
  {
    Score(req.benchmarkId.value, req.modelId.value, req.scores.value,
          OrDefault(req.notes, ""), OrDefault(req.scoredBy, "manual"), now)
  }

  /** The stored scores; the JSON file is left out, so a missing or unreadable file is an empty list. */
  class ScoreStore {
    var all: seq<Score>

    constructor(initial: seq<Score>)
      ensures all == initial
    {
      all := initial;
    }

    /** `POST`: an unreadable body is a server error carrying what was thrown, an incomplete one a 400
        that saves nothing; otherwise the new score replaces the first entry with its key or is
        appended, and is returned. */
    method Post(body: Body<ScoreRequest>, now: int) returns (resp: PostResponse)
      modifies this
      ensures body.Unreadable? ==> resp == ServerError(ThrownMessage(body.thrown)) && all == old(all)
      ensures body.Parsed? && !ValidRequest(body.req) ==>
        resp == BadRequest("benchmarkId, modelId, and scores are required") && all == old(all)
      ensures body.Parsed? && ValidRequest(body.req) ==>
        resp == Saved(NewScore(body.req, now)) && all == Upsert(old(all), NewScore(body.req, now))
    {
      if body.Unreadable? {
        return ServerError(ThrownMessage(body.thrown));
      }
      var req := body.req;
      if !ValidRequest(req) {
        return BadRequest("benchmarkId, modelId, and scores are required");
      }
      var newScore := NewScore(req, now);
      var idx := FindKey(all, KeyOf(newScore));
      if idx.Some? {
        all := all[idx.value := newScore];
      } else {
        all := all + [newScore];
      }
      resp := Saved(newScore);
    }
  }

  /** A request the route saves keeps keys unique in the store, and the stored score is the only
      entry with its key. */
  lemma PostKeepsKeysUnique(all: seq<Score>, req: ScoreRequest, now: int)
    requires KeysUnique(all) && ValidRequest(req)
    ensures KeysUnique(Upsert(all, NewScore(req, now)))
    ensures NewScore(req, now) in Upsert(all, NewScore(req, now))
  {
    UpsertKeepsKeysUnique(all, NewScore(req, now));
    UpsertShape(all, NewScore(req, now));
  }
}
