/**
 * The past-results panel: which benchmarks are listed, and the model-to-benchmarks inversion
 * behind its "by model" view, sorted by display name. A `Record<string, string[]>` is its
 * `Object.entries` list.
 */
module PastResults {
  import opened Sorting

  type Entry = (string, seq<string>)

  /** `Object.entries(pastResults).filter(([, models]) => models.length > 0)`. */
  function KeptEntries(pastResults: seq<Entry>): (r: seq<Entry>)
    ensures forall e :: e in r <==> e in pastResults && |e.1| > 0
    ensures |r| <= |pastResults|
  {
    if pastResults == [] then []
    else
      var rest := KeptEntries(pastResults[1..]);
      assert forall e :: e in pastResults <==> e == pastResults[0] || e in pastResults[1..];
      if |pastResults[0].1| > 0 then [pastResults[0]] + rest else rest
  }

  /** The panel renders nothing exactly when no benchmark has a result. */
  lemma RendersNothingIff(pastResults: seq<Entry>)
    ensures KeptEntries(pastResults) == [] <==> forall e :: e in pastResults ==> e.1 == []
  {
    if KeptEntries(pastResults) != [] {
      assert KeptEntries(pastResults)[0] in KeptEntries(pastResults);
    }
  }

  // ---------------------------------------------------------------------------------------------
  // the inversion

  /** A (model, benchmark) pair, in the order the nested loop visits them. */
  type Pair = (string, string)

  /** The pairs one entry contributes: each of its model ids with its benchmark. */
  function PairsOf(benchmarkId: string, modelIds: seq<string>): (ps: seq<Pair>)
    ensures |ps| == |modelIds|
    ensures forall k :: 0 <= k < |ps| ==> ps[k] == (modelIds[k], benchmarkId)
    decreases |modelIds|
  {
    if modelIds == [] then [] else PairsOf(benchmarkId, modelIds[..|modelIds| - 1]) + [(modelIds[|modelIds| - 1], benchmarkId)]
  }

  /** Every pair the loop visits. */
  function Pairs(entries: seq<Entry>): seq<Pair>
    decreases |entries|
  {
    if entries == [] then []
    else
      var n := |entries| - 1;
      Pairs(entries[..n]) + PairsOf(entries[n].0, entries[n].1)
  }

  /** `byModel` after visiting the pairs `ps`. */
  function GroupOf(ps: seq<Pair>): map<string, seq<string>>
    decreases |ps|
  {
    if ps == [] then map[]
    else
      var g := GroupOf(ps[..|ps| - 1]);
      var (m, b) := ps[|ps| - 1];
      g[m := (if m in g then g[m] else []) + [b]]
  }

  /** The key order of `byModel`: each model at its first visit. */
  function OrderOf(ps: seq<Pair>): seq<string>
    decreases |ps|
  {
    if ps == [] then []
    else
      var init := ps[..|ps| - 1];
      var m := ps[|ps| - 1].0;
      if m in GroupOf(init) then OrderOf(init) else OrderOf(init) + [m]
  }

  /** The benchmarks paired with `m`, in visiting order. */
  function Select(ps: seq<Pair>, m: string): seq<string>
    decreases |ps|
  {
    if ps == [] then []
    else
      var n := |ps| - 1;
      Select(ps[..n], m) + (if ps[n].0 == m then [ps[n].1] else [])
  }

  /** The nested loop of the panel: for each kept benchmark and each of its model ids, create the
      model's list if missing, then push the benchmark. */
  method ByModel(entries: seq<Entry>) returns (byModel: map<string, seq<string>>, order: seq<string>)
    ensures byModel == GroupOf(Pairs(entries))
    ensures order == OrderOf(Pairs(entries))
  {
    byModel, order := map[], [];
    for i := 0 to |entries|
      invariant byModel == GroupOf(Pairs(entries[..i])) && order == OrderOf(Pairs(entries[..i]))
    {
      PairsStep(entries, i);
      byModel, order := AddBenchmark(byModel, order, entries[i].0, entries[i].1, Pairs(entries[..i]));
    }
    assert entries[..|entries|] == entries;
  }

  /** The inner loop: the pairs of one benchmark, visited after the pairs `done`. */
  method AddBenchmark(byModel0: map<string, seq<string>>, order0: seq<string>, benchmarkId: string,
                      modelIds: seq<string>, ghost done: seq<Pair>)
    returns (byModel: map<string, seq<string>>, order: seq<string>)
    requires byModel0 == GroupOf(done) && order0 == OrderOf(done)
    ensures byModel == GroupOf(done + PairsOf(benchmarkId, modelIds))
    ensures order == OrderOf(done + PairsOf(benchmarkId, modelIds))
  {
    byModel, order := byModel0, order0;
    ghost var visited := done;
    assert done + PairsOf(benchmarkId, modelIds[..0]) == done;
    for j := 0 to |modelIds|
      invariant visited == done + PairsOf(benchmarkId, modelIds[..j])
      invariant byModel == GroupOf(visited) && order == OrderOf(visited)
    {
      var modelId := modelIds[j];
      AddStep(done, benchmarkId, modelIds, j);
      PushStep(byModel, order, visited, modelId, benchmarkId);
      if modelId !in byModel {
        byModel := byModel[modelId := []];
        order := order + [modelId];
      }
      byModel := byModel[modelId := byModel[modelId] + [benchmarkId]];
      visited := visited + [(modelId, benchmarkId)];
    }
    assert modelIds[..|modelIds|] == modelIds;
  }

  lemma AddStep(done: seq<Pair>, benchmarkId: string, modelIds: seq<string>, j: nat)
    requires j < |modelIds|
    ensures done + PairsOf(benchmarkId, modelIds[..j + 1]) == (done + PairsOf(benchmarkId, modelIds[..j])) + [(modelIds[j], benchmarkId)]
  {
    assert modelIds[..j + 1][..j] == modelIds[..j];
  }

  lemma PairsStep(entries: seq<Entry>, i: nat)
    requires i < |entries|
    ensures Pairs(entries[..i + 1]) == Pairs(entries[..i]) + PairsOf(entries[i].0, entries[i].1)
  {
    assert entries[..i + 1][..i] == entries[..i];
  }

  /** The loop body's two updates, creating the list when missing and then pushing, are one
      visit of the pair. */
  lemma PushStep(byModel: map<string, seq<string>>, order: seq<string>, visited: seq<Pair>, m: string, b: string)
    requires byModel == GroupOf(visited) && order == OrderOf(visited)
    ensures var g := if m !in byModel then byModel[m := []] else byModel;
            g[m := g[m] + [b]] == GroupOf(visited + [(m, b)])
    ensures (if m !in byModel then order + [m] else order) == OrderOf(visited + [(m, b)])
  {
    VisitStep(visited, m, b);
    var g := if m !in byModel then byModel[m := []] else byModel;
    assert g[m := g[m] + [b]] == byModel[m := (if m in byModel then byModel[m] else []) + [b]];
  }

  /** Visiting one more pair creates the model's list if missing, then pushes the benchmark. */
  lemma VisitStep(done: seq<Pair>, m: string, b: string)
    ensures GroupOf(done + [(m, b)]) == GroupOf(done)[m := (if m in GroupOf(done) then GroupOf(done)[m] else []) + [b]]
    ensures OrderOf(done + [(m, b)]) == if m in GroupOf(done) then OrderOf(done) else OrderOf(done) + [m]
  {
    assert (done + [(m, b)])[..|done|] == done;
  }

  /** Each model's list is exactly the benchmarks it was visited with, in visiting order (so in
      entries order), and a model has a list only if it was visited at least once. */
  lemma {:induction false} GroupIsSelect(ps: seq<Pair>)
    ensures forall m :: m in GroupOf(ps) ==> GroupOf(ps)[m] == Select(ps, m)
    ensures forall m :: m !in GroupOf(ps) ==> Select(ps, m) == []
    ensures forall m :: m in GroupOf(ps) ==> |GroupOf(ps)[m]| > 0
    decreases |ps|
  {
    if ps != [] {
      GroupIsSelect(ps[..|ps| - 1]);
    }
  }

  lemma {:induction false} SelectMembership(ps: seq<Pair>, m: string, b: string)
    ensures b in Select(ps, m) <==> (m, b) in ps
    decreases |ps|
  {
    if ps != [] {
      var n := |ps| - 1;
      SelectMembership(ps[..n], m, b);
      assert ps == ps[..n] + [ps[n]];
    }
  }

  lemma {:induction false} PairsMembership(entries: seq<Entry>, m: string, b: string)
    ensures (m, b) in Pairs(entries) <==> exists e :: e in entries && e.0 == b && m in e.1
    decreases |entries|
  {
    if entries != [] {
      var n := |entries| - 1;
      PairsMembership(entries[..n], m, b);
      var last := PairsOf(entries[n].0, entries[n].1);
      assert (m, b) in last <==> entries[n].0 == b && m in entries[n].1 by {
        if (m, b) in last {
          var k :| 0 <= k < |last| && last[k] == (m, b);
          assert entries[n].1[k] == m;
        }
        if entries[n].0 == b && m in entries[n].1 {
          var k :| 0 <= k < |entries[n].1| && entries[n].1[k] == m;
          assert last[k] == (m, b);
        }
      }
      assert entries == entries[..n] + [entries[n]];
    }
  }

  /** Benchmark `b` is in `byModel[m]` exactly when `m` is among the models of a kept entry for `b`. */
  lemma InversionMembership(pastResults: seq<Entry>, m: string, b: string)
    ensures var g := GroupOf(Pairs(KeptEntries(pastResults)));
      (m in g && b in g[m]) <==> exists e :: e in pastResults && |e.1| > 0 && e.0 == b && m in e.1
  {
    var ps := Pairs(KeptEntries(pastResults));
    GroupIsSelect(ps);
    SelectMembership(ps, m, b);
    PairsMembership(KeptEntries(pastResults), m, b);
  }

  // ---------------------------------------------------------------------------------------------
  // counting

  function TotalModels(entries: seq<Entry>): nat
    decreases |entries|
  {
    if entries == [] then 0 else TotalModels(entries[..|entries| - 1]) + |entries[|entries| - 1].1|
  }

  lemma {:induction false} PairsCount(entries: seq<Entry>)
    ensures |Pairs(entries)| == TotalModels(entries)
    decreases |entries|
  {
    if entries != [] {
      PairsCount(entries[..|entries| - 1]);
    }
  }

  /** The sum of the list lengths of `group` over the keys in `order`. */
  function TotalOver(order: seq<string>, group: map<string, seq<string>>): nat
    decreases |order|
  {
    if order == [] then 0
    else
      var n := |order| - 1;
      TotalOver(order[..n], group) + (if order[n] in group then |group[order[n]]| else 0)
  }

  lemma {:induction false} OrderIsKeys(ps: seq<Pair>)
    ensures forall m :: m in OrderOf(ps) <==> m in GroupOf(ps)
    ensures forall i, j :: 0 <= i < j < |OrderOf(ps)| ==> OrderOf(ps)[i] != OrderOf(ps)[j]
    decreases |ps|
  {
    if ps != [] {
      OrderIsKeys(ps[..|ps| - 1]);
    }
  }

  /** Growing the list of one key that occurs once in `order` by one grows the total by one. */
  lemma {:induction false} TotalOverBump(order: seq<string>, group: map<string, seq<string>>, m: string, b: string)
    requires forall i, j :: 0 <= i < j < |order| ==> order[i] != order[j]
    requires m in order && m in group
    ensures TotalOver(order, group[m := group[m] + [b]]) == TotalOver(order, group) + 1
    decreases |order|
  {
    var n := |order| - 1;
    if order[n] == m {
      assert m !in order[..n];
      TotalOverSame(order[..n], group, m, group[m] + [b]);
    } else {
      assert m in order[..n];
      TotalOverBump(order[..n], group, m, b);
    }
  }

  lemma {:induction false} TotalOverSame(order: seq<string>, group: map<string, seq<string>>, m: string, v: seq<string>)
    requires m !in order
    ensures TotalOver(order, group[m := v]) == TotalOver(order, group)
    decreases |order|
  {
    if order != [] {
      TotalOverSame(order[..|order| - 1], group, m, v);
    }
  }

  /** The inversion keeps every (model, benchmark) pair: the lists of `byModel` hold as many entries
      in total as the kept benchmarks list models. */
  lemma {:induction false} InversionCount(ps: seq<Pair>)
    ensures TotalOver(OrderOf(ps), GroupOf(ps)) == |ps|
    decreases |ps|
  {
    if ps != [] {
      var init := ps[..|ps| - 1];
      var (m, b) := ps[|ps| - 1];
      var g := GroupOf(init);
      InversionCount(init);
      OrderIsKeys(init);
      if m in g {
        TotalOverBump(OrderOf(init), g, m, b);
      } else {
        assert m !in OrderOf(init);
        var o := OrderOf(init) + [m];
        assert [] + [b] == [b];
        assert OrderOf(ps) == o && GroupOf(ps) == g[m := [b]];
        assert o[..|o| - 1] == OrderOf(init);
        TotalOverSame(OrderOf(init), g, m, [b]);
        assert TotalOver(o, g[m := [b]]) == TotalOver(OrderOf(init), g[m := [b]]) + 1;
      }
    }
  }

  /** Summed over the panel's models, the lists count every model listed under a kept benchmark. */
  lemma InversionPreservesPairs(pastResults: seq<Entry>)
    ensures var ps := Pairs(KeptEntries(pastResults));
      TotalOver(OrderOf(ps), GroupOf(ps)) == TotalModels(KeptEntries(pastResults))
  {
    InversionCount(Pairs(KeptEntries(pastResults)));
    PairsCount(KeptEntries(pastResults));
  }

  // ---------------------------------------------------------------------------------------------
  // the sort

  /** `modelNames[m] || m`: the name, unless it is missing or empty. */
  function DisplayName(modelNames: map<string, string>, m: string): string {
    if m in modelNames && modelNames[m] != "" then modelNames[m] else m
  }

  function EntriesOf(order: seq<string>, group: map<string, seq<string>>): (r: seq<Entry>)
    requires forall m :: m in order ==> m in group
    ensures |r| == |order| && forall k :: 0 <= k < |r| ==> r[k] == (order[k], group[order[k]])
  {
    seq(|order|, k requires 0 <= k < |order| => (order[k], group[order[k]]))
  }

  /** `modelEntries`: the entries of `byModel` sorted by display name. */
  function ModelEntries(pastResults: seq<Entry>, modelNames: map<string, string>): (r: seq<Entry>)
    ensures SortedBy(r, (e: Entry) => DisplayName(modelNames, e.0))
  {
    var ps := Pairs(KeptEntries(pastResults));
    OrderIsKeys(ps);
    SortBy(EntriesOf(OrderOf(ps), GroupOf(ps)), (e: Entry) => DisplayName(modelNames, e.0))
  }

  /** The sorted list has one entry per model of `byModel`, with its list, and nothing else. */
  lemma ModelEntriesContents(pastResults: seq<Entry>, modelNames: map<string, string>)
    ensures var g := GroupOf(Pairs(KeptEntries(pastResults)));
      (forall e :: e in ModelEntries(pastResults, modelNames) <==> e.0 in g && e.1 == g[e.0])
  {
    var ps := Pairs(KeptEntries(pastResults));
    var g := GroupOf(ps);
    OrderIsKeys(ps);
    var es := EntriesOf(OrderOf(ps), g);
    var r := ModelEntries(pastResults, modelNames);
    assert multiset(r) == multiset(es);
    forall e ensures e in r <==> e.0 in g && e.1 == g[e.0] {
      if e in r {
        assert e in multiset(es);
        var k :| 0 <= k < |es| && es[k] == e;
      }
      if e.0 in g && e.1 == g[e.0] {
        var k :| 0 <= k < |OrderOf(ps)| && OrderOf(ps)[k] == e.0;
        assert es[k] == e;
        assert e in multiset(r);
      }
    }
  }
}
