/**
 * The experiment driver: one batch of trials per prompt template, covering
 * every ordered pair of distinct colour positions, and the session loop that
 * accumulates the batches, refits the ranking on everything seen so far and
 * records how far each new ranking moved from the previous one.
 *
 * The language model is abstract: a `Logits` function gives the model's
 * next-token score for an option, given the template and the two colours shown.
 */
module Experiment {
  import opened Items
  import opened PrefModels
  import opened Metrics

  /** `logits(template, a, b, option)`: the score of `option` after the prompt built from `template` with A = a, B = b. */
  type Logits = (Template, Item, Item, Item) -> real

  /** The oracle's verdict: the first option only on a strictly higher score, otherwise the second. */
  function Judge(logits: Logits, template: Template, a: Item, b: Item): (w: Item)
    ensures w == a || w == b
    ensures logits(template, a, b, a) > logits(template, a, b, b) ==> w == a
    ensures logits(template, a, b, a) <= logits(template, a, b, b) ==> w == b
  {
    if logits(template, a, b, a) > logits(template, a, b, b) then a else b
  }

  // ---------------------------------------------------------------------------
  // itertools.permutations(colors, 2)
  // ---------------------------------------------------------------------------

  /** The pairs (colors[i], colors[b]) for b below j, b != i, in increasing b. */
  function RowPairs(colors: seq<Item>, i: nat, j: nat): (r: seq<(Item, Item)>)
    requires i < |colors| && j <= |colors|
    ensures |r| == if i < j then j - 1 else j
  {
    if j == 0 then []
    else RowPairs(colors, i, j - 1) + (if j - 1 == i then [] else [(colors[i], colors[j - 1])])
  }

  /** The rows for first positions 0 .. i - 1, one after the other. */
  function PairsUpTo(colors: seq<Item>, i: nat): (r: seq<(Item, Item)>)
    requires i <= |colors|
    ensures |r| == i * (|colors| - 1)
  {
    if i == 0 then []
    else
      var prev := PairsUpTo(colors, i - 1);
      assert |prev| + (|colors| - 1) == i * (|colors| - 1);
      prev + RowPairs(colors, i - 1, |colors|)
  }

  /** Every ordered pair of two different positions, in lexicographic order of positions. */
  function OrderedPairs(colors: seq<Item>): (r: seq<(Item, Item)>)
    ensures |r| == |colors| * (|colors| - 1)
  {
    PairsUpTo(colors, |colors|)
  }

  lemma {:induction false} RowPairsIndex(colors: seq<Item>, i: nat, j: nat, m: nat, k: nat)
    requires i < |colors| && j <= m <= |colors| && k < |RowPairs(colors, i, j)|
    ensures k < |RowPairs(colors, i, m)| && RowPairs(colors, i, m)[k] == RowPairs(colors, i, j)[k]
  {
    if j < m {
      RowPairsIndex(colors, i, j, m - 1, k);
    }
  }

  lemma {:induction false} PairsUpToIndex(colors: seq<Item>, i: nat, m: nat, k: nat)
    requires i <= m <= |colors| && k < |PairsUpTo(colors, i)|
    ensures k < |PairsUpTo(colors, m)| && PairsUpTo(colors, m)[k] == PairsUpTo(colors, i)[k]
  {
    if i < m {
      PairsUpToIndex(colors, i, m - 1, k);
    }
  }

  /** Where the pair of positions (a, b) sits within its row. */
  function Column(a: nat, b: nat): nat
    requires a != b
  {
    if b < a then b else b - 1
  }

  lemma RowPairAt(colors: seq<Item>, a: nat, b: nat)
    requires a < |colors| && b < |colors| && a != b
    ensures Column(a, b) < |colors| - 1
    ensures RowPairs(colors, a, |colors|)[Column(a, b)] == (colors[a], colors[b])
  {
    assert RowPairs(colors, a, b + 1)[Column(a, b)] == (colors[a], colors[b]);
    RowPairsIndex(colors, a, b + 1, |colors|, Column(a, b));
  }

  /** The pair of positions (a, b), a != b, comes out at index a * (n - 1) + Column(a, b). */
  lemma PairAt(colors: seq<Item>, a: nat, b: nat)
    requires a < |colors| && b < |colors| && a != b
    ensures a * (|colors| - 1) + Column(a, b) < |OrderedPairs(colors)|
    ensures OrderedPairs(colors)[a * (|colors| - 1) + Column(a, b)] == (colors[a], colors[b])
  {
    var n := |colors|;
    RowPairAt(colors, a, b);
    var c := Column(a, b);
    var k := a * (n - 1) + c;
    RowOffset(a, c, n);
    var before, row := PairsUpTo(colors, a), RowPairs(colors, a, n);
    assert PairsUpTo(colors, a + 1) == before + row;
    assert (before + row)[k] == row[c];
    PairsUpToIndex(colors, a + 1, n, k);
  }

  /** Offset c within row a lies inside the first a + 1 rows. */
  lemma RowOffset(a: nat, c: nat, n: nat)
    requires a < n && c < n - 1
    ensures a * (n - 1) + c < (a + 1) * (n - 1)
    ensures (a + 1) * (n - 1) <= n * (n - 1)
  {
    assert (a + 1) * (n - 1) == a * (n - 1) + (n - 1);
  }

  /** Index k splits into row k / (n - 1) and column k % (n - 1), the row being a position. */
  lemma RowOfIndex(k: nat, n: nat)
    requires n >= 2 && k < n * (n - 1)
    ensures k == (k / (n - 1)) * (n - 1) + k % (n - 1)
    ensures k / (n - 1) < n && k % (n - 1) < n - 1
  {
  }

  /** The first position of the pair at index k. */
  function FirstOf(n: nat, k: nat): nat
    requires n >= 2
  {
    k / (n - 1)
  }

  /** The second position of the pair at index k. */
  function SecondOf(n: nat, k: nat): nat
    requires n >= 2
  {
    var c := k % (n - 1);
    if c < k / (n - 1) then c else c + 1
  }

  /** Index k holds the pair of positions (FirstOf, SecondOf): two different positions. */
  lemma PairsAtIndex(colors: seq<Item>, k: nat)
    requires |colors| >= 2 && k < |OrderedPairs(colors)|
    ensures FirstOf(|colors|, k) < |colors| && SecondOf(|colors|, k) < |colors|
    ensures FirstOf(|colors|, k) != SecondOf(|colors|, k)
    ensures OrderedPairs(colors)[k] == (colors[FirstOf(|colors|, k)], colors[SecondOf(|colors|, k)])
  {
    var n := |colors|;
    var a, c := k / (n - 1), k % (n - 1);
    RowOfIndex(k, n);
    var b := SecondOf(n, k);
    assert Column(a, b) == c;
    PairAt(colors, a, b);
  }

  /** Both presentation orders of every pair occur. */
  lemma BothOrders(colors: seq<Item>, k: nat)
    requires k < |OrderedPairs(colors)|
    ensures (OrderedPairs(colors)[k].1, OrderedPairs(colors)[k].0) in OrderedPairs(colors)
  {
    var n := |colors|;
    if n >= 2 {
      PairsAtIndex(colors, k);
      PairAt(colors, SecondOf(n, k), FirstOf(n, k));
    }
  }

  /** Both colours of every pair are among the colours, and without repeats they differ. */
  lemma PairsOfColors(colors: seq<Item>, k: nat)
    requires k < |OrderedPairs(colors)|
    ensures OrderedPairs(colors)[k].0 in colors && OrderedPairs(colors)[k].1 in colors
    ensures Distinct(colors) ==> OrderedPairs(colors)[k].0 != OrderedPairs(colors)[k].1
  {
    if |colors| >= 2 {
      PairsAtIndex(colors, k);
    }
  }

  // ---------------------------------------------------------------------------
  // One batch of trials
  // ---------------------------------------------------------------------------

  /** The record appended for one ordered pair. */
  function TrialFor(logits: Logits, template: Template, pair: (Item, Item)): (t: Trial)
    ensures t.player1 == pair.0 && t.player2 == pair.1 && t.template == template
    ensures t.winner == t.player1 || t.winner == t.player2
  {
    Trial(pair.0, pair.1, Judge(logits, template, pair.0, pair.1), template)
  }

  /** The results table `run_experiment` returns for one template. */
  function Batch(colors: seq<Item>, template: Template, logits: Logits): (r: seq<Trial>)
    ensures |r| == |colors| * (|colors| - 1)
    ensures forall k :: 0 <= k < |r| ==> r[k] == TrialFor(logits, template, OrderedPairs(colors)[k])
  {
    var pairs := OrderedPairs(colors);
    seq(|pairs|, k requires 0 <= k < |pairs| => TrialFor(logits, template, pairs[k]))
  }

  /** Every record's winner and loser are colours of the session. */
  lemma BatchKnown(colors: seq<Item>, template: Template, logits: Logits)
    ensures AllKnown(Batch(colors, template, logits), colors)
  {
    var r := Batch(colors, template, logits);
    forall k | 0 <= k < |r| ensures r[k].winner in colors && Loser(r[k]) in colors {
      PairsOfColors(colors, k);
    }
  }

  /** With distinct colours nobody plays themself, and each trial has exactly one loser. */
  lemma BatchPlayersDiffer(colors: seq<Item>, template: Template, logits: Logits, k: nat)
    requires Distinct(colors) && k < |Batch(colors, template, logits)|
    ensures Batch(colors, template, logits)[k].player1 != Batch(colors, template, logits)[k].player2
    ensures Loser(Batch(colors, template, logits)[k]) != Batch(colors, template, logits)[k].winner
  {
    PairsOfColors(colors, k);
  }

  /** `run_experiment`: one record per ordered pair, appended in permutations order. */
  method RunExperiment(colors: seq<Item>, template: Template, logits: Logits) returns (results: seq<Trial>)
    ensures results == Batch(colors, template, logits)
  {
    var pairs := OrderedPairs(colors);
    results := [];
    for k := 0 to |pairs|
      invariant |results| == k
      invariant forall q :: 0 <= q < k ==> results[q] == TrialFor(logits, template, pairs[q])
    {
      var (a, b) := pairs[k];
      var winner := Judge(logits, template, a, b);
      results := results + [Trial(a, b, winner, template)];
    }
  }

  // ---------------------------------------------------------------------------
  // The session
  // ---------------------------------------------------------------------------

  /** The cumulative results after the given templates: their batches concatenated in order. */
  function Cumulative(colors: seq<Item>, templates: seq<Template>, logits: Logits): seq<Trial>
  {
    if templates == [] then []
    else Cumulative(colors, templates[..|templates| - 1], logits) + Batch(colors, templates[|templates| - 1], logits)
  }

  /** After k templates the results hold k batches of n(n - 1) records. */
  lemma {:induction false} CumulativeLength(colors: seq<Item>, templates: seq<Template>, logits: Logits)
    ensures |Cumulative(colors, templates, logits)| == |templates| * (|colors| * (|colors| - 1))
    decreases |templates|
  {
    if templates != [] {
      var m := |templates|;
      CumulativeLength(colors, templates[..m - 1], logits);
      assert (m - 1) * (|colors| * (|colors| - 1)) + |colors| * (|colors| - 1) == m * (|colors| * (|colors| - 1));
    }
  }

  lemma CumulativeSnoc(colors: seq<Item>, templates: seq<Template>, i: nat, logits: Logits)
    requires i < |templates|
    ensures Cumulative(colors, templates[..i + 1], logits)
         == Cumulative(colors, templates[..i], logits) + Batch(colors, templates[i], logits)
  {
    assert templates[..i + 1][..i] == templates[..i];
  }

  /** The batches of a longer session extend those of a shorter one. */
  lemma {:induction false} CumulativeAppend(colors: seq<Item>, s: seq<Template>, t: seq<Template>, logits: Logits)
    ensures Cumulative(colors, s + t, logits) == Cumulative(colors, s, logits) + Cumulative(colors, t, logits)
    decreases |t|
  {
    if t == [] {
      assert s + t == s;
    } else {
      var init := t[..|t| - 1];
      SplitLast(s, t);
      assert Cumulative(colors, s + t, logits)
          == Cumulative(colors, s + init, logits) + Batch(colors, t[|t| - 1], logits);
      CumulativeAppend(colors, s, init, logits);
    }
  }

  lemma {:induction false} CumulativeKnown(colors: seq<Item>, templates: seq<Template>, logits: Logits)
    ensures AllKnown(Cumulative(colors, templates, logits), colors)
    decreases |templates|
  {
    if templates != [] {
      var prev := Cumulative(colors, templates[..|templates| - 1], logits);
      var batch := Batch(colors, templates[|templates| - 1], logits);
      CumulativeKnown(colors, templates[..|templates| - 1], logits);
      BatchKnown(colors, templates[|templates| - 1], logits);
      forall k | 0 <= k < |prev + batch| ensures Known((prev + batch)[k], colors) {
        if k < |prev| {
          assert (prev + batch)[k] == prev[k];
        } else {
          assert (prev + batch)[k] == batch[k - |prev|];
        }
      }
    }
  }

  /** The ranking fitted after template i: on all results of templates 0 .. i. */
  function Fitted(colors: seq<Item>, templates: seq<Template>, logits: Logits, optimiser: Optimiser, i: nat): (r: seq<Entry>)
    requires |colors| > 0 && Distinct(colors) && i < |templates|
    requires forall w :: |optimiser(w)| == |w|
    ensures NonIncreasing(r)
    ensures multiset(Labels(r)) == multiset(colors)
    ensures Distinct(Labels(r)) && |Labels(r)| == |colors|
    ensures ItemSet(Labels(r)) == ItemSet(colors)
  {
    CumulativeKnown(colors, templates[..i + 1], logits);
    var r := Ranking(Cumulative(colors, templates[..i + 1], logits), colors, optimiser);
    DistinctPermutation(colors, Labels(r));
    SameItems(colors, Labels(r));
    assert |multiset(Labels(r))| == |multiset(colors)|;
    r
  }

  lemma SameItems(s: seq<Item>, t: seq<Item>)
    requires multiset(s) == multiset(t)
    ensures ItemSet(s) == ItemSet(t)
  {
    forall x ensures x in ItemSet(s) <==> x in ItemSet(t) {
      assert x in s <==> x in multiset(s);
      assert x in t <==> x in multiset(t);
    }
  }

  /** Each win count only grows from one refit to the next: the fitter always sees every earlier batch. */
  lemma WinsGrowOverSession(colors: seq<Item>, templates: seq<Template>, logits: Logits, i: nat, j: nat, p: nat, q: nat)
    requires i <= j <= |templates|
    ensures AllKnown(Cumulative(colors, templates[..i], logits), colors)
    ensures AllKnown(Cumulative(colors, templates[..j], logits), colors)
    ensures Count(Cumulative(colors, templates[..i], logits), colors, p, q)
         <= Count(Cumulative(colors, templates[..j], logits), colors, p, q)
  {
    assert templates[..j] == templates[..i] + templates[i..j];
    CumulativeAppend(colors, templates[..i], templates[i..j], logits);
    CumulativeKnown(colors, templates[..j], logits);
    CumulativeKnown(colors, templates[..i], logits);
    WinsNeverDecrease(Cumulative(colors, templates[..i], logits), Cumulative(colors, templates[i..j], logits), colors);
  }

  /** One row of the rankings history: a ranking tagged with its iteration. */
  datatype Snapshot = Snapshot(ranking: seq<Entry>, iteration: nat)

  /** The rankings history after m iterations: the ranking fitted after each template, tagged by its index. */
  function History(colors: seq<Item>, templates: seq<Template>, logits: Logits, optimiser: Optimiser, m: nat)
    : (h: seq<Snapshot>)
    requires |colors| > 0 && Distinct(colors) && m <= |templates|
    requires forall w :: |optimiser(w)| == |w|
    ensures |h| == m
    ensures forall q :: 0 <= q < m ==> h[q] == Snapshot(Fitted(colors, templates, logits, optimiser, q), q)
  {
    seq(m, q requires 0 <= q < m => Snapshot(Fitted(colors, templates, logits, optimiser, q), q))
  }

  /** A snapshot that ranks exactly the session's colours, each once. */
  predicate RanksColors(s: Snapshot, colors: seq<Item>)
  {
    Distinct(Labels(s.ranking)) && |Labels(s.ranking)| == |colors| && ItemSet(Labels(s.ranking)) == ItemSet(colors)
  }

  /**
   * `calculate_kendall_distance(previous['Color'], current['Color'])` as the
   * repository computes it, which succeeds on two rankings of the same colours.
   */
  function Moved(previous: Snapshot, current: Snapshot, colors: seq<Item>): (d: real)
    requires |colors| >= 2 && RanksColors(previous, colors) && RanksColors(current, colors)
    ensures 0.0 <= d <= 1.0
    ensures Success(d) == KendallDistance(Labels(previous.ranking), Labels(current.ranking))
  {
    KendallDistance(Labels(previous.ranking), Labels(current.ranking)).value
  }

  /**
   * The session's distance between a ranking and its exact reverse: the
   * program reports 1/3 where the corrected rank distance is 1.
   */
  lemma MovedReversal(previous: Snapshot, current: Snapshot)
    requires Labels(previous.ranking) == ["red", "blue", "green"]
    requires Labels(current.ranking) == ["green", "blue", "red"]
    ensures RanksColors(previous, ["red", "blue", "green"]) && RanksColors(current, ["red", "blue", "green"])
    ensures Moved(previous, current, ["red", "blue", "green"]) == 1.0 / 3.0
    ensures RankDistance(Labels(previous.ranking), Labels(current.ranking)) == Success(1.0)
  {
    KendallReversalCounterexample();
    var b: seq<Item> := ["green", "blue", "red"];
    assert ItemSet(b) == ItemSet(["red", "blue", "green"]) by {
      assert forall x :: x in b <==> x in ["red", "blue", "green"];
    }
  }

  /** The distances a rankings history produces: each snapshot against the one before it. */
  function Drift(h: seq<Snapshot>, colors: seq<Item>): (d: seq<real>)
    requires |colors| >= 2 && forall q :: 0 <= q < |h| ==> RanksColors(h[q], colors)
    ensures |d| == if h == [] then 0 else |h| - 1
  {
    if |h| <= 1 then [] else Drift(h[..|h| - 1], colors) + [Moved(h[|h| - 2], h[|h| - 1], colors)]
  }

  /** Entry q of the distances compares snapshot q with snapshot q + 1. */
  lemma {:induction false} DriftAt(h: seq<Snapshot>, colors: seq<Item>, q: nat)
    requires |colors| >= 2 && forall k :: 0 <= k < |h| ==> RanksColors(h[k], colors)
    requires q + 1 < |h|
    ensures |Drift(h, colors)| == |h| - 1
    ensures Drift(h, colors)[q] == Moved(h[q], h[q + 1], colors)
  {
    var init := h[..|h| - 1];
    var prev := Drift(init, colors);
    var last := Moved(h[|h| - 2], h[|h| - 1], colors);
    if q + 2 < |h| {
      DriftAt(init, colors, q);
      assert init[q] == h[q] && init[q + 1] == h[q + 1];
      assert (prev + [last])[q] == prev[q];
    } else {
      assert (prev + [last])[q] == last;
    }
  }

  lemma DriftSnoc(h: seq<Snapshot>, s: Snapshot, colors: seq<Item>)
    requires |colors| >= 2 && forall q :: 0 <= q < |h| ==> RanksColors(h[q], colors)
    requires RanksColors(s, colors) && h != []
    ensures forall q :: 0 <= q < |h + [s]| ==> RanksColors((h + [s])[q], colors)
    ensures Drift(h + [s], colors) == Drift(h, colors) + [Moved(h[|h| - 1], s, colors)]
  {
    assert (h + [s])[..|h|] == h;
    forall q | 0 <= q < |h + [s]| ensures RanksColors((h + [s])[q], colors) {
      if q < |h| { assert (h + [s])[q] == h[q]; }
    }
  }

  lemma HistorySnoc(colors: seq<Item>, templates: seq<Template>, logits: Logits, optimiser: Optimiser, i: nat)
    requires |colors| > 0 && Distinct(colors) && i < |templates|
    requires forall w :: |optimiser(w)| == |w|
    ensures History(colors, templates, logits, optimiser, i + 1)
         == History(colors, templates, logits, optimiser, i) + [Snapshot(Fitted(colors, templates, logits, optimiser, i), i)]
  {
  }

  /** One iteration's batch and refit: run the template's trials, extend the cumulative results, fit on all of them. */
  method Refit(colors: seq<Item>, templates: seq<Template>, logits: Logits, optimiser: Optimiser, i: nat, results: seq<Trial>)
    returns (extended: seq<Trial>, ranking: seq<Entry>)
    requires Distinct(colors) && |colors| >= 2 && i < |templates|
    requires forall w :: |optimiser(w)| == |w|
    requires results == Cumulative(colors, templates[..i], logits)
    ensures extended == Cumulative(colors, templates[..i + 1], logits)
    ensures ranking == Fitted(colors, templates, logits, optimiser, i)
    ensures RanksColors(Snapshot(ranking, i), colors)
  {
    var batch := RunExperiment(colors, templates[i], logits);
    CumulativeSnoc(colors, templates, i, logits);
    extended := results + batch;
    CumulativeKnown(colors, templates[..i + 1], logits);
    var missing, wins;
    missing, ranking, wins := FitBradleyTerry(extended, colors, optimiser);
  }

  /** One iteration's bookkeeping: from the second snapshot on, the distance to the previous one; then the new snapshot. */
  method Record(colors: seq<Item>, rankings: seq<Snapshot>, distances: seq<real>, ranking: seq<Entry>, i: nat)
    returns (rankings': seq<Snapshot>, distances': seq<real>)
    requires |colors| >= 2 && forall q :: 0 <= q < |rankings| ==> RanksColors(rankings[q], colors)
    requires RanksColors(Snapshot(ranking, i), colors)
    requires distances == Drift(rankings, colors)
    ensures rankings' == rankings + [Snapshot(ranking, i)]
    ensures forall q :: 0 <= q < |rankings'| ==> RanksColors(rankings'[q], colors)
    ensures distances' == Drift(rankings', colors)
  {
    distances' := distances;
    if |rankings| > 0 {
      var d := KendallDistance(Labels(rankings[|rankings| - 1].ranking), Labels(ranking));
      DriftSnoc(rankings, Snapshot(ranking, i), colors);
      distances' := distances + [d.value];
    }
    rankings' := rankings + [Snapshot(ranking, i)];
  }

  /** One pass of the session loop, from the state after i templates to the state after i + 1. */
  method Iterate(colors: seq<Item>, templates: seq<Template>, logits: Logits, optimiser: Optimiser, i: nat,
                 results: seq<Trial>, rankings: seq<Snapshot>, distances: seq<real>)
    returns (results': seq<Trial>, rankings': seq<Snapshot>, distances': seq<real>)
    requires Distinct(colors) && |colors| >= 2 && i < |templates|
    requires forall w :: |optimiser(w)| == |w|
    requires results == Cumulative(colors, templates[..i], logits)
    requires rankings == History(colors, templates, logits, optimiser, i)
    requires forall q :: 0 <= q < i ==> RanksColors(rankings[q], colors)
    requires distances == Drift(rankings, colors)
    ensures results' == Cumulative(colors, templates[..i + 1], logits)
    ensures rankings' == History(colors, templates, logits, optimiser, i + 1)
    ensures forall q :: 0 <= q < i + 1 ==> RanksColors(rankings'[q], colors)
    ensures distances' == Drift(rankings', colors)
  {
    var ranking;
    results', ranking := Refit(colors, templates, logits, optimiser, i, results);
    HistorySnoc(colors, templates, logits, optimiser, i);
    rankings', distances' := Record(colors, rankings, distances, ranking, i);
  }

  /** `pd.concat` of an empty list of rankings raises. */
  datatype SessionError = NoObjectsToConcatenate

  /**
   * `run_full_experiment`: for each template, run its batch, append it to the
   * cumulative results, refit on all of them, compute the distance to the
   * previous ranking from the second iteration on, and append the snapshot.
   * The printed distances are returned as `distances`.
   */
  method RunFullExperiment(colors: seq<Item>, templates: seq<Template>, logits: Logits, optimiser: Optimiser)
    returns (error: Option<SessionError>, results: seq<Trial>, rankings: seq<Snapshot>, distances: seq<real>)
    requires Distinct(colors) && |colors| >= 2
    requires forall w :: |optimiser(w)| == |w|
    ensures error.Some? <==> templates == []
    ensures results == Cumulative(colors, templates, logits)
    ensures rankings == History(colors, templates, logits, optimiser, |templates|)
    ensures forall q :: 0 <= q < |rankings| ==> RanksColors(rankings[q], colors)
    ensures distances == Drift(rankings, colors)
  {
    results, rankings, distances := [], [], [];
    assert templates[..0] == [];
    assert History(colors, templates, logits, optimiser, 0) == [];
    for i := 0 to |templates|
      invariant results == Cumulative(colors, templates[..i], logits)
      invariant rankings == History(colors, templates, logits, optimiser, i)
      invariant forall q :: 0 <= q < i ==> RanksColors(rankings[q], colors)
      invariant distances == Drift(rankings, colors)
    {
      results, rankings, distances := Iterate(colors, templates, logits, optimiser, i, results, rankings, distances);
    }
    assert templates[..|templates|] == templates;
    error := if templates == [] then Some(NoObjectsToConcatenate) else None;
  }
}
