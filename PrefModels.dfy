/**
 * The Bradley-Terry fitter around its optimiser: the label-to-index map, the
 * win-count matrix folded from the trial records, the mean-centring of the
 * optimum and the descending ranking by score. The optimiser itself (the
 * negative log-likelihood minimised by BFGS) is a parameter.
 */
module PrefModels {
  import opened Items

  // ---------------------------------------------------------------------------
  // Label-to-index map
  // ---------------------------------------------------------------------------

  /**
   * The dictionary `{item: i for i, item in enumerate(items)}`: a repeated label
   * keeps the index of its last occurrence, since later entries overwrite.
   */
  function IndexMap(items: seq<Item>): (m: map<Item, nat>)
    ensures forall x :: x in m <==> x in items
    ensures forall x :: x in m ==> m[x] < |items| && items[m[x]] == x
    ensures forall x, k :: x in m && m[x] < k < |items| ==> items[k] != x
    decreases |items|
  {
    if items == [] then map[]
    else
      var n := |items| - 1;
      var init := items[..n];
      var m0 := IndexMap(init);
      var m := m0[items[n] := n];
      assert forall x :: x in init <==> x in items && (x == items[n] ==> x in init) by {
        assert items == init + [items[n]];
      }
      assert forall k :: 0 <= k < n ==> init[k] == items[k];
      m
  }

  /** Over distinct items the map sends `items[i]` to `i`. */
  lemma IndexMapDistinct(items: seq<Item>)
    requires Distinct(items)
    ensures forall i :: 0 <= i < |items| ==> IndexMap(items)[items[i]] == i
  {
    var m := IndexMap(items);
    forall i | 0 <= i < |items| ensures m[items[i]] == i {
      assert items[i] in m;
    }
  }

  // ---------------------------------------------------------------------------
  // Win-count aggregation
  // ---------------------------------------------------------------------------

  /** The loser is "the player who is not the winner": player 2 when player 1 won, else player 1. */
  function Loser(t: Trial): (l: Item)
    ensures l == t.player1 || l == t.player2
    ensures t.winner != t.player1 ==> l == t.player1
    ensures t.player1 != t.player2 && (t.winner == t.player1 || t.winner == t.player2) ==> l != t.winner
  {
    if t.winner == t.player1 then t.player2 else t.player1
  }

  /** Every winner and every derived loser is one of the items (no dictionary lookup fails). */
  predicate AllKnown(records: seq<Trial>, items: seq<Item>)
  {
    forall k :: 0 <= k < |records| ==> records[k].winner in items && Loser(records[k]) in items
  }

  /** A record none of whose lookups fails. */
  predicate Known(t: Trial, items: seq<Item>)
  {
    t.winner in items && Loser(t) in items
  }

  lemma AllKnownInit(records: seq<Trial>, items: seq<Item>)
    requires records != [] && AllKnown(records, items)
    ensures AllKnown(records[..|records| - 1], items)
  {
    var init := records[..|records| - 1];
    forall k | 0 <= k < |init| ensures init[k].winner in items && Loser(init[k]) in items {
      assert init[k] == records[k];
    }
  }

  lemma AllKnownSnoc(records: seq<Trial>, t: Trial, items: seq<Item>)
    requires AllKnown(records, items) && Known(t, items)
    ensures AllKnown(records + [t], items)
  {
    var r := records + [t];
    forall k | 0 <= k < |r| ensures r[k].winner in items && Loser(r[k]) in items {
      if k < |records| { assert r[k] == records[k]; } else { assert r[k] == t; }
    }
  }

  /**
   * The label whose lookup raises KeyError first when the records are folded in
   * order: the winner of a record is looked up before its loser.
   */
  function FirstUnknown(records: seq<Trial>, items: seq<Item>): (u: Option<Item>)
    ensures u.None? <==> AllKnown(records, items)
    ensures u.Some? ==> u.value !in items
    decreases |records|
  {
    if records == [] then None
    else if records[0].winner !in items then Some(records[0].winner)
    else if Loser(records[0]) !in items then Some(Loser(records[0]))
    else
      var u := FirstUnknown(records[1..], items);
      assert AllKnown(records[1..], items) ==> AllKnown(records, items) by {
        if AllKnown(records[1..], items) {
          forall k | 0 <= k < |records| ensures records[k].winner in items && Loser(records[k]) in items {
            if k > 0 { assert records[k] == records[1..][k - 1]; }
          }
        }
      }
      u
  }

  /** The matrix cell a known record increments: row of the winner, column of the loser. */
  function Cell(t: Trial, items: seq<Item>): (c: (nat, nat))
    requires t.winner in items && Loser(t) in items
    ensures c.0 < |items| && c.1 < |items|
    ensures items[c.0] == t.winner && items[c.1] == Loser(t)
    ensures Distinct(items) ==> forall i, j :: 0 <= i < |items| && 0 <= j < |items| && items[i] == t.winner && items[j] == Loser(t) ==> c == (i, j)
  {
    var idx := IndexMap(items);
    (idx[t.winner], idx[Loser(t)])
  }

  /** The number of records that increment cell (i, j): the specification of `wins[i][j]`. */
  function Count(records: seq<Trial>, items: seq<Item>, i: nat, j: nat): (c: nat)
    requires AllKnown(records, items)
    ensures c <= |records|
    decreases |records|
  {
    if records == [] then 0
    else
      var last := records[|records| - 1];
      Count(records[..|records| - 1], items, i, j) + (if Cell(last, items) == (i, j) then 1 else 0)
  }

  /** The number of records whose winner is `w` and whose derived loser is `l`. */
  function Matches(records: seq<Trial>, w: Item, l: Item): nat
    decreases |records|
  {
    if records == [] then 0
    else
      var last := records[|records| - 1];
      Matches(records[..|records| - 1], w, l) + (if last.winner == w && Loser(last) == l then 1 else 0)
  }

  /** The win-count matrix as a value: row i, column j holds `Count(records, items, i, j)`. */
  function WinRows(records: seq<Trial>, items: seq<Item>): (w: seq<seq<nat>>)
    requires AllKnown(records, items)
    ensures |w| == |items|
    ensures forall i :: 0 <= i < |items| ==> |w[i]| == |items|
  {
    seq(|items|, i requires 0 <= i < |items| =>
      seq(|items|, j requires 0 <= j < |items| => Count(records, items, i, j)))
  }

  /** A two-dimensional array read as rows. */
  function ToRows(a: array2<nat>): (w: seq<seq<nat>>)
    reads a
    ensures |w| == a.Length0
    ensures forall i :: 0 <= i < a.Length0 ==> |w[i]| == a.Length1
  {
    seq(a.Length0, i requires 0 <= i < a.Length0 reads a =>
      seq(a.Length1, j requires 0 <= j < a.Length1 reads a => a[i, j]))
  }

  /**
   * The aggregation loop: a zero-filled n-by-n matrix, then one increment of
   * `wins[idx(winner), idx(loser)]` per record, in order. An unknown winner or
   * loser stops the fold, as the KeyError does.
   */
  method AggregateWins(records: seq<Trial>, items: seq<Item>) returns (missing: Option<Item>, wins: array2<nat>)
    ensures fresh(wins) && wins.Length0 == |items| && wins.Length1 == |items|
    ensures missing == FirstUnknown(records, items)
    ensures missing.None? ==> AllKnown(records, items)
    ensures missing.None? ==>
      forall i, j :: 0 <= i < |items| && 0 <= j < |items| ==> wins[i, j] == Count(records, items, i, j)
  {
    var n := |items|;
    var idx := IndexMap(items);
    wins := new nat[n, n]((i, j) => 0);
    var k := 0;
    while k < |records|
      invariant 0 <= k <= |records|
      invariant wins.Length0 == n && wins.Length1 == n
      invariant AllKnown(records[..k], items)
      invariant FirstUnknown(records, items) == FirstUnknown(records[k..], items)
      invariant CountsMatch(wins, records[..k], items)
    {
      var row := records[k];
      FirstUnknownStep(records, k, items);
      if row.winner !in idx {
        missing := Some(row.winner);
        return;
      }
      var loser := if row.winner == row.player1 then row.player2 else row.player1;
      if loser !in idx {
        missing := Some(loser);
        return;
      }
      ghost var done := records[..k];
      TakeNext(records, k);
      assert Known(row, items);
      Increment(wins, idx[row.winner], idx[loser], done, row, items);
      k := k + 1;
    }
    assert records[..k] == records;
    missing := None;
  }

  lemma TakeNext(records: seq<Trial>, k: nat)
    requires k < |records|
    ensures records[..k + 1] == records[..k] + [records[k]]
  {
  }

  /**
   * `wins[idx_w, idx_l] += 1` for one known record `t`: if the array counted
   * `done` before, it counts `done + [t]` after.
   */
  method Increment(wins: array2<nat>, w: nat, l: nat, ghost done: seq<Trial>, ghost t: Trial, ghost items: seq<Item>)
    requires AllKnown(done, items) && Known(t, items) && Cell(t, items) == (w, l)
    requires wins.Length0 == |items| && wins.Length1 == |items|
    requires CountsMatch(wins, done, items)
    modifies wins
    ensures AllKnown(done + [t], items)
    ensures CountsMatch(wins, done + [t], items)
  {
    ghost var before := ToRows(wins);
    wins[w, l] := wins[w, l] + 1;
    CountsMatchStep(wins, before, done, t, items);
  }

  /** The array holds, cell by cell, the counts of the given records. */
  ghost predicate CountsMatch(wins: array2<nat>, records: seq<Trial>, items: seq<Item>)
    reads wins
    requires AllKnown(records, items)
  {
    forall i, j :: 0 <= i < wins.Length0 && 0 <= j < wins.Length1 ==> wins[i, j] == Count(records, items, i, j)
  }

  /** After the increment of record t's cell, the array counts one more record. */
  lemma CountsMatchStep(wins: array2<nat>, before: seq<seq<nat>>, records: seq<Trial>, t: Trial, items: seq<Item>)
    requires AllKnown(records, items) && Known(t, items)
    requires wins.Length0 == |items| && wins.Length1 == |items|
    requires |before| == |items| && forall i :: 0 <= i < |items| ==> |before[i]| == |items|
    requires forall i, j :: 0 <= i < |items| && 0 <= j < |items| ==> before[i][j] == Count(records, items, i, j)
    requires forall i, j :: 0 <= i < |items| && 0 <= j < |items| ==>
      wins[i, j] == before[i][j] + (if (i, j) == Cell(t, items) then 1 else 0)
    ensures AllKnown(records + [t], items)
    ensures CountsMatch(wins, records + [t], items)
  {
    CountSnoc(records, t, items);
  }

  /** The first failing lookup from position k on is the one of record k, or else one after it. */
  lemma FirstUnknownStep(records: seq<Trial>, k: nat, items: seq<Item>)
    requires k < |records|
    ensures FirstUnknown(records[k..], items) ==
      if records[k].winner !in items then Some(records[k].winner)
      else if Loser(records[k]) !in items then Some(Loser(records[k]))
      else FirstUnknown(records[k + 1..], items)
  {
    assert records[k..][0] == records[k];
    assert records[k..][1..] == records[k + 1..];
  }

  /** One more known record adds one to its own cell and leaves every other cell alone. */
  lemma CountSnoc(records: seq<Trial>, t: Trial, items: seq<Item>)
    requires AllKnown(records, items) && Known(t, items)
    ensures AllKnown(records + [t], items)
    ensures forall i: nat, j: nat ::
              Count(records + [t], items, i, j) == Count(records, items, i, j) + (if Cell(t, items) == (i, j) then 1 else 0)
  {
    AllKnownSnoc(records, t, items);
    assert (records + [t])[..|records|] == records;
  }

  // ---------------------------------------------------------------------------
  // Properties of the win counts
  // ---------------------------------------------------------------------------

  /** Counting over two runs of records is counting over each and adding. */
  lemma {:induction false} CountAppend(a: seq<Trial>, b: seq<Trial>, items: seq<Item>, i: nat, j: nat)
    requires AllKnown(a + b, items)
    ensures AllKnown(a, items) && AllKnown(b, items)
    ensures Count(a + b, items, i, j) == Count(a, items, i, j) + Count(b, items, i, j)
    decreases |b|
  {
    AllKnownSplit(a, b, items);
    if b == [] {
      assert a + b == a;
    } else {
      SplitLast(a, b);
      AllKnownInit(a + b, items);
      AllKnownInit(b, items);
      CountAppend(a, b[..|b| - 1], items, i, j);
    }
  }

  lemma AllKnownSplit(a: seq<Trial>, b: seq<Trial>, items: seq<Item>)
    requires AllKnown(a + b, items)
    ensures AllKnown(a, items) && AllKnown(b, items)
  {
    assert forall k :: 0 <= k < |a| ==> (a + b)[k] == a[k];
    assert forall k :: 0 <= k < |b| ==> (a + b)[|a| + k] == b[k];
  }

  /** Appending records never decreases any cell of the win-count matrix. */
  lemma WinsNeverDecrease(a: seq<Trial>, b: seq<Trial>, items: seq<Item>)
    requires AllKnown(a + b, items)
    ensures AllKnown(a, items)
    ensures forall i: nat, j: nat :: Count(a, items, i, j) <= Count(a + b, items, i, j)
  {
    forall i: nat, j: nat ensures AllKnown(a, items) && Count(a, items, i, j) <= Count(a + b, items, i, j) {
      CountAppend(a, b, items, i, j);
    }
    CountAppend(a, b, items, 0, 0);
  }

  /** Known records stay known under any rearrangement. */
  lemma AllKnownPermutation(a: seq<Trial>, b: seq<Trial>, items: seq<Item>)
    requires multiset(a) == multiset(b)
    requires AllKnown(a, items)
    ensures AllKnown(b, items)
  {
    forall k | 0 <= k < |b| ensures b[k].winner in items && Loser(b[k]) in items {
      assert b[k] in multiset(a);
      var q :| 0 <= q < |a| && a[q] == b[k];
    }
  }

  /** Taking one record out of the middle removes exactly its own contribution. */
  lemma CountRemove(b: seq<Trial>, q: nat, items: seq<Item>, i: nat, j: nat)
    requires q < |b| && AllKnown(b, items)
    ensures AllKnown(b[..q] + b[q + 1..], items) && Known(b[q], items)
    ensures Count(b, items, i, j) ==
      Count(b[..q] + b[q + 1..], items, i, j) + (if Cell(b[q], items) == (i, j) then 1 else 0)
  {
    var x := b[q];
    var single: seq<Trial> := [x];
    assert b == (b[..q] + single) + b[q + 1..];
    CountAppend(b[..q] + single, b[q + 1..], items, i, j);
    CountAppend(b[..q], single, items, i, j);
    assert single[..0] == [];
    assert Count(single, items, i, j) == (if Cell(x, items) == (i, j) then 1 else 0);
    assert AllKnown(b[..q] + b[q + 1..], items) by {
      var rest := b[..q] + b[q + 1..];
      assert AllKnown(b[..q], items) && AllKnown(b[q + 1..], items);
      forall k | 0 <= k < |rest| ensures rest[k].winner in items && Loser(rest[k]) in items {
        if k < q { assert rest[k] == b[..q][k]; } else { assert rest[k] == b[q + 1..][k - q]; }
      }
    }
    CountAppend(b[..q], b[q + 1..], items, i, j);
  }

  /** The matrix does not depend on the order of the records. */
  lemma {:induction false} CountPermutation(a: seq<Trial>, b: seq<Trial>, items: seq<Item>, i: nat, j: nat)
    requires multiset(a) == multiset(b)
    requires AllKnown(a, items)
    ensures AllKnown(b, items)
    ensures Count(a, items, i, j) == Count(b, items, i, j)
    decreases |a|
  {
    AllKnownPermutation(a, b, items);
    if a != [] {
      var x := a[|a| - 1];
      assert x in multiset(b) by { assert x in multiset(a); }
      var q :| 0 <= q < |b| && b[q] == x;
      RemoveLast(a, b, q);
      AllKnownInit(a, items);
      CountRemove(b, q, items, i, j);
      CountPermutation(a[..|a| - 1], b[..q] + b[q + 1..], items, i, j);
    }
  }

  /** Taking the last record off one list and the same record off the other keeps them rearrangements. */
  lemma RemoveLast(a: seq<Trial>, b: seq<Trial>, q: nat)
    requires multiset(a) == multiset(b) && a != []
    requires q < |b| && b[q] == a[|a| - 1]
    ensures multiset(a[..|a| - 1]) == multiset(b[..q] + b[q + 1..])
  {
    var x := a[|a| - 1];
    var init, front, back := a[..|a| - 1], b[..q], b[q + 1..];
    assert a == init + [x];
    assert b == front + [x] + back;
    var mi, mf, mb := multiset(init), multiset(front), multiset(back);
    assert multiset(a) == mi + multiset{x};
    assert multiset(b) == mf + multiset{x} + mb;
    forall y ensures mi[y] == (mf + mb)[y] {
      assert multiset(a)[y] == multiset(b)[y];
    }
    assert mi == mf + mb;
    assert multiset(front + back) == mf + mb;
  }

  /** Under distinct items, cell (i, j) counts exactly the records where items[i] beat items[j]. */
  lemma {:induction false} CountMeaning(records: seq<Trial>, items: seq<Item>, i: nat, j: nat)
    requires AllKnown(records, items)
    requires Distinct(items)
    requires i < |items| && j < |items|
    ensures Count(records, items, i, j) == Matches(records, items[i], items[j])
    decreases |records|
  {
    if records != [] {
      var init := records[..|records| - 1];
      AllKnownInit(records, items);
      CountMeaning(init, items, i, j);
    }
  }

  /**
   * When every record is between two different players and is won by one of
   * them, no item is ever counted as beating itself.
   */
  lemma {:induction false} DiagonalStaysZero(records: seq<Trial>, items: seq<Item>, i: nat)
    requires AllKnown(records, items)
    requires forall k :: 0 <= k < |records| ==>
      records[k].player1 != records[k].player2 &&
      (records[k].winner == records[k].player1 || records[k].winner == records[k].player2)
    ensures Count(records, items, i, i) == 0
    decreases |records|
  {
    if records != [] {
      var init := records[..|records| - 1];
      var last := records[|records| - 1];
      AllKnownInit(records, items);
      assert forall k :: 0 <= k < |init| ==> init[k] == records[k];
      DiagonalStaysZero(init, items, i);
      var c := Cell(last, items);
      assert items[c.0] != items[c.1];
    }
  }

  /** Sum of cells (i, 0) .. (i, cols - 1). */
  function RowTotal(records: seq<Trial>, items: seq<Item>, i: nat, cols: nat): nat
    requires AllKnown(records, items)
  {
    if cols == 0 then 0 else RowTotal(records, items, i, cols - 1) + Count(records, items, i, cols - 1)
  }

  /** Sum of all cells in rows 0 .. rows - 1. */
  function GridTotal(records: seq<Trial>, items: seq<Item>, rows: nat): nat
    requires AllKnown(records, items)
  {
    if rows == 0 then 0 else GridTotal(records, items, rows - 1) + RowTotal(records, items, rows - 1, |items|)
  }

  lemma {:induction false} RowTotalStep(records: seq<Trial>, items: seq<Item>, i: nat, cols: nat)
    requires records != [] && AllKnown(records, items)
    ensures AllKnown(records[..|records| - 1], items)
    ensures var c := Cell(records[|records| - 1], items);
      RowTotal(records, items, i, cols) ==
      RowTotal(records[..|records| - 1], items, i, cols) + (if c.0 == i && c.1 < cols then 1 else 0)
  {
    var init := records[..|records| - 1];
    AllKnownInit(records, items);
    if cols > 0 {
      RowTotalStep(records, items, i, cols - 1);
    }
  }

  lemma {:induction false} GridTotalStep(records: seq<Trial>, items: seq<Item>, rows: nat)
    requires records != [] && AllKnown(records, items)
    ensures AllKnown(records[..|records| - 1], items)
    ensures var c := Cell(records[|records| - 1], items);
      GridTotal(records, items, rows) ==
      GridTotal(records[..|records| - 1], items, rows) + (if c.0 < rows then 1 else 0)
  {
    RowTotalStep(records, items, 0, 0);
    if rows > 0 {
      GridTotalStep(records, items, rows - 1);
      RowTotalStep(records, items, rows - 1, |items|);
    }
  }

  /** Each record adds exactly one to exactly one cell, so the cells sum to the number of records. */
  lemma {:induction false} TotalWins(records: seq<Trial>, items: seq<Item>)
    requires AllKnown(records, items)
    ensures GridTotal(records, items, |items|) == |records|
    decreases |records|
  {
    if records == [] {
      ZeroGrid(items, |items|);
    } else {
      GridTotalStep(records, items, |items|);
      TotalWins(records[..|records| - 1], items);
    }
  }

  lemma {:induction false} ZeroGrid(items: seq<Item>, rows: nat)
    ensures GridTotal([], items, rows) == 0
  {
    if rows > 0 {
      ZeroGrid(items, rows - 1);
      ZeroRow(items, rows - 1, |items|);
    }
  }

  lemma {:induction false} ZeroRow(items: seq<Item>, i: nat, cols: nat)
    ensures RowTotal([], items, i, cols) == 0
  {
    if cols > 0 {
      ZeroRow(items, i, cols - 1);
    }
  }

  // ---------------------------------------------------------------------------
  // Mean-centring of the optimum
  // ---------------------------------------------------------------------------

  function Sum(x: seq<real>): real
  {
    if x == [] then 0.0 else x[0] + Sum(x[1..])
  }

  function Mean(x: seq<real>): real
    requires |x| > 0
  {
    Sum(x) / |x| as real
  }

  /** Every entry minus a constant. */
  function Shift(x: seq<real>, c: real): (y: seq<real>)
    ensures |y| == |x|
    ensures forall k :: 0 <= k < |x| ==> y[k] == x[k] - c
  {
    if x == [] then []
    else [x[0] - c] + Shift(x[1..], c)
  }

  /** Shifting every entry by c shifts the sum by n times c. */
  lemma {:induction false} ShiftSum(x: seq<real>, c: real)
    ensures Sum(Shift(x, c)) == Sum(x) - |x| as real * c
  {
    if x != [] {
      ShiftSum(x[1..], c);
      var y := Shift(x, c);
      assert y[1..] == Shift(x[1..], c);
      assert |x| as real * c == (|x| - 1) as real * c + c;
    }
  }

  /** `res.x - np.mean(res.x)`: sums to zero and keeps every pairwise difference. */
  function Centre(x: seq<real>): (y: seq<real>)
    requires |x| > 0
    ensures |y| == |x|
    ensures Sum(y) == 0.0
    ensures forall i, j :: 0 <= i < |x| && 0 <= j < |x| ==> y[i] - y[j] == x[i] - x[j]
  {
    var y := Shift(x, Mean(x));
    ShiftSum(x, Mean(x));
    assert |x| as real * Mean(x) == Sum(x);
    y
  }

  /** Centring an already centred vector changes nothing. */
  lemma CentreIdempotent(x: seq<real>)
    requires |x| > 0
    ensures Centre(Centre(x)) == Centre(x)
  {
    var y := Centre(x);
    assert Mean(y) == 0.0;
    assert Centre(y) == Shift(y, 0.0);
  }

  // ---------------------------------------------------------------------------
  // Ranking by descending score
  // ---------------------------------------------------------------------------

  /** One row of the ranking table: a colour and its centred Bradley-Terry score. */
  datatype Entry = Entry(color: Item, score: real)

  /** The table built from the items and their scores, row by row. */
  function Zip(items: seq<Item>, scores: seq<real>): (r: seq<Entry>)
    requires |items| == |scores|
    ensures |r| == |items|
    ensures forall k :: 0 <= k < |r| ==> r[k] == Entry(items[k], scores[k])
  {
    if items == [] then [] else [Entry(items[0], scores[0])] + Zip(items[1..], scores[1..])
  }

  /** The `Color` column of a ranking table. */
  function Labels(r: seq<Entry>): (s: seq<Item>)
    ensures |s| == |r|
  {
    if r == [] then [] else [r[0].color] + Labels(r[1..])
  }

  lemma {:induction false} LabelsAt(r: seq<Entry>, k: nat)
    requires k < |r|
    ensures Labels(r)[k] == r[k].color
  {
    if k > 0 {
      LabelsAt(r[1..], k - 1);
    }
  }

  lemma LabelsOfZip(items: seq<Item>, scores: seq<real>)
    requires |items| == |scores|
    ensures Labels(Zip(items, scores)) == items
  {
  }

  predicate NonIncreasing(r: seq<Entry>)
  {
    forall i, j :: 0 <= i < j < |r| ==> r[i].score >= r[j].score
  }

  /** Dropping the first entry keeps the order. */
  lemma NonIncreasingTail(s: seq<Entry>)
    requires s != [] && NonIncreasing(s)
    ensures NonIncreasing(s[1..])
    ensures forall k :: 0 <= k < |s| ==> s[k].score <= s[0].score
  {
    forall i, j | 0 <= i < j < |s[1..]| ensures s[1..][i].score >= s[1..][j].score {
      assert s[1..][i] == s[i + 1] && s[1..][j] == s[j + 1];
    }
  }

  /** An entry at least as high as the head of an ordered table can be put in front. */
  lemma NonIncreasingCons(e: Entry, s: seq<Entry>)
    requires NonIncreasing(s)
    requires s != [] ==> s[0].score <= e.score
    ensures NonIncreasing([e] + s)
  {
    var r := [e] + s;
    forall i, j | 0 <= i < j < |r| ensures r[i].score >= r[j].score {
      assert r[j] == s[j - 1];
      if i > 0 {
        assert r[i] == s[i - 1];
      } else {
        assert s[0].score >= s[j - 1].score;
      }
    }
  }

  lemma LabelsCons(e: Entry, s: seq<Entry>)
    ensures Labels([e] + s) == [e.color] + Labels(s)
  {
    assert ([e] + s)[1..] == s;
  }

  /** Places `e` before the first entry whose score does not exceed its own. */
  function Insert(e: Entry, s: seq<Entry>): (r: seq<Entry>)
    ensures |r| == |s| + 1
  {
    if s == [] || e.score >= s[0].score then [e] + s else [s[0]] + Insert(e, s[1..])
  }

  /** Inserting into an ordered table keeps it ordered; the new head is `e` or the old head. */
  lemma {:induction false} InsertOrdered(e: Entry, s: seq<Entry>)
    requires NonIncreasing(s)
    ensures NonIncreasing(Insert(e, s))
    ensures Insert(e, s)[0] == e || (s != [] && Insert(e, s)[0] == s[0])
  {
    if s == [] || e.score >= s[0].score {
      NonIncreasingCons(e, s);
    } else {
      NonIncreasingTail(s);
      InsertOrdered(e, s[1..]);
      var rest := Insert(e, s[1..]);
      assert |s| > 1 ==> s[1..][0] == s[1];
      NonIncreasingCons(s[0], rest);
    }
  }

  /** Insertion adds `e` to the entries and its colour to the labels, and loses nothing. */
  lemma {:induction false} InsertPermutes(e: Entry, s: seq<Entry>)
    ensures multiset(Insert(e, s)) == multiset(s) + multiset{e}
    ensures multiset(Labels(Insert(e, s))) == multiset(Labels(s)) + multiset{e.color}
  {
    if s == [] || e.score >= s[0].score {
      LabelsCons(e, s);
    } else {
      InsertPermutes(e, s[1..]);
      LabelsCons(s[0], Insert(e, s[1..]));
      LabelsCons(s[0], s[1..]);
      assert s == [s[0]] + s[1..];
    }
  }

  /** `sort_values('BT_Score', ascending=False)`, realised as an insertion sort. */
  function SortDesc(s: seq<Entry>): (r: seq<Entry>)
    ensures |r| == |s|
  {
    if s == [] then [] else Insert(s[0], SortDesc(s[1..]))
  }

  /** The sorted table is ordered by non-increasing score. */
  lemma {:induction false} SortDescOrdered(s: seq<Entry>)
    ensures NonIncreasing(SortDesc(s))
  {
    if s != [] {
      SortDescOrdered(s[1..]);
      InsertOrdered(s[0], SortDesc(s[1..]));
    }
  }

  lemma MultisetHeadTail(s: seq<Entry>)
    requires s != []
    ensures multiset(s) == multiset{s[0]} + multiset(s[1..])
  {
    assert s == [s[0]] + s[1..];
  }

  /** Sorting rearranges the entries without losing or adding any. */
  lemma {:induction false} SortDescPermutes(s: seq<Entry>)
    ensures multiset(SortDesc(s)) == multiset(s)
  {
    if s != [] {
      SortDescPermutes(s[1..]);
      InsertPermutes(s[0], SortDesc(s[1..]));
      MultisetHeadTail(s);
    }
  }

  /** The labels of the sorted table are the labels of the input, rearranged. */
  lemma {:induction false} SortDescLabels(s: seq<Entry>)
    ensures multiset(Labels(SortDesc(s))) == multiset(Labels(s))
  {
    if s != [] {
      SortDescLabels(s[1..]);
      InsertPermutes(s[0], SortDesc(s[1..]));
    }
  }

  // ---------------------------------------------------------------------------
  // The fitter
  // ---------------------------------------------------------------------------

  /** The BFGS minimiser of the negative log-likelihood, seen only through its result `res.x`. */
  type Optimiser = seq<seq<nat>> -> seq<real>

  /** The score vector `final_betas`: the optimum for the win matrix, mean-centred. */
  function Scores(records: seq<Trial>, items: seq<Item>, optimiser: Optimiser): (beta: seq<real>)
    requires AllKnown(records, items) && |items| > 0
    requires forall w :: |optimiser(w)| == |w|
    ensures |beta| == |items|
    ensures Sum(beta) == 0.0
  {
    Centre(optimiser(WinRows(records, items)))
  }

  /** The ranking table the fitter returns. */
  function Ranking(records: seq<Trial>, items: seq<Item>, optimiser: Optimiser): (r: seq<Entry>)
    requires AllKnown(records, items) && |items| > 0
    requires forall w :: |optimiser(w)| == |w|
    ensures NonIncreasing(r)
    ensures multiset(r) == multiset(Zip(items, Scores(records, items, optimiser)))
    ensures multiset(Labels(r)) == multiset(items)
  {
    var table := Zip(items, Scores(records, items, optimiser));
    LabelsOfZip(items, Scores(records, items, optimiser));
    SortDescPermutes(table);
    SortDescLabels(table);
    SortDescOrdered(table);
    SortDesc(table)
  }

  /**
   * `fit_bradley_terry(df, items)`: aggregate the wins, hand the matrix to the
   * optimiser, centre its optimum and rank the items by score. `missing` is the
   * label of the KeyError when a winner or loser is not an item.
   */
  method FitBradleyTerry(records: seq<Trial>, items: seq<Item>, optimiser: Optimiser)
    returns (missing: Option<Item>, ranking: seq<Entry>, wins: array2<nat>)
    requires |items| > 0
    requires forall w :: |optimiser(w)| == |w|
    ensures fresh(wins) && wins.Length0 == |items| && wins.Length1 == |items|
    ensures missing == FirstUnknown(records, items)
    ensures missing.None? ==> AllKnown(records, items)
    ensures missing.None? ==> ranking == Ranking(records, items, optimiser)
    ensures missing.None? ==>
      forall i, j :: 0 <= i < |items| && 0 <= j < |items| ==> wins[i, j] == Count(records, items, i, j)
  {
    missing, wins := AggregateWins(records, items);
    ranking := [];
    if missing.Some? {
      return;
    }
    var matrix := ToRows(wins);
    assert matrix == WinRows(records, items) by {
      forall i | 0 <= i < |items| ensures matrix[i] == WinRows(records, items)[i] {
        assert forall j :: 0 <= j < |items| ==> matrix[i][j] == wins[i, j];
      }
    }
    var betas := optimiser(matrix);
    var finalBetas := Centre(betas);
    ranking := SortDesc(Zip(items, finalBetas));
  }
}
