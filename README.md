# WhatDoLLMsWant: preference ranking core, modelled in Dafny

WhatDoLLMsWant asks a language model which of two colours it prefers. For each
prompt template it shows every ordered pair of distinct colours, so both
presentation orders occur, and records which option won. It accumulates these
trials over templates and fits a Bradley-Terry model on all trials seen so far.
That gives a ranking of the colours by centred score. After each template it
reports the normalised Kendall distance between the new ranking and the
previous one.

This project models that core:

- `Items.dfy` holds the shared values: item labels, one trial record (players,
  winner, template), the `Option`/`Result` wrappers, and facts about lists
  without repeats.
- `PrefModels.dfy` models `fit_bradley_terry`:
  - the label-to-index map;
  - the win-count aggregation loop over an `n × n` array, with a `KeyError` on
    an unknown label modelled as an error result;
  - the sum-to-zero centring of the optimiser output;
  - the descending sort that produces the ranking table.

  The BFGS optimiser is a function parameter that returns one score per row of
  the win matrix.
- `Metrics.dfy` models `calculate_kendall_distance`. It covers the failure on
  different item sets, Kendall's tau as the library computes it on the two
  label lists, and `(1 - tau) / 2`; the session loop uses this distance. It also holds the corrected distance
  between the two orderings (see Findings).
- `Experiment.dfy` models `run_experiment` and `run_full_experiment`:
  - the trial enumeration in `itertools.permutations(colors, 2)` order;
  - the model's decision rule, where the first option wins only on a strictly
    higher logit;
  - the cumulative session loop: refit on all results, a distance from the
    second iteration on, and one snapshot per template tagged with its
    iteration index.

  The language model is a `Logits` parameter.

## Model

| member | source | states |
|---|---|---|
| `PrefModels.IndexMap` | src/pref_models.py:11-12 | the keys are exactly the items; each key maps to a position that holds it; with repeated labels the last position wins, as in the dict comprehension |
| `PrefModels.IndexMapDistinct` | src/pref_models.py:12 | for items without repeats, item i maps to index i |
| `PrefModels.Loser` | src/pref_models.py:23 | the loser is one of the two players; it is player 1 whenever the winner is not player 1; it differs from the winner when the players differ and the winner is one of them |
| `PrefModels.FirstUnknown` | src/pref_models.py:20-24 | no label is missing exactly when every winner and derived loser is an item; a reported label is not an item (the `KeyError`) |
| `PrefModels.Count` | src/pref_models.py:18-25 | the meaning of `wins[i][j]` from the comment at line 18: the number of records whose cell is (i, j), defined record by record and never more than the number of records |
| `PrefModels.Increment` | src/pref_models.py:25 | `wins[idx_w, idx_l] += 1`: after one increment the array holds, cell by cell, the counts of the records so far plus the new one |
| `PrefModels.Cell` | src/pref_models.py:21-25 | the cell a record increments has the winner's row and the loser's column; without repeats it is the only such cell |
| `PrefModels.AggregateWins` | src/pref_models.py:19-25 | allocates an n × n matrix; stops with the first unknown label in record order; otherwise every cell (i, j) equals the number of records whose winner is item i and whose loser is item j |
| `PrefModels.CountMeaning` | src/pref_models.py:18-25 | without repeated items, cell (i, j) counts exactly the records in which item i beat item j |
| `PrefModels.CountAppend` | src/pref_models.py:20-25 | counting over two runs of records is counting over each and adding |
| `PrefModels.WinsNeverDecrease` | src/pref_models.py:20-25 | appending records never lowers any cell |
| `PrefModels.CountPermutation` | src/pref_models.py:20-25 | the matrix does not depend on the order of the records |
| `PrefModels.AllKnownPermutation` | src/pref_models.py:20-24 | whether a lookup fails does not depend on the order of the records |
| `PrefModels.DiagonalStaysZero` | src/pref_models.py:20-25 | when each record's players differ and its winner is one of them, no item is counted as beating itself |
| `PrefModels.TotalWins` | src/pref_models.py:19-25 | the cells add up to the number of records: each record increments exactly one cell |
| `PrefModels.Shift` | src/pref_models.py:43 | subtracting a constant keeps the length and lowers every score by it |
| `PrefModels.ShiftSum` | src/pref_models.py:43 | subtracting a constant from n scores lowers their sum by n times it |
| `PrefModels.Centre` | src/pref_models.py:42-43 | the centred scores sum to zero and keep every pairwise difference of the raw scores |
| `PrefModels.CentreIdempotent` | src/pref_models.py:42-43 | centring already-centred scores changes nothing |
| `PrefModels.Zip` | src/pref_models.py:45-47 | the `Color`/`BT_Score` table before sorting: one row per item, row k pairing item k with centred score k |
| `PrefModels.SortDesc` | src/pref_models.py:48 | `sort_values('BT_Score', ascending=False)` as an insertion sort that keeps the row count; `SortDescOrdered` and `SortDescPermutes` prove it non-increasing and a permutation of its input |
| `PrefModels.LabelsOfZip` | src/pref_models.py:45-47 | the `Color` column of the table before sorting is the item list |
| `PrefModels.InsertOrdered` | src/pref_models.py:48 | inserting an entry into a table sorted by descending score keeps it sorted |
| `PrefModels.InsertPermutes` | src/pref_models.py:48 | inserting adds exactly that entry and that colour |
| `PrefModels.SortDescOrdered` | src/pref_models.py:48 | the sorted table has non-increasing scores |
| `PrefModels.SortDescPermutes` | src/pref_models.py:48 | the sorted table is a rearrangement of the input table's rows |
| `PrefModels.SortDescLabels` | src/pref_models.py:48 | the sorted `Color` column is a rearrangement of the input's |
| `PrefModels.Scores` | src/pref_models.py:40-43 | one score per item, summing to zero |
| `PrefModels.Ranking` | src/pref_models.py:40-48 | the ranking is sorted by descending score; its rows are exactly the (item, centred score) pairs; its `Color` column is a rearrangement of the items |
| `PrefModels.FitBradleyTerry` | src/pref_models.py:6-50 | returns the n × n win matrix and the ranking; fails with the first unknown label; otherwise the matrix cells are the win counts and the ranking is the sorted, centred fit of those counts |
| `Metrics.StrLess` | src/metrics.py:12 | Python's `<` on `str`, which `kendalltau` applies to the labels: defined code point by code point, a proper prefix before its extensions |
| `Metrics.StrLessIrreflexive` | src/metrics.py:12 | string order as the tau computation compares labels: no label is below itself |
| `Metrics.StrLessTotal` | src/metrics.py:12 | of two different labels exactly one is below the other |
| `Metrics.DiscordantIsOppositeOrder` | src/metrics.py:12 | for lists without repeats there are no ties: a pair of positions is discordant exactly when the two lists order its labels in opposite directions and concordant exactly when they order them the same way |
| `Metrics.PairsPartition` | src/metrics.py:12 | without ties, concordant plus discordant position pairs is n(n-1)/2 |
| `Metrics.Choose2` | src/metrics.py:12 | the number of position pairs is n(n-1)/2 |
| `Metrics.Tau` | src/metrics.py:11-12 | tau lies between -1 and 1 |
| `Metrics.TauToDistance` | src/metrics.py:14-18 | `(1 - tau) / 2` maps [-1, 1] onto [0, 1], with 1 going to 0 and -1 to 1 |
| `Metrics.TauToDistanceDecreasing` | src/metrics.py:14-18 | a larger tau gives a strictly smaller distance |
| `Metrics.KendallDistance` | src/metrics.py:3-18 | fails exactly when the two item sets differ; otherwise the result is `(1 - tau) / 2` and lies in [0, 1] |
| `Metrics.KendallDistanceIsDiscordantShare` | src/metrics.py:3-18 | on equal item sets the distance is the share of discordant position pairs |
| `Metrics.KendallIdentity` | src/metrics.py:6 | identical lists have tau 1 and distance 0 |
| `Metrics.KendallAllDiscordant` | src/metrics.py:11-17 | when every position pair is discordant, tau is -1 and the distance is 1 |
| `Metrics.KendallReversalCounterexample` | src/metrics.py:6-12 | red, blue, green against its exact reverse is at distance 1/3 as written; the corrected distance gives 1 |
| `Metrics.IndexOf` | src/metrics.py:4-7 | the first position at which a label occurs |
| `Metrics.Positions` | src/metrics.py:4-7 | for every item of one ranking, the position it takes in the other |
| `Metrics.RankTau` | src/metrics.py:11-12 | tau between the two orderings lies between -1 and 1 |
| `Metrics.RankDistance` | src/metrics.py:3-18 | fails exactly when the item sets differ; otherwise the share of item pairs ordered differently by the two rankings, in [0, 1] |
| `Metrics.RankDistanceIdentity` | src/metrics.py:6 | a ranking is at distance 0 from itself |
| `Metrics.RankDistanceReversal` | src/metrics.py:6 | a ranking is at distance 1 from its exact reverse |
| `Metrics.ReverseKeepsItems` | src/metrics.py:9 | a reversed ranking has no repeats and the same item set |
| `Experiment.Judge` | src/model.py:44-46 | the winner is one of the two options; the first wins on a strictly higher logit, the second otherwise, including ties |
| `Experiment.RowPairs` | src/experiment.py:15 | the row of first position i has one pair per other position |
| `Experiment.PairsUpTo` | src/experiment.py:15 | the first i rows have i(n-1) pairs |
| `Experiment.OrderedPairs` | src/experiment.py:15 | there are n(n-1) ordered pairs |
| `Experiment.PairAt` | src/experiment.py:15 | for positions a != b, the pair (colors[a], colors[b]) is at index a(n-1) + (b if b < a else b - 1): permutations order |
| `Experiment.PairsAtIndex` | src/experiment.py:15 | every index holds the pair of two different positions, so every pair is of that form |
| `Experiment.BothOrders` | src/experiment.py:15-21 | whenever (a, b) is presented, (b, a) is presented too |
| `Experiment.PairsOfColors` | src/experiment.py:15 | both colours of a pair are colours of the session; without repeats they differ |
| `Experiment.TrialFor` | src/experiment.py:21-28 | the record carries player 1, player 2 and the template as given, and a winner that is one of the players |
| `Experiment.Batch` | src/experiment.py:11-30 | n(n-1) records, record k being the trial of the k-th ordered pair |
| `Experiment.BatchKnown` | src/experiment.py:22-26 | every winner and loser of a batch is a session colour, so the fit never raises on it |
| `Experiment.BatchPlayersDiffer` | src/experiment.py:15-26 | with distinct colours nobody plays themself and the loser is never the winner |
| `Experiment.RunExperiment` | src/experiment.py:11-30 | the results are exactly the batch: one record per ordered pair, in permutations order |
| `Experiment.Cumulative` | src/experiment.py:38-40 | the cumulative `pd.concat`: the results after k templates are those after k - 1 templates followed by template k's batch (no contract of its own; `CumulativeLength`, `CumulativeSnoc` and `CumulativeAppend` state its properties) |
| `Experiment.CumulativeLength` | src/experiment.py:38-40 | after k templates the results hold k · n(n-1) records |
| `Experiment.CumulativeSnoc` | src/experiment.py:39-40 | one iteration appends exactly the new batch to the results |
| `Experiment.CumulativeAppend` | src/experiment.py:38-40 | the results of a longer run extend those of a shorter one by the later batches, in order |
| `Experiment.CumulativeKnown` | src/experiment.py:38-41 | every cumulative result reaches the fit with known labels |
| `Experiment.WinsGrowOverSession` | src/experiment.py:40-41 | from one refit to a later one no win count decreases, since the fitter always sees every earlier batch |
| `Experiment.Fitted` | src/experiment.py:41 | the ranking after template i is fitted on the results of templates 0 to i; it is sorted and ranks every colour exactly once |
| `Experiment.History` | src/experiment.py:37-46 | snapshot q is the ranking fitted after template q, tagged with iteration q |
| `Experiment.Moved` | src/experiment.py:44 | the distance between two snapshots of the same colours is `calculate_kendall_distance` of their `Color` columns as the repository computes it (`KendallDistance`), and it lies in [0, 1] |
| `Experiment.MovedReversal` | src/experiment.py:44 | for a ranking red, blue, green followed by its exact reverse, the session reports 1/3, while the corrected rank distance is 1 |
| `Experiment.Drift` | src/experiment.py:43-45 | no distance in the first iteration and exactly one in each later iteration |
| `Experiment.DriftAt` | src/experiment.py:43-45 | distance q compares snapshot q with snapshot q + 1 |
| `Experiment.Refit` | src/experiment.py:39-41 | one iteration appends exactly the template's batch to the results and fits on all of them, giving the ranking after that template |
| `Experiment.Record` | src/experiment.py:43-46 | the new snapshot goes at the end of the history; the as-written Kendall distance to the previous snapshot is added only when there is one |
| `Experiment.Iterate` | src/experiment.py:38-46 | one pass of the loop takes the results, the history and the as-written Kendall distances from after i templates to after i + 1 |
| `Experiment.RunFullExperiment` | src/experiment.py:32-55 | the results are all batches in template order; there is one snapshot per template and each is the fit on everything seen up to it; there is one distance per iteration after the first, each the as-written Kendall distance between consecutive snapshots; an empty template list fails at the final concatenation |

## Left out

- The negative log-likelihood and the BFGS minimiser (src/pref_models.py:27-40): floating-point numerical code. The optimiser is a parameter, so the model says nothing about the fitted scores beyond their shape. Centring subtracts the mean, so the scores sum to zero and keep the optimiser's pairwise differences (`PrefModels.Centre`).
- The language model itself (src/model.py), prompt formatting with `str.format` and model loading are outside this model. The model's logits are a `Logits` parameter.
- The CSV files, the output directory and the prints (src/experiment.py:42, 45, 49-53) are left out: they are output only. The printed distances are returned as the `distances` sequence, computed as the repository computes them.
- The default experiment name (src/experiment.py:33-34) is left out. It calls `datetime.now()` on the `datetime` module, which has no such attribute, so the call would raise before any trial.
- Tie order in the sort: pandas' default sort does not promise an order among equal scores. The model uses a stable insertion sort, which yields one of the orders pandas permits.
- The rankings table is a sequence of snapshots, not one concatenated data frame. With no templates, `pd.concat` raises on the empty list of snapshots; the model returns the error `NoObjectsToConcatenate` alongside its empty outputs.
- FitBradleyTerry: requires at least one item. With no items the source calls the optimiser on an empty vector and takes the mean of an empty array.
- KendallDistance: requires lists without repeats and of at least two items. The tie-corrected tau-b for repeated labels and the NaN the library returns for a single item are not modelled.
- RankDistance: requires lists without repeats and of at least two items, as KendallDistance does.
- RunFullExperiment: requires distinct colours, at least two of them. With repeated colours the permutations produce self-pairs and the distance would need tie handling.
- Floating-point semantics are not modelled: all scores and distances are exact reals.

## Findings

| source | as written | input that shows it | evidently intended | confidence | as-written member | corrected member |
|---|---|---|---|---|---|---|
| src/metrics.py:6-12 | `kendalltau(ranking_a, ranking_b)` pairs the two label lists position by position and compares the labels as strings. It measures how far the alphabetical orders of the two lists agree, not how far the rankings agree | `["red", "blue", "green"]` against its exact reverse `["green", "blue", "red"]` gives distance 1/3, though the docstring promises 1.0 for a completely reversed ranking | tau between the positions each item takes in the two rankings, which is 0 for identical and 1 for reversed rankings | high; not executed | `Metrics.KendallReversalCounterexample` (on `Metrics.KendallDistance`) | `Metrics.RankDistance` with `Metrics.RankDistanceIdentity` and `Metrics.RankDistanceReversal`; `Experiment.MovedReversal` shows the session's reported distance against it. The session loop keeps the as-written distance, since that is what the program reports |
