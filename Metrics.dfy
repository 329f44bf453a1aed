/**
 * The normalised Kendall distance between two rankings, `(1 - tau) / 2`.
 *
 * `KendallDistance` is the distance as the repository computes it: Kendall's
 * tau between the two label lists themselves, position by position, with the
 * labels compared as strings. `RankDistance` is the distance between the two
 * orderings that the surrounding code and its documentation mean: tau between
 * the positions the items take in the two rankings.
 */
module Metrics {
  import opened Items

  datatype DistanceError = ItemSetMismatch

  // ---------------------------------------------------------------------------
  // String order
  // ---------------------------------------------------------------------------

  /** Python's `<` on `str`: lexicographic by code point, a proper prefix first. */
  predicate StrLess(s: string, t: string)
  {
    if |s| == 0 then |t| > 0
    else if |t| == 0 then false
    else if s[0] != t[0] then s[0] < t[0]
    else StrLess(s[1..], t[1..])
  }

  lemma {:induction false} StrLessIrreflexive(s: string)
    ensures !StrLess(s, s)
  {
    if |s| > 0 {
      StrLessIrreflexive(s[1..]);
    }
  }

  /** Of two different strings exactly one is smaller. */
  lemma {:induction false} StrLessTotal(s: string, t: string)
    requires s != t
    ensures StrLess(s, t) != StrLess(t, s)
  {
    if |s| > 0 && |t| > 0 && s[0] == t[0] {
      assert s == [s[0]] + s[1..] && t == [t[0]] + t[1..];
      StrLessTotal(s[1..], t[1..]);
    }
  }

  // ---------------------------------------------------------------------------
  // Counting pairs of positions
  // ---------------------------------------------------------------------------

  /** The number of unordered pairs among m positions, built up one position at a time. */
  function Choose2(m: nat): (c: nat)
    ensures 2 * c == m * (m - 1)
  {
    if m == 0 then 0 else Choose2(m - 1) + (m - 1)
  }

  /** Positions k and l order the labels of the two lists in opposite ways. */
  predicate Discordant(a: seq<Item>, b: seq<Item>, k: nat, l: nat)
    requires k < |a| && l < |a| && |a| == |b|
  {
    StrLess(a[k], a[l]) != StrLess(b[k], b[l])
  }

  /**
   * Lists without repeats have no ties: a pair of positions is discordant
   * exactly when the two lists order its labels in opposite directions, and
   * concordant exactly when they order them in the same direction.
   */
  lemma DiscordantIsOppositeOrder(a: seq<Item>, b: seq<Item>, k: nat, l: nat)
    requires Distinct(a) && Distinct(b) && k < l < |a| == |b|
    ensures Discordant(a, b, k, l) <==>
              (StrLess(a[k], a[l]) && StrLess(b[l], b[k])) || (StrLess(a[l], a[k]) && StrLess(b[k], b[l]))
    ensures !Discordant(a, b, k, l) <==>
              (StrLess(a[k], a[l]) && StrLess(b[k], b[l])) || (StrLess(a[l], a[k]) && StrLess(b[l], b[k]))
  {
    StrLessTotal(a[k], a[l]);
    StrLessTotal(b[k], b[l]);
  }

  /** Discordant pairs (k, l) with k below `upto`, for a fixed later position l. */
  function DiscordantWith(a: seq<Item>, b: seq<Item>, l: nat, upto: nat): nat
    requires upto <= l < |a| == |b|
  {
    if upto == 0 then 0
    else DiscordantWith(a, b, l, upto - 1) + (if Discordant(a, b, upto - 1, l) then 1 else 0)
  }

  /** Concordant pairs (k, l) with k below `upto`, for a fixed later position l. */
  function ConcordantWith(a: seq<Item>, b: seq<Item>, l: nat, upto: nat): nat
    requires upto <= l < |a| == |b|
  {
    if upto == 0 then 0
    else ConcordantWith(a, b, l, upto - 1) + (if Discordant(a, b, upto - 1, l) then 0 else 1)
  }

  /** Discordant pairs k < l among the first m positions. */
  function DiscordantPairs(a: seq<Item>, b: seq<Item>, m: nat): nat
    requires m <= |a| == |b|
  {
    if m == 0 then 0 else DiscordantPairs(a, b, m - 1) + DiscordantWith(a, b, m - 1, m - 1)
  }

  /** Concordant pairs k < l among the first m positions. */
  function ConcordantPairs(a: seq<Item>, b: seq<Item>, m: nat): nat
    requires m <= |a| == |b|
  {
    if m == 0 then 0 else ConcordantPairs(a, b, m - 1) + ConcordantWith(a, b, m - 1, m - 1)
  }

  /** Without ties every pair is concordant or discordant, and not both. */
  lemma {:induction false} PairsWithPartition(a: seq<Item>, b: seq<Item>, l: nat, upto: nat)
    requires upto <= l < |a| == |b|
    ensures ConcordantWith(a, b, l, upto) + DiscordantWith(a, b, l, upto) == upto
  {
    if upto > 0 {
      PairsWithPartition(a, b, l, upto - 1);
    }
  }

  lemma {:induction false} PairsPartition(a: seq<Item>, b: seq<Item>, m: nat)
    requires m <= |a| == |b|
    ensures ConcordantPairs(a, b, m) + DiscordantPairs(a, b, m) == Choose2(m)
  {
    if m > 0 {
      PairsPartition(a, b, m - 1);
      PairsWithPartition(a, b, m - 1, m - 1);
    }
  }

  // ---------------------------------------------------------------------------
  // The distance as the repository computes it
  // ---------------------------------------------------------------------------

  /**
   * `kendalltau(ranking_a, ranking_b)` for lists without repeats: concordant
   * minus discordant position pairs over all pairs, the labels compared as strings.
   */
  function Tau(a: seq<Item>, b: seq<Item>): (tau: real)
    requires Distinct(a) && Distinct(b) && |a| == |b| && |a| >= 2
    ensures -1.0 <= tau <= 1.0
  {
    var n := |a|;
    PairsPartition(a, b, n);
    var c, d, p := ConcordantPairs(a, b, n) as real, DiscordantPairs(a, b, n) as real, Choose2(n) as real;
    RatioBounds(c - d, p);
    (c - d) / p
  }

  /** A quotient of a numerator no larger in size than its positive denominator. */
  lemma RatioBounds(x: real, p: real)
    requires p > 0.0 && -p <= x <= p
    ensures -1.0 <= x / p <= 1.0
  {
    var q := x / p;
    assert q * p == x;
  }

  lemma MulCancel(x: real, y: real, p: real)
    requires p > 0.0 && x * p == y * p
    ensures x == y
  {
  }

  /** A tau of `(p - 2d) / p` is a distance of `d / p`. */
  lemma DistanceOfShare(d: real, p: real)
    requires p > 0.0
    ensures TauToDistance((p - 2.0 * d) / p) == d / p
  {
    var q, t := d / p, (p - 2.0 * d) / p;
    assert q * p == d && t * p == p - 2.0 * d;
    var s := 1.0 - 2.0 * q;
    assert s * p == p - 2.0 * (q * p);
    assert s * p == p - 2.0 * d;
    MulCancel(t, s, p);
  }

  /** `(1 - tau) / 2`: an affine, strictly decreasing map of [-1, 1] onto [0, 1]. */
  function TauToDistance(tau: real): (d: real)
    ensures tau == 1.0 - 2.0 * d
    ensures -1.0 <= tau <= 1.0 ==> 0.0 <= d <= 1.0
    ensures tau == 1.0 ==> d == 0.0
    ensures tau == -1.0 ==> d == 1.0
  {
    (1.0 - tau) / 2.0
  }

  lemma TauToDistanceDecreasing(t1: real, t2: real)
    requires t1 < t2
    ensures TauToDistance(t1) > TauToDistance(t2)
  {
  }

  /**
   * `calculate_kendall_distance(ranking_a, ranking_b)`: fails on different item
   * sets (the assertion), otherwise maps tau to `(1 - tau) / 2`.
   */
  function KendallDistance(a: seq<Item>, b: seq<Item>): (r: Result<real, DistanceError>)
    requires Distinct(a) && Distinct(b) && |a| >= 2
    ensures r.Failure? <==> ItemSet(a) != ItemSet(b)
    ensures r.Success? ==> |a| == |b| && r.value == TauToDistance(Tau(a, b))
    ensures r.Success? ==> 0.0 <= r.value <= 1.0
  {
    if ItemSet(a) != ItemSet(b) then Failure(ItemSetMismatch)
    else
      DistinctSetSize(a);
      DistinctSetSize(b);
      Success(TauToDistance(Tau(a, b)))
  }

  /** The distance is the share of discordant position pairs. */
  lemma KendallDistanceIsDiscordantShare(a: seq<Item>, b: seq<Item>)
    requires Distinct(a) && Distinct(b) && |a| >= 2
    requires ItemSet(a) == ItemSet(b)
    ensures |a| == |b|
    ensures KendallDistance(a, b) == Success(DiscordantPairs(a, b, |a|) as real / Choose2(|a|) as real)
  {
    DistinctSetSize(a);
    DistinctSetSize(b);
    var n := |a|;
    PairsPartition(a, b, n);
    var c, d, p := ConcordantPairs(a, b, n) as real, DiscordantPairs(a, b, n) as real, Choose2(n) as real;
    assert c - d == p - 2.0 * d;
    DistanceOfShare(d, p);
  }

  lemma {:induction false} NoDiscordanceWithSelf(a: seq<Item>, l: nat, upto: nat)
    requires upto <= l < |a|
    ensures DiscordantWith(a, a, l, upto) == 0
  {
    if upto > 0 {
      NoDiscordanceWithSelf(a, l, upto - 1);
    }
  }

  lemma {:induction false} NoDiscordantPairsWithSelf(a: seq<Item>, m: nat)
    requires m <= |a|
    ensures DiscordantPairs(a, a, m) == 0
  {
    if m > 0 {
      NoDiscordantPairsWithSelf(a, m - 1);
      NoDiscordanceWithSelf(a, m - 1, m - 1);
    }
  }

  /** Identical lists have no discordant pair: tau is 1 and the distance 0. */
  lemma KendallIdentity(a: seq<Item>)
    requires Distinct(a) && |a| >= 2
    ensures Tau(a, a) == 1.0
    ensures KendallDistance(a, a) == Success(0.0)
  {
    var n := |a|;
    NoDiscordantPairsWithSelf(a, n);
    PairsPartition(a, a, n);
    var p := Choose2(n) as real;
    assert ConcordantPairs(a, a, n) as real == p && p > 0.0;
    assert Tau(a, a) == p / p;
  }

  lemma {:induction false} AllDiscordantWith(a: seq<Item>, b: seq<Item>, l: nat, upto: nat)
    requires upto <= l < |a| == |b|
    requires forall k :: 0 <= k < l ==> Discordant(a, b, k, l)
    ensures DiscordantWith(a, b, l, upto) == upto
  {
    if upto > 0 {
      AllDiscordantWith(a, b, l, upto - 1);
    }
  }

  lemma {:induction false} AllDiscordantPairs(a: seq<Item>, b: seq<Item>, m: nat)
    requires m <= |a| == |b|
    requires forall k, l :: 0 <= k < l < |a| ==> Discordant(a, b, k, l)
    ensures DiscordantPairs(a, b, m) == Choose2(m)
  {
    if m > 0 {
      AllDiscordantPairs(a, b, m - 1);
      AllDiscordantWith(a, b, m - 1, m - 1);
    }
  }

  /** When every position pair is discordant, tau is -1 and the distance 1. */
  lemma KendallAllDiscordant(a: seq<Item>, b: seq<Item>)
    requires Distinct(a) && Distinct(b) && |a| >= 2
    requires ItemSet(a) == ItemSet(b)
    requires |a| == |b| && forall k, l :: 0 <= k < l < |a| ==> Discordant(a, b, k, l)
    ensures Tau(a, b) == -1.0
    ensures KendallDistance(a, b) == Success(1.0)
  {
    AllDiscordantPairs(a, b, |a|);
    PairsPartition(a, b, |a|);
  }

  // ---------------------------------------------------------------------------
  // The distance between the two orderings
  // ---------------------------------------------------------------------------

  /** The first position of `x` in `s`. */
  function IndexOf(s: seq<Item>, x: Item): (k: nat)
    requires x in s
    ensures k < |s| && s[k] == x
    ensures forall q :: 0 <= q < k ==> s[q] != x
  {
    if s[0] == x then 0 else 1 + IndexOf(s[1..], x)
  }

  lemma IndexOfDistinct(s: seq<Item>, i: nat)
    requires Distinct(s) && i < |s|
    ensures IndexOf(s, s[i]) == i
  {
    var k := IndexOf(s, s[i]);
    assert s[k] == s[i];
  }

  /** For each item of `a`, where it stands in `b`. */
  function Positions(b: seq<Item>, a: seq<Item>): (p: seq<nat>)
    requires ItemSet(a) <= ItemSet(b)
    ensures |p| == |a|
    ensures forall k {:trigger p[k]} :: 0 <= k < |a| ==> p[k] < |b| && b[p[k]] == a[k]
  {
    assert forall k :: 0 <= k < |a| ==> a[k] in ItemSet(a);
    seq(|a|, k requires 0 <= k < |a| => IndexOf(b, a[k]))
  }

  /** Inverted pairs (k, l) with k below `upto`, for a fixed later position l. */
  function InversionsWith(p: seq<nat>, l: nat, upto: nat): (c: nat)
    requires upto <= l < |p|
    ensures c <= upto
  {
    if upto == 0 then 0 else InversionsWith(p, l, upto - 1) + (if p[upto - 1] > p[l] then 1 else 0)
  }

  /** Inverted pairs k < l among the first m positions. */
  function Inversions(p: seq<nat>, m: nat): (c: nat)
    requires m <= |p|
    ensures c <= Choose2(m)
  {
    if m == 0 then 0 else Inversions(p, m - 1) + InversionsWith(p, m - 1, m - 1)
  }

  /**
   * Kendall's tau between the rank vectors of the two orderings: a pair of
   * items is discordant when the rankings put them in opposite orders.
   */
  function RankTau(a: seq<Item>, b: seq<Item>): (tau: real)
    requires |a| >= 2
    requires ItemSet(a) <= ItemSet(b)
    ensures -1.0 <= tau <= 1.0
  {
    var n := |a|;
    var inv, p := Inversions(Positions(b, a), n) as real, Choose2(n) as real;
    RatioBounds(p - 2.0 * inv, p);
    (p - 2.0 * inv) / p
  }

  /** The normalised Kendall distance between two orderings of the same items. */
  function RankDistance(a: seq<Item>, b: seq<Item>): (r: Result<real, DistanceError>)
    requires Distinct(a) && Distinct(b) && |a| >= 2
    ensures r.Failure? <==> ItemSet(a) != ItemSet(b)
    ensures r.Success? ==> 0.0 <= r.value <= 1.0
    ensures r.Success? ==> r.value == Inversions(Positions(b, a), |a|) as real / Choose2(|a|) as real
  {
    if ItemSet(a) != ItemSet(b) then Failure(ItemSetMismatch)
    else
      DistanceOfShare(Inversions(Positions(b, a), |a|) as real, Choose2(|a|) as real);
      Success(TauToDistance(RankTau(a, b)))
  }

  lemma {:induction false} NoInversionsWith(p: seq<nat>, l: nat, upto: nat)
    requires upto <= l < |p|
    requires forall k :: 0 <= k < |p| ==> p[k] == k
    ensures InversionsWith(p, l, upto) == 0
  {
    if upto > 0 {
      NoInversionsWith(p, l, upto - 1);
    }
  }

  lemma {:induction false} NoInversions(p: seq<nat>, m: nat)
    requires m <= |p|
    requires forall k :: 0 <= k < |p| ==> p[k] == k
    ensures Inversions(p, m) == 0
  {
    if m > 0 {
      NoInversions(p, m - 1);
      NoInversionsWith(p, m - 1, m - 1);
    }
  }

  /** The same ordering twice is at distance 0. */
  lemma RankDistanceIdentity(a: seq<Item>)
    requires Distinct(a) && |a| >= 2
    ensures RankDistance(a, a) == Success(0.0)
  {
    var p := Positions(a, a);
    forall k | 0 <= k < |a| ensures p[k] == k {
      IndexOfDistinct(a, k);
    }
    NoInversions(p, |a|);
  }

  /** The list in reverse order. */
  function Reverse(s: seq<Item>): (r: seq<Item>)
    ensures |r| == |s|
    ensures forall k :: 0 <= k < |s| ==> r[k] == s[|s| - 1 - k]
  {
    seq(|s|, k requires 0 <= k < |s| => s[|s| - 1 - k])
  }

  lemma ReverseKeepsItems(s: seq<Item>)
    requires Distinct(s)
    ensures Distinct(Reverse(s))
    ensures ItemSet(Reverse(s)) == ItemSet(s)
  {
    var r := Reverse(s);
    forall x | x in ItemSet(s) ensures x in ItemSet(r) {
      var k :| 0 <= k < |s| && s[k] == x;
      assert r[|s| - 1 - k] == x;
    }
  }

  lemma {:induction false} AllInversionsWith(p: seq<nat>, l: nat, upto: nat)
    requires upto <= l < |p|
    requires forall k :: 0 <= k < |p| ==> p[k] == |p| - 1 - k
    ensures InversionsWith(p, l, upto) == upto
  {
    if upto > 0 {
      AllInversionsWith(p, l, upto - 1);
    }
  }

  lemma {:induction false} AllInversions(p: seq<nat>, m: nat)
    requires m <= |p|
    requires forall k :: 0 <= k < |p| ==> p[k] == |p| - 1 - k
    ensures Inversions(p, m) == Choose2(m)
  {
    if m > 0 {
      AllInversions(p, m - 1);
      AllInversionsWith(p, m - 1, m - 1);
    }
  }

  /** In the reversed list the item at position k of `a` stands at position n - 1 - k. */
  lemma ReversePositions(a: seq<Item>)
    requires Distinct(a)
    ensures ItemSet(a) <= ItemSet(Reverse(a))
    ensures forall k :: 0 <= k < |a| ==> Positions(Reverse(a), a)[k] == |a| - 1 - k
  {
    ReverseKeepsItems(a);
    var r := Reverse(a);
    var p := Positions(r, a);
    forall k | 0 <= k < |a| ensures p[k] == |a| - 1 - k {
      SameItemSamePlace(r, p[k], |a| - 1 - k);
    }
  }

  lemma SameItemSamePlace(s: seq<Item>, i: nat, j: nat)
    requires Distinct(s) && i < |s| && j < |s| && s[i] == s[j]
    ensures i == j
  {
  }

  /** A ranking and its exact reverse are at distance 1. */
  lemma RankDistanceReversal(a: seq<Item>)
    requires Distinct(a) && |a| >= 2
    ensures Distinct(Reverse(a))
    ensures RankDistance(a, Reverse(a)) == Success(1.0)
  {
    ReverseKeepsItems(a);
    ReversePositions(a);
    AllInversions(Positions(Reverse(a), a), |a|);
  }

  /**
   * The label lists are paired position by position, so an exact reversal is
   * not at distance 1: red, blue, green against green, blue, red gives 1/3.
   */
  lemma KendallReversalCounterexample()
    ensures Distinct(["red", "blue", "green"])
    ensures Reverse(["red", "blue", "green"]) == ["green", "blue", "red"]
    ensures KendallDistance(["red", "blue", "green"], ["green", "blue", "red"]) == Success(1.0 / 3.0)
    ensures RankDistance(["red", "blue", "green"], ["green", "blue", "red"]) == Success(1.0)
  {
    var a: seq<Item> := ["red", "blue", "green"];
    var b: seq<Item> := ["green", "blue", "red"];
    assert Distinct(a) && Distinct(b);
    assert Reverse(a) == b;
    RankDistanceReversal(a);
    assert ItemSet(a) == ItemSet(b) by {
      assert forall x :: x in a <==> x in b;
    }
    assert !StrLess(a[0], a[1]) && !StrLess(b[0], b[1]);
    assert !StrLess(a[0], a[2]) && StrLess(b[0], b[2]);
    assert StrLess(a[1], a[2]) && StrLess(b[1], b[2]);
    assert !Discordant(a, b, 0, 1) && Discordant(a, b, 0, 2) && !Discordant(a, b, 1, 2);
    assert DiscordantWith(a, b, 1, 1) == 0;
    assert DiscordantWith(a, b, 2, 2) == 1;
    assert DiscordantPairs(a, b, 1) == 0;
    assert DiscordantPairs(a, b, 3) == 1;
    assert Choose2(3) == 3;
    KendallDistanceIsDiscordantShare(a, b);
  }
}
