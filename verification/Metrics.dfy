/** Ranked-retrieval metrics (benchmarks/scripts/run_semantic_quality.py:458-474), before they are
    rounded for the report.

    The discount 1 / log2(i + 2) enters only as a positive, strictly decreasing function. */
module Metrics {
  import opened Common

  type MemoryId = string

  const SEARCH_LIMIT: nat := 10
  const RECALL_KS: seq<nat> := [1, 3, 5, 10]

  datatype Metrics = Metrics(firstGoldRank: Option<nat>, mrr: real, ndcg: real, precisionAt5: real,
                             recallAt: map<nat, nat>)

  ghost predicate IsDiscount(discount: nat -> real) {
    && (forall i :: discount(i) > 0.0)
    && (forall i, j :: i < j ==> discount(i) > discount(j))
  }

  function Take<T>(s: seq<T>, k: nat): seq<T> {
    s[..Min(k, |s|)]
  }

  function Relevances(results: seq<MemoryId>, gold: set<MemoryId>): (rels: seq<nat>)
    ensures |rels| == Min(SEARCH_LIMIT, |results|)
    ensures forall i :: 0 <= i < |rels| ==> rels[i] == if results[i] in gold then 1 else 0
  {
    var top := Take(results, SEARCH_LIMIT);
    seq(|top|, i requires 0 <= i < |top| => if top[i] in gold then 1 else 0)
  }

  function Gain(discount: nat -> real, rels: seq<nat>): real {
    if rels == [] then 0.0
    else Gain(discount, rels[..|rels| - 1]) + rels[|rels| - 1] as real * discount(|rels| - 1)
  }

  function Dcg(discount: nat -> real, rels: seq<nat>, k: nat): real {
    Gain(discount, Take(rels, k))
  }

  function FirstRank(rels: seq<nat>): Option<nat> {
    if rels == [] then None
    else if rels[0] != 0 then Some(1)
    else match FirstRank(rels[1..])
      case None => None
      case Some(r) => Some(r + 1)
  }

  function Total(rels: seq<nat>): nat {
    if rels == [] then 0 else Total(rels[..|rels| - 1]) + rels[|rels| - 1]
  }

  predicate Any(rels: seq<nat>) {
    exists i :: 0 <= i < |rels| && rels[i] != 0
  }

  function Ideal(discount: nat -> real, gold: set<MemoryId>): real {
    Dcg(discount, seq(Min(|gold|, SEARCH_LIMIT), i => 1), SEARCH_LIMIT)
  }

  function QueryMetrics(discount: nat -> real, results: seq<MemoryId>, gold: set<MemoryId>): Metrics {
    var rels := Relevances(results, gold);
    var first := FirstRank(rels);
    var ideal := Ideal(discount, gold);
    Metrics(
      first,
      match first case Some(r) => if r == 0 then 0.0 else 1.0 / r as real case None => 0.0,
      if ideal > 0.0 then Dcg(discount, rels, SEARCH_LIMIT) / ideal else 0.0,
      Total(Take(rels, 5)) as real / 5.0,
      map k | k in RECALL_KS :: if Any(Take(rels, k)) then 1 else 0)
  }

  // ---- Gains ---------------------------------------------------------------------------

  ghost predicate Bits(rels: seq<nat>) {
    forall i :: 0 <= i < |rels| ==> rels[i] <= 1
  }

  /** The gain of `m` relevant results on top. */
  function Best(discount: nat -> real, m: nat): real {
    if m == 0 then 0.0 else Best(discount, m - 1) + discount(m - 1)
  }

  /** All the relevant results come first. */
  ghost predicate OnTop(rels: seq<nat>) {
    Total(rels) <= |rels| && forall i :: 0 <= i < Total(rels) ==> rels[i] == 1
  }

  lemma {:induction false} TotalAtMost(rels: seq<nat>)
    requires Bits(rels)
    ensures Total(rels) <= |rels|
    ensures Total(rels) == |rels| <==> forall i :: 0 <= i < |rels| ==> rels[i] == 1
    ensures Total(rels) == 0 <==> !Any(rels)
  {
    if rels != [] { TotalAtMost(rels[..|rels| - 1]); }
  }

  lemma GainOfOneMore(discount: nat -> real, rels: seq<nat>)
    requires rels != [] && Bits(rels)
    ensures var n := |rels| - 1;
      && Gain(discount, rels) == Gain(discount, rels[..n]) + (if rels[n] == 1 then discount(n) else 0.0)
      && Bits(rels[..n]) && Total(rels) == Total(rels[..n]) + rels[n]
  {
    hide Gain, Total;
    TotalsUnfold(discount, rels);
    BitTimes(rels[|rels| - 1], discount(|rels| - 1));
  }

  lemma TotalsUnfold(discount: nat -> real, rels: seq<nat>)
    requires rels != []
    ensures var n := |rels| - 1;
      && Gain(discount, rels) == Gain(discount, rels[..n]) + rels[n] as real * discount(n)
      && Total(rels) == Total(rels[..n]) + rels[n]
  {
  }

  lemma BitTimes(bit: nat, d: real)
    requires bit <= 1
    ensures bit as real * d == if bit == 1 then d else 0.0
  {
  }

  lemma OnTopOfOneMore(rels: seq<nat>)
    requires rels != [] && Bits(rels)
    ensures var n := |rels| - 1;
      && (rels[n] == 0 ==> (OnTop(rels) <==> OnTop(rels[..n])))
      && (rels[n] == 1 ==> (OnTop(rels) <==> Total(rels[..n]) == n))
      && (Total(rels[..n]) == n ==> OnTop(rels[..n]))
  {
    var n := |rels| - 1;
    var before := rels[..n];
    TotalAtMost(before);
    TotalAtMost(rels);
    if rels[n] == 1 && OnTop(rels) && Total(before) < n {
      OnesCounted(before, Total(rels));
    }
  }

  /** No ranking of the same number of relevant results gains more than the one with all of them on
      top, and no other gains as much. */
  lemma {:induction false} OnTopIsBest(discount: nat -> real, rels: seq<nat>)
    requires IsDiscount(discount) && Bits(rels)
    ensures 0.0 <= Gain(discount, rels) <= Best(discount, Total(rels))
    ensures Gain(discount, rels) == Best(discount, Total(rels)) <==> OnTop(rels)
  {
    if rels != [] {
      var n := |rels| - 1;
      GainOfOneMore(discount, rels);
      OnTopOfOneMore(rels);
      OnTopIsBest(discount, rels[..n]);
      TotalAtMost(rels[..n]);
      hide Gain, OnTop, Total;
    }
  }

  lemma {:induction false} OnesCounted(rels: seq<nat>, m: nat)
    requires m <= |rels| && forall i :: 0 <= i < m ==> rels[i] == 1
    ensures Total(rels) >= m
    decreases |rels|
  {
    if rels != [] {
      var n := |rels| - 1;
      if m <= n { OnesCounted(rels[..n], m); } else { OnesCounted(rels[..n], n); }
    }
  }

  lemma {:induction false} BestGrows(discount: nat -> real, m: nat, n: nat)
    requires IsDiscount(discount) && m <= n
    ensures Best(discount, m) <= Best(discount, n)
    ensures m < n ==> Best(discount, m) < Best(discount, n)
    decreases n
  {
    if m < n { BestGrows(discount, m, n - 1); }
  }

  lemma {:induction false} GainOfOnes(discount: nat -> real, m: nat)
    ensures Gain(discount, seq(m, i => 1)) == Best(discount, m)
  {
    if m > 0 {
      GainOfOnes(discount, m - 1);
      assert seq(m, i => 1)[..m - 1] == seq(m - 1, i => 1);
    }
  }

  lemma IdealIsBest(discount: nat -> real, gold: set<MemoryId>)
    requires IsDiscount(discount)
    ensures Ideal(discount, gold) == Best(discount, Min(|gold|, SEARCH_LIMIT))
    ensures Ideal(discount, gold) > 0.0 <==> gold != {}
  {
    var m := Min(|gold|, SEARCH_LIMIT);
    GainOfOnes(discount, m);
    BestGrows(discount, 0, m);
    var ones := seq(m, i => 1);
    assert ones[..m] == ones;
  }

  /** Distinct results hit each gold memory at most once. */
  lemma {:induction false} HitsAreGold(results: seq<MemoryId>, gold: set<MemoryId>, rels: seq<nat>, hits: set<MemoryId>)
    requires Distinct(results) && |rels| <= |results|
    requires forall i :: 0 <= i < |rels| ==> rels[i] == if results[i] in gold then 1 else 0
    requires hits == set i | 0 <= i < |rels| && results[i] in gold :: results[i]
    ensures Total(rels) == |hits| <= |gold|
    decreases |rels|
  {
    if rels == [] {
      assert hits == {};
    } else {
      var n := |rels| - 1;
      var before := set i | 0 <= i < n && results[i] in gold :: results[i];
      HitsAreGold(results, gold, rels[..n], before);
      assert results[n] !in before;
      if results[n] in gold {
        assert hits == before + {results[n]};
      } else {
        assert hits == before;
      }
    }
    SubsetSize(hits, gold);
  }

  lemma RelevancesCount(results: seq<MemoryId>, gold: set<MemoryId>)
    requires Distinct(results)
    ensures var rels := Relevances(results, gold);
      Bits(rels) && Take(rels, SEARCH_LIMIT) == rels && Total(rels) <= Min(|gold|, SEARCH_LIMIT)
  {
    var rels := Relevances(results, gold);
    HitsAreGold(results, gold, rels, set i | 0 <= i < |rels| && results[i] in gold :: results[i]);
    TotalAtMost(rels);
  }

  // ---- The metrics ---------------------------------------------------------------------

  /** The first min(|gold|, 10) results are all gold. */
  ghost predicate GoldFirst(results: seq<MemoryId>, gold: set<MemoryId>) {
    var wanted := Min(|gold|, SEARCH_LIMIT);
    wanted <= |results| && forall i :: 0 <= i < wanted ==> results[i] in gold
  }

  ghost predicate Hit(results: seq<MemoryId>, gold: set<MemoryId>) {
    exists i :: 0 <= i < |results| && i < SEARCH_LIMIT && results[i] in gold
  }

  lemma HitIff(results: seq<MemoryId>, gold: set<MemoryId>)
    ensures Any(Relevances(results, gold)) <==> Hit(results, gold)
  {
    var rels := Relevances(results, gold);
    if i :| 0 <= i < |results| && i < SEARCH_LIMIT && results[i] in gold { assert rels[i] != 0; }
    if i :| 0 <= i < |rels| && rels[i] != 0 { assert results[i] in gold; }
  }

  lemma GoldFirstIff(results: seq<MemoryId>, gold: set<MemoryId>)
    requires Distinct(results)
    ensures var rels := Relevances(results, gold);
      Total(rels) == Min(|gold|, SEARCH_LIMIT) && OnTop(rels) <==> GoldFirst(results, gold)
  {
    var rels := Relevances(results, gold);
    RelevancesCount(results, gold);
    if GoldFirst(results, gold) {
      OnesCounted(rels, Min(|gold|, SEARCH_LIMIT));
    }
  }

  lemma GainAgainstIdeal(discount: nat -> real, results: seq<MemoryId>, gold: set<MemoryId>)
    requires IsDiscount(discount) && Distinct(results)
    ensures var gain, ideal := Dcg(discount, Relevances(results, gold), SEARCH_LIMIT), Ideal(discount, gold);
      && 0.0 <= gain <= ideal && (ideal > 0.0 <==> gold != {})
      && (gain == ideal <==> GoldFirst(results, gold)) && (gain == 0.0 <==> !Hit(results, gold))
  {
    var rels, wanted := Relevances(results, gold), Min(|gold|, SEARCH_LIMIT);
    RelevancesCount(results, gold);
    IdealIsBest(discount, gold);
    OnTopIsBest(discount, rels);
    BestGrows(discount, Total(rels), wanted);
    GoldFirstIff(results, gold);
    HitIff(results, gold);
    GainIsZeroIff(discount, rels);
    hide Gain, Ideal, Best, Total, OnTop, GoldFirst, Hit, Relevances;
  }

  /** nDCG lies between 0 and 1.  It is 1 exactly when the first min(|gold|, 10) results are all
      gold, and 0 exactly when none of the first ten is. */
  lemma NdcgIsNormalised(discount: nat -> real, results: seq<MemoryId>, gold: set<MemoryId>)
    requires IsDiscount(discount) && Distinct(results)
    ensures var ndcg := QueryMetrics(discount, results, gold).ndcg;
      && 0.0 <= ndcg <= 1.0
      && (ndcg == 1.0 <==> gold != {} && GoldFirst(results, gold))
      && (ndcg == 0.0 <==> !Hit(results, gold))
  {
    GainAgainstIdeal(discount, results, gold);
    hide Gain, Ideal, Dcg, GoldFirst, Relevances;
    if gold != {} {
      Ratio(Dcg(discount, Relevances(results, gold), SEARCH_LIMIT), Ideal(discount, gold));
    }
  }

  lemma Ratio(a: real, b: real)
    requires 0.0 <= a <= b && b > 0.0
    ensures 0.0 <= a / b <= 1.0 && (a / b == 1.0 <==> a == b) && (a / b == 0.0 <==> a == 0.0)
  {
  }

  lemma {:induction false} GainIsZeroIff(discount: nat -> real, rels: seq<nat>)
    requires IsDiscount(discount) && Bits(rels)
    ensures Gain(discount, rels) >= 0.0
    ensures Gain(discount, rels) == 0.0 <==> !Any(rels)
  {
    if rels != [] {
      var n := |rels| - 1;
      GainIsZeroIff(discount, rels[..n]);
      assert rels == rels[..n] + [rels[n]];
      assert Any(rels) <==> Any(rels[..n]) || rels[n] != 0;
    }
  }

  /** Moving a gold result ahead of one that is not raises the gain. */
  lemma PromotionPays(discount: nat -> real, rels: seq<nat>, i: nat, j: nat)
    requires IsDiscount(discount) && i < j < |rels| && rels[i] == 0 && rels[j] == 1
    ensures Gain(discount, rels[i := 1][j := 0]) - Gain(discount, rels) == discount(i) - discount(j) > 0.0
  {
    GainUpdated(discount, rels, i, 1);
    GainUpdated(discount, rels[i := 1], j, 0);
  }

  lemma {:induction false} GainUpdated(discount: nat -> real, rels: seq<nat>, i: nat, r: nat)
    requires i < |rels|
    ensures Gain(discount, rels[i := r]) == Gain(discount, rels) + (r as real - rels[i] as real) * discount(i)
    decreases |rels|
  {
    var n := |rels| - 1;
    if i < n {
      GainUpdated(discount, rels[..n], i, r);
      assert rels[i := r][..n] == rels[..n][i := r];
    } else {
      assert rels[i := r][..n] == rels[..n];
    }
  }

  lemma {:induction false} FirstRankIs(rels: seq<nat>)
    ensures FirstRank(rels).None? <==> !Any(rels)
    ensures FirstRank(rels).Some? ==> (
      var r := FirstRank(rels).value;
      1 <= r <= |rels| && rels[r - 1] != 0 && forall i :: 0 <= i < r - 1 ==> rels[i] == 0)
  {
    if rels != [] && rels[0] == 0 {
      FirstRankIs(rels[1..]);
      assert rels == [rels[0]] + rels[1..];
      assert Any(rels[1..]) ==> Any(rels) by {
        if i :| 0 <= i < |rels[1..]| && rels[1..][i] != 0 { assert rels[i + 1] != 0; }
      }
    }
  }

  /** A hit within `k` is a first rank of at most `k`; so recall can only grow with `k`. */
  lemma RecallIsFirstRank(discount: nat -> real, results: seq<MemoryId>, gold: set<MemoryId>, k: nat)
    requires k in RECALL_KS
    ensures var m := QueryMetrics(discount, results, gold);
      && m.recallAt[k] == (if m.firstGoldRank.Some? && m.firstGoldRank.value <= k then 1 else 0)
      && forall l :: l in RECALL_KS && k <= l ==> m.recallAt[k] <= m.recallAt[l]
  {
    var rels := Relevances(results, gold);
    forall l: nat ensures Any(Take(rels, l)) <==> FirstRank(rels).Some? && FirstRank(rels).value <= l {
      AnyWithin(rels, l);
    }
  }

  lemma AnyWithin(rels: seq<nat>, l: nat)
    ensures Any(Take(rels, l)) <==> FirstRank(rels).Some? && FirstRank(rels).value <= l
  {
    FirstRankIs(rels);
    if FirstRank(rels).Some? && FirstRank(rels).value <= l {
      assert Take(rels, l)[FirstRank(rels).value - 1] != 0;
    }
    if i :| 0 <= i < |Take(rels, l)| && Take(rels, l)[i] != 0 {
      assert rels[i] != 0;
    }
  }

  lemma PrecisionIsRecall(discount: nat -> real, results: seq<MemoryId>, gold: set<MemoryId>)
    ensures var m := QueryMetrics(discount, results, gold);
      0.0 <= m.precisionAt5 <= 1.0 && (m.precisionAt5 > 0.0 <==> m.recallAt[5] == 1)
  {
    var top := Take(Relevances(results, gold), 5);
    assert Bits(top);
    TotalAtMost(top);
    hide Gain, Ideal, Total, Dcg, FirstRank, Relevances, Take, Any;
  }

  /** The reciprocal rank is the reciprocal of a rank within the first ten, or 0 if there is none. */
  lemma MrrIsReciprocal(discount: nat -> real, results: seq<MemoryId>, gold: set<MemoryId>)
    ensures var m := QueryMetrics(discount, results, gold);
      && (m.firstGoldRank.Some? ==>
            1 <= m.firstGoldRank.value <= SEARCH_LIMIT && m.mrr * m.firstGoldRank.value as real == 1.0)
      && (m.firstGoldRank.None? ==> m.mrr == 0.0)
  {
    var rels := Relevances(results, gold);
    FirstRankIs(rels);
    hide Gain, Ideal, Total, Dcg, FirstRank, Take;
    if FirstRank(rels).Some? {
      Reciprocal(FirstRank(rels).value);
    }
  }

  lemma Reciprocal(r: nat)
    requires r > 0
    ensures 1.0 / r as real * r as real == 1.0
  {
  }

  /** The metrics agree on whether anything gold was found. */
  lemma MetricsAgree(discount: nat -> real, results: seq<MemoryId>, gold: set<MemoryId>)
    requires IsDiscount(discount) && Distinct(results)
    ensures var m := QueryMetrics(discount, results, gold);
      && (m.firstGoldRank.Some? <==> Hit(results, gold)) && (m.recallAt[SEARCH_LIMIT] == 1 <==> Hit(results, gold))
      && (m.ndcg > 0.0 <==> Hit(results, gold)) && (m.mrr > 0.0 <==> Hit(results, gold))
  {
    FirstRankIs(Relevances(results, gold));
    HitIff(results, gold);
    NdcgIsNormalised(discount, results, gold);
    MrrIsReciprocal(discount, results, gold);
    RecallIsFirstRank(discount, results, gold, SEARCH_LIMIT);
    hide *;
  }

  // ---- The metrics of the ranking itself -----------------------------------------------

  /** How many of the first `n` places are hits. */
  function Places(hit: nat -> bool, n: nat): set<nat> {
    set i: nat | i < n && hit(i)
  }

  /** The discounts of the hits among the first `n` places. */
  function Discounts(discount: nat -> real, hit: nat -> bool, n: nat): real {
    if n == 0 then 0.0 else Discounts(discount, hit, n - 1) + if hit(n - 1) then discount(n - 1) else 0.0
  }

  function AnyPlace(): nat -> bool {
    (i: nat) => true
  }

  function IsGold(results: seq<MemoryId>, gold: set<MemoryId>): nat -> bool {
    (i: nat) => i < |results| && results[i] in gold
  }

  lemma {:induction false} GainIsDiscounts(discount: nat -> real, rels: seq<nat>, hit: nat -> bool)
    requires forall i: nat :: i < |rels| ==> rels[i] == if hit(i) then 1 else 0
    ensures Gain(discount, rels) == Discounts(discount, hit, |rels|)
    decreases |rels|
  {
    if rels != [] {
      var n := |rels| - 1;
      GainIsDiscounts(discount, rels[..n], hit);
      BitTimes(rels[n], discount(n));
    }
  }

  lemma {:induction false} DiscountsBeyond(discount: nat -> real, hit: nat -> bool, m: nat, n: nat)
    requires m <= n && forall i: nat :: m <= i < n ==> !hit(i)
    ensures Discounts(discount, hit, n) == Discounts(discount, hit, m)
    decreases n
  {
    if m < n { DiscountsBeyond(discount, hit, m, n - 1); }
  }

  lemma {:induction false} TotalIsPlaces(rels: seq<nat>, hit: nat -> bool)
    requires forall i: nat :: i < |rels| ==> rels[i] == if hit(i) then 1 else 0
    ensures Total(rels) == |Places(hit, |rels|)|
    decreases |rels|
  {
    if rels == [] {
      assert Places(hit, 0) == {};
    } else {
      var n := |rels| - 1;
      TotalIsPlaces(rels[..n], hit);
      assert Places(hit, n + 1) == Places(hit, n) + if hit(n) then {n} else {};
    }
  }

  lemma GainOfRanking(discount: nat -> real, results: seq<MemoryId>, gold: set<MemoryId>)
    ensures Dcg(discount, Relevances(results, gold), SEARCH_LIMIT) == Discounts(discount, IsGold(results, gold), 10)
  {
    var rels := Relevances(results, gold);
    assert Take(rels, SEARCH_LIMIT) == rels;
    GainIsDiscounts(discount, rels, IsGold(results, gold));
    DiscountsBeyond(discount, IsGold(results, gold), |rels|, 10);
  }

  lemma GainOfIdeal(discount: nat -> real, gold: set<MemoryId>)
    ensures Ideal(discount, gold) == Discounts(discount, AnyPlace(), Min(|gold|, 10))
  {
    var ones := seq(Min(|gold|, SEARCH_LIMIT), i => 1);
    assert Take(ones, SEARCH_LIMIT) == ones;
    GainIsDiscounts(discount, ones, AnyPlace());
  }

  /** nDCG is the discounts of the gold among the first ten over those of the first min(|gold|, 10)
      places. */
  lemma NdcgIs(discount: nat -> real, results: seq<MemoryId>, gold: set<MemoryId>)
    requires IsDiscount(discount)
    ensures var ndcg := QueryMetrics(discount, results, gold).ndcg;
      && (gold == {} ==> ndcg == 0.0)
      && (gold != {} ==> ndcg * Discounts(discount, AnyPlace(), Min(|gold|, 10))
                         == Discounts(discount, IsGold(results, gold), 10))
  {
    hide IsDiscount, Discounts, Best, Ideal, Dcg, Relevances, QueryMetrics, IsGold, AnyPlace;
    IdealIsBest(discount, gold);
    GainOfRanking(discount, results, gold);
    GainOfIdeal(discount, gold);
    NdcgQuotient(discount, results, gold);
    var ndcg := QueryMetrics(discount, results, gold).ndcg;
    var a, b := Discounts(discount, IsGold(results, gold), 10), Discounts(discount, AnyPlace(), Min(|gold|, 10));
    if gold != {} { Quotient(ndcg, a, b); }
  }

  lemma Quotient(q: real, a: real, b: real)
    requires b > 0.0 && q == a / b
    ensures q * b == a
  {
    Divides(a, b);
  }

  lemma NdcgQuotient(discount: nat -> real, results: seq<MemoryId>, gold: set<MemoryId>)
    ensures var a, b := Dcg(discount, Relevances(results, gold), SEARCH_LIMIT), Ideal(discount, gold);
      QueryMetrics(discount, results, gold).ndcg == if b > 0.0 then a / b else 0.0
  {
    hide Dcg, Ideal, Relevances, FirstRank, Total, Take, Any;
  }

  lemma Divides(a: real, b: real)
    requires b > 0.0
    ensures a / b * b == a
  {
  }

  /** Precision at 5 counts the gold among the first five, out of five however many were returned. */
  lemma PrecisionIs(discount: nat -> real, results: seq<MemoryId>, gold: set<MemoryId>)
    ensures QueryMetrics(discount, results, gold).precisionAt5 * 5.0 == |Places(IsGold(results, gold), 5)| as real
  {
    var rels := Relevances(results, gold);
    var top := Take(rels, 5);
    TotalIsPlaces(top, IsGold(results, gold));
    assert Places(IsGold(results, gold), |top|) == Places(IsGold(results, gold), 5);
    hide Gain, Ideal, Dcg, Places;
    Divides(Total(top) as real, 5.0);
  }

  /** The first rank is the place of the first gold result, if there is one among the first ten; recall
      is reported at 1, 3, 5 and 10. */
  lemma FirstGoldRankIs(discount: nat -> real, results: seq<MemoryId>, gold: set<MemoryId>)
    ensures var m := QueryMetrics(discount, results, gold);
      && (m.firstGoldRank.None? <==> forall i :: 0 <= i < |results| && i < 10 ==> results[i] !in gold)
      && (m.firstGoldRank.Some? ==> var r := m.firstGoldRank.value;
            && 1 <= r <= 10 && r <= |results| && results[r - 1] in gold
            && forall i :: 0 <= i < r - 1 ==> results[i] !in gold)
      && m.recallAt.Keys == {1, 3, 5, 10}
  {
    var rels := Relevances(results, gold);
    FirstRankIs(rels);
    HitIff(results, gold);
    hide Gain, Ideal, Dcg, Total, FirstRank, Take;
    if FirstRank(rels).Some? {
      assert rels[FirstRank(rels).value - 1] != 0;
      assert forall i :: 0 <= i < FirstRank(rels).value - 1 ==> rels[i] == 0;
    }
  }
}
