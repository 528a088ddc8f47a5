/** What the metrics say about the fields of the bets, and in which order a run returns them (backtesting/engine.py). */
module MetricsOnBets {
  import opened Wrappers
  import Ordering
  import opened Aggregates
  import opened Partitions
  import opened EquityCurves
  import opened Settlement
  import opened BacktestMetrics
  import opened Backtest

  /* ---------- The curve runs through time ---------- */

  /** Bets without a start come first, then the earlier before the later start, and equal starts by identifier. */
  lemma ChronologicalOnFields(bets: seq<Bet>, i: nat, j: nat)
    requires i < j < |bets|
    ensures multiset(Chronological(bets)) == multiset(bets) && |Chronological(bets)| == |bets|
    ensures var (a, b) := (Chronological(bets)[i], Chronological(bets)[j]);
            && (b.eventStart.None? ==> a.eventStart.None?)
            && (a.eventStart.Some? && b.eventStart.Some? ==> a.eventStart.value <= b.eventStart.value)
            && (a.eventStart == b.eventStart ==> Ordering.StrLe(a.id, b.id))
  {
    hide Ordering.SortBy;
    SortedLength(bets);
    BetLeIsTotalPreorder();
    Ordering.SortBySorted(bets, BetLe);
    assert BetLe(Chronological(bets)[i], Chronological(bets)[j]);
  }

  /**
   * The curve takes the bets in the order of their starts and adds each bet's profit to what came before; the drawdown
   * is the greatest fall along it, from zero or from one of its points.
   */
  lemma CurveRunsInTime(bets: seq<Bet>, m: Metrics) returns (ordered: seq<Bet>)
    requires MetricsOf(bets, m)
    ensures multiset(ordered) == multiset(bets) && |ordered| == |m.cumulative| == |bets|
    ensures forall i, j :: 0 <= i < j < |ordered| && ordered[j].eventStart.None? ==> ordered[i].eventStart.None?
    ensures forall i, j :: 0 <= i < j < |ordered| && ordered[i].eventStart.Some? && ordered[j].eventStart.Some? ==>
              ordered[i].eventStart.value <= ordered[j].eventStart.value
    ensures forall i, j :: 0 <= i < j < |ordered| && ordered[i].eventStart == ordered[j].eventStart ==>
              Ordering.StrLe(ordered[i].id, ordered[j].id)
    ensures forall k :: 0 <= k < |ordered| ==>
              m.cumulative[k] == (if k == 0 then 0.0 else m.cumulative[k - 1]) + ordered[k].profit
    ensures m.maximumDrawdown >= 0.0 && forall k :: 0 <= k < |ordered| ==> 0.0 - m.cumulative[k] <= m.maximumDrawdown
    ensures forall i, j :: 0 <= i <= j < |ordered| ==> m.cumulative[i] - m.cumulative[j] <= m.maximumDrawdown
    ensures || m.maximumDrawdown == 0.0
            || (exists k :: 0 <= k < |ordered| && m.maximumDrawdown == 0.0 - m.cumulative[k])
            || exists i, j :: 0 <= i <= j < |ordered| && m.maximumDrawdown == m.cumulative[i] - m.cumulative[j]
  {
    hide Chronological, Equity, AggregatesOf, CountBy, SumBy, Average;
    ordered := Chronological(bets);
    forall i, j | 0 <= i < j < |bets|
      ensures |ordered| == |bets|
      ensures ordered[j].eventStart.None? ==> ordered[i].eventStart.None?
      ensures ordered[i].eventStart.Some? && ordered[j].eventStart.Some? ==>
                ordered[i].eventStart.value <= ordered[j].eventStart.value
      ensures ordered[i].eventStart == ordered[j].eventStart ==> Ordering.StrLe(ordered[i].id, ordered[j].id)
    {
      ChronologicalOnFields(bets, i, j);
    }
    SameBets(bets);
    var profits := Profits(ordered);
    StartsAtZero(profits);
    forall k | 0 <= k < |profits| ensures Equity(profits, k + 1) == Equity(profits, k) + profits[k] {
      EquityStep(profits, k);
    }
    CurvePoints(profits, m.cumulative, m.maximumDrawdown);
  }

  lemma SameBets(bets: seq<Bet>)
    ensures multiset(Chronological(bets)) == multiset(bets) && |Chronological(bets)| == |bets|
  {
    SortedLength(bets);
  }

  /** The maximum drawdown over all equities, in terms of the points of the curve, which leave out the initial zero. */
  lemma CurvePoints(profits: seq<real>, cumulative: seq<real>, d: real)
    requires IsMaximumDrawdown(profits, d) && Equity(profits, 0) == 0.0
    requires |cumulative| == |profits| && forall k :: 0 <= k < |profits| ==> cumulative[k] == Equity(profits, k + 1)
    ensures d >= 0.0 && forall k :: 0 <= k < |profits| ==> 0.0 - cumulative[k] <= d
    ensures forall i, j :: 0 <= i <= j < |profits| ==> cumulative[i] - cumulative[j] <= d
    ensures || d == 0.0 || (exists k :: 0 <= k < |profits| && d == 0.0 - cumulative[k])
            || exists i, j :: 0 <= i <= j < |profits| && d == cumulative[i] - cumulative[j]
  {
    hide Equity;
    assert Equity(profits, 0) - Equity(profits, 0) <= d;
    forall k | 0 <= k < |profits| ensures 0.0 - cumulative[k] <= d {
      assert Equity(profits, 0) - Equity(profits, k + 1) <= d;
    }
    forall i, j | 0 <= i <= j < |profits| ensures cumulative[i] - cumulative[j] <= d {
      assert Equity(profits, i + 1) - Equity(profits, j + 1) <= d;
    }
    var i, j :| 0 <= i <= j <= |profits| && Equity(profits, i) - Equity(profits, j) == d;
    if j > 0 {
      if i == 0 {
        assert d == 0.0 - cumulative[j - 1];
      } else {
        assert d == cumulative[i - 1] - cumulative[j - 1];
      }
    }
  }

  /** A completed run returns its bets in that order, and its curve runs through them one by one. */
  lemma RunInTime(folds: seq<FoldInput>, x: Context, i: nat, j: nat)
    requires x.Valid() && RunOf(folds, x).Ok? && i < j < |RunOf(folds, x).value.bets|
    ensures var (a, b) := (RunOf(folds, x).value.bets[i], RunOf(folds, x).value.bets[j]);
            && (b.eventStart.None? ==> a.eventStart.None?)
            && (a.eventStart.Some? && b.eventStart.Some? ==> a.eventStart.value <= b.eventStart.value)
            && (a.eventStart == b.eventStart ==> Ordering.StrLe(a.id, b.id))
  {
    hide FoldsOf, FoldLe, Advancing, Disjoint, Chronological;
    var run := FoldsOf(Ordering.SortBy(folds, FoldLe), x).value;
    SameBets(run.bets);
    ChronologicalOnFields(run.bets, i, j);
  }

  lemma RunCurve(folds: seq<FoldInput>, x: Context, m: Metrics)
    requires x.Valid() && RunOf(folds, x).Ok? && MetricsOf(RunOf(folds, x).value.bets, m)
    ensures var bets := RunOf(folds, x).value.bets;
            |m.cumulative| == |bets| &&
            forall k :: 0 <= k < |bets| ==>
              m.cumulative[k] == (if k == 0 then 0.0 else m.cumulative[k - 1]) + bets[k].profit
  {
    hide FoldsOf, FoldLe, Advancing, Disjoint, Ordering.SortBy, Equity, AggregatesOf, CountBy, SumBy, Average,
         IsMaximumDrawdown;
    var bets := RunOf(folds, x).value.bets;
    var run := FoldsOf(Ordering.SortBy(folds, FoldLe), x).value;
    BetLeIsTotalPreorder();
    Ordering.SortBySorted(run.bets, BetLe);
    Ordering.SortBySortedIdentity(bets, BetLe);
    var profits := Profits(bets);
    StartsAtZero(profits);
    forall k | 0 <= k < |profits| ensures Equity(profits, k + 1) == Equity(profits, k) + profits[k] {
      EquityStep(profits, k);
    }
  }

  /* ---------- Counts, sums and averages ---------- */

  lemma {:induction false} SameCounts<T>(s: seq<T>, p: T -> bool, q: T -> bool)
    requires forall x <- s :: p(x) == q(x)
    ensures CountBy(s, p) == CountBy(s, q)
  {
    if s != [] {
      assert s[|s| - 1] in s;
      SameCounts(s[..|s| - 1], p, q);
    }
  }

  lemma {:induction false} SameSums<T>(s: seq<T>, f: T -> real, g: T -> real)
    requires forall x <- s :: f(x) == g(x)
    ensures SumBy(s, f) == SumBy(s, g)
  {
    if s != [] {
      assert s[|s| - 1] in s;
      SameSums(s[..|s| - 1], f, g);
    }
  }

  lemma Quotient(a: real, b: real)
    requires b != 0.0
    ensures a / b * b == a
  {
  }

  /** The totals of the metrics, counted and summed over the fields of the bets. */
  lemma TotalsOnFields(bets: seq<Bet>, m: Metrics)
    requires MetricsOf(bets, m)
    ensures m.betCount == |bets| && m.decisions == m.wins + m.losses && m.returned == m.staked + m.netProfit
    ensures m.wins == CountBy(bets, (b: Bet) => b.outcome == Win)
    ensures m.losses == CountBy(bets, (b: Bet) => b.outcome == Loss)
    ensures m.pushes == CountBy(bets, (b: Bet) => b.outcome == Push)
    ensures m.voids == CountBy(bets, (b: Bet) => b.outcome == Void)
    ensures m.singles == CountBy(bets, (b: Bet) => b.kind == Single)
    ensures m.multiples == CountBy(bets, (b: Bet) => b.kind == Multiple)
    ensures m.staked == SumBy(bets, (b: Bet) => b.stake) && m.netProfit == SumBy(bets, (b: Bet) => b.profit)
    ensures m.roi * m.staked == (if m.staked == 0.0 then 0.0 else m.netProfit) && (m.staked == 0.0 ==> m.roi == 0.0)
    ensures m.hitRate * m.decisions as real == m.wins as real && (m.decisions == 0 ==> m.hitRate == 0.0)
    ensures m.averageOdds * |bets| as real == SumBy(bets, (b: Bet) => b.odds) && (bets == [] ==> m.averageOdds == 0.0)
  {
    hide AggregatesOf, Chronological, Equity, IsMaximumDrawdown, CountBy, SumBy;
    CountsOnFields(bets);
    SameSums(bets, StakeOf, (b: Bet) => b.stake);
    SameSums(bets, ProfitOf, (b: Bet) => b.profit);
    AverageOnFields(bets, OddsOf, (b: Bet) => b.odds);
    if m.staked != 0.0 { Quotient(m.netProfit, m.staked); }
    if m.decisions != 0 { Quotient(m.wins as real, m.decisions as real); }
  }

  lemma CountsOnFields(bets: seq<Bet>)
    ensures CountBy(bets, IsWin) == CountBy(bets, (b: Bet) => b.outcome == Win)
    ensures CountBy(bets, IsLost) == CountBy(bets, (b: Bet) => b.outcome == Loss)
    ensures CountBy(bets, IsPush) == CountBy(bets, (b: Bet) => b.outcome == Push)
    ensures CountBy(bets, IsVoid) == CountBy(bets, (b: Bet) => b.outcome == Void)
    ensures CountBy(bets, IsSingle) == CountBy(bets, (b: Bet) => b.kind == Single)
    ensures CountBy(bets, IsMultiple) == CountBy(bets, (b: Bet) => b.kind == Multiple)
  {
    hide CountBy;
    SameCounts(bets, IsWin, (b: Bet) => b.outcome == Win);
    SameCounts(bets, IsLost, (b: Bet) => b.outcome == Loss);
    SameCounts(bets, IsPush, (b: Bet) => b.outcome == Push);
    SameCounts(bets, IsVoid, (b: Bet) => b.outcome == Void);
    SameCounts(bets, IsSingle, (b: Bet) => b.kind == Single);
    SameCounts(bets, IsMultiple, (b: Bet) => b.kind == Multiple);
  }

  lemma AverageOnFields(bets: seq<Bet>, f: Bet -> real, g: Bet -> real)
    requires forall b <- bets :: f(b) == g(b)
    ensures Average(bets, f) * |bets| as real == SumBy(bets, g) && (bets == [] ==> Average(bets, f) == 0.0)
  {
    SameSums(bets, f, g);
    if bets != [] { Quotient(SumBy(bets, f), |bets| as real); }
  }

  /* ---------- The rows of the aggregations ---------- */

  lemma CountMembers<T, K>(s: seq<T>, f: T -> K, k: K, p: T -> bool, q: T -> bool)
    requires forall x <- s :: q(x) <==> f(x) == k && p(x)
    ensures CountBy(Members(s, f, k), p) == CountBy(s, q)
  {
    MembersMatching(s, f, k, p);
    SameCounts(s, Matching(f, k, p), q);
  }

  /**
   * A row counts and sums the bets of its dimension and key: the fold's, sport's, market's or provider's own, an empty
   * text being "unknown", or those in its band of expected value.
   */
  lemma RowOnFields(bets: seq<Bet>, m: Metrics, row: Aggregation, belongs: Bet -> bool)
    requires MetricsOf(bets, m) && row in m.aggregations
    requires forall b <- bets :: belongs(b) <==>
               match row.dimension
               case ByFold => row.key == b.foldId
               case BySport => row.key == if b.sport == "" then "unknown" else b.sport
               case ByMarket => row.key == if b.market == "" then "unknown" else b.market
               case ByProvider => row.key == if b.provider == "" then "unknown" else b.provider
               case ByBucket =>
                 || (b.expectedValue < 0.0 && row.key == "negative")
                 || (0.0 <= b.expectedValue < 0.05 && row.key == "0.00-0.05")
                 || (0.05 <= b.expectedValue < 0.1 && row.key == "0.05-0.10")
                 || (0.1 <= b.expectedValue && row.key == "0.10+")
    ensures row.sampleSize == CountBy(bets, belongs) && row.sampleSize > 0
    ensures row.singles == CountBy(bets, (b: Bet) => belongs(b) && b.kind == Single)
    ensures row.multiples == CountBy(bets, (b: Bet) => belongs(b) && b.kind == Multiple)
    ensures row.netProfit == SumBy(bets, (b: Bet) => if belongs(b) then b.profit else 0.0)
    ensures row.averageProbability * row.sampleSize as real ==
            SumBy(bets, (b: Bet) => if belongs(b) then b.probability else 0.0)
    ensures row.averageEdge * row.sampleSize as real == SumBy(bets, (b: Bet) => if belongs(b) then b.edge else 0.0)
    ensures row.averageExpectedValue * row.sampleSize as real ==
            SumBy(bets, (b: Bet) => if belongs(b) then b.expectedValue else 0.0)
  {
    hide Chronological, Equity, IsMaximumDrawdown, CountBy, SumBy, Average, Members, KeysOf;
    var ordered, d, key := Chronological(bets), row.dimension, row.key;
    SameBets(bets);
    Ordering.SameElements(ordered, bets);
    assert forall b <- ordered :: belongs(b) <==> KeyFunction(d)(b) == key;
    assert row == RowOf(ordered, d, key);
    RowCounts(bets, ordered, d, key, belongs);
    RowSum(bets, ordered, d, key, belongs, ProfitOf, (b: Bet) => if belongs(b) then b.profit else 0.0);
    RowSum(bets, ordered, d, key, belongs, ProbabilityOf, (b: Bet) => if belongs(b) then b.probability else 0.0);
    RowSum(bets, ordered, d, key, belongs, EdgeOf, (b: Bet) => if belongs(b) then b.edge else 0.0);
    RowSum(bets, ordered, d, key, belongs, ExpectedValueOf, (b: Bet) => if belongs(b) then b.expectedValue else 0.0);
    RowIsInhabited(ordered, m.aggregations, row);
  }

  lemma RowIsInhabited(bets: seq<Bet>, rows: seq<Aggregation>, row: Aggregation)
    requires AggregatesOf(bets, rows) && row in rows
    ensures Group(bets, row.dimension, row.key) != []
  {
    hide KeyIn;
    var i :| 0 <= i < |rows| && rows[i] == row;
    assert KeysOf(rows)[i] == (row.dimension, row.key);
    assert Occurs(bets, KeysOf(rows)[i]);
    var b :| b in bets && KeyIn(b, row.dimension) == row.key;
    assert KeyFunction(row.dimension)(b) == row.key;
    assert b in Group(bets, row.dimension, row.key);
  }

  lemma RowCounts(bets: seq<Bet>, ordered: seq<Bet>, d: Dimension, key: string, belongs: Bet -> bool)
    requires multiset(ordered) == multiset(bets)
    requires forall b <- ordered :: belongs(b) <==> KeyFunction(d)(b) == key
    ensures |Group(ordered, d, key)| == CountBy(bets, belongs)
    ensures CountBy(Group(ordered, d, key), IsSingle) == CountBy(bets, (b: Bet) => belongs(b) && b.kind == Single)
    ensures CountBy(Group(ordered, d, key), IsMultiple) == CountBy(bets, (b: Bet) => belongs(b) && b.kind == Multiple)
  {
    hide CountBy, Members, KeyIn;
    var group, all := Group(ordered, d, key), (b: Bet) => true;
    CountAll(group, all);
    CountMembers(ordered, KeyFunction(d), key, all, belongs);
    CountMembers(ordered, KeyFunction(d), key, IsSingle, (b: Bet) => belongs(b) && b.kind == Single);
    CountMembers(ordered, KeyFunction(d), key, IsMultiple, (b: Bet) => belongs(b) && b.kind == Multiple);
    CountPermutation(ordered, bets, belongs);
    CountPermutation(ordered, bets, (b: Bet) => belongs(b) && b.kind == Single);
    CountPermutation(ordered, bets, (b: Bet) => belongs(b) && b.kind == Multiple);
  }

  lemma RowSum(bets: seq<Bet>, ordered: seq<Bet>, d: Dimension, key: string, belongs: Bet -> bool, f: Bet -> real,
               g: Bet -> real)
    requires multiset(ordered) == multiset(bets)
    requires forall b <- ordered :: belongs(b) <==> KeyFunction(d)(b) == key
    requires forall b <- ordered :: g(b) == if belongs(b) then f(b) else 0.0
    ensures SumBy(Group(ordered, d, key), f) == SumBy(bets, g)
    ensures Average(Group(ordered, d, key), f) * |Group(ordered, d, key)| as real == SumBy(bets, g)
  {
    hide SumBy, Members, KeyIn;
    MembersSum(ordered, KeyFunction(d), key, f);
    SameSums(ordered, Within(KeyFunction(d), key, f), g);
    SumPermutation(ordered, bets, g);
    AverageOnFields(Group(ordered, d, key), f, f);
  }

  /** The rows are ordered by the name of their dimension, and within one by key. */
  lemma RowsInOrder(bets: seq<Bet>, m: Metrics, i: nat, j: nat)
    requires MetricsOf(bets, m) && i < j < |m.aggregations|
    ensures var (a, b) := (m.aggregations[i], m.aggregations[j]);
            && (a.dimension == b.dimension ==> Ordering.StrLe(a.key, b.key) && a.key != b.key)
            && (b.dimension.ByBucket? ==> a.dimension.ByBucket?)
            && (b.dimension.ByFold? ==> a.dimension.ByBucket? || a.dimension.ByFold?)
            && (b.dimension.ByMarket? ==> !a.dimension.ByProvider? && !a.dimension.BySport?)
            && (a.dimension.BySport? ==> b.dimension.BySport?)
  {
    hide Chronological, Equity, IsMaximumDrawdown, CountBy, SumBy, Average, RowOf, Occurs;
    var keys := KeysOf(m.aggregations);
    assert KeyLe(keys[i], keys[j]) && keys[i] != keys[j];
  }
}
