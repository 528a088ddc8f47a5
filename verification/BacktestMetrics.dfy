/** Metrics of settled bets: totals, equity curve and the aggregations by dimension (backtesting/engine.py). */
module BacktestMetrics {
  import opened Wrappers
  import Ordering
  import opened Aggregates
  import opened Partitions
  import opened EquityCurves
  import opened Settlement

  datatype Kind = Single | Multiple

  datatype Bet = Bet(
    id: string, foldId: string, kind: Kind, opportunityIds: seq<string>, odds: real, outcome: Outcome, stake: real,
    profit: real, eventStart: Option<int>, sport: string, market: string, provider: string, probability: real,
    edge: real, expectedValue: real)

  /** The aggregation dimensions, in the alphabetical order of their names. */
  datatype Dimension = ByBucket | ByFold | ByMarket | ByProvider | BySport

  const DIMENSIONS: seq<Dimension> := [ByFold, BySport, ByMarket, ByProvider, ByBucket]

  datatype Aggregation = Aggregation(
    dimension: Dimension, key: string, sampleSize: nat, singles: nat, multiples: nat, netProfit: real,
    averageProbability: real, averageEdge: real, averageExpectedValue: real)

  function ProfitOf(b: Bet): real { b.profit }
  function StakeOf(b: Bet): real { b.stake }
  function OddsOf(b: Bet): real { b.odds }
  function ProbabilityOf(b: Bet): real { b.probability }
  function EdgeOf(b: Bet): real { b.edge }
  function ExpectedValueOf(b: Bet): real { b.expectedValue }
  predicate IsSingle(b: Bet) { b.kind == Single }
  predicate IsMultiple(b: Bet) { b.kind == Multiple }
  predicate IsWin(b: Bet) { b.outcome == Win }
  predicate IsLost(b: Bet) { b.outcome == Loss }
  predicate IsPush(b: Bet) { b.outcome == Push }
  predicate IsVoid(b: Bet) { b.outcome == Void }

  function Bucket(ev: real): string {
    if ev < 0.0 then "negative" else if ev < 0.05 then "0.00-0.05" else if ev < 0.10 then "0.05-0.10" else "0.10+"
  }

  function OrUnknown(s: string): string {
    if s == "" then "unknown" else s
  }

  function KeyIn(b: Bet, d: Dimension): string {
    match d
    case ByFold => b.foldId
    case BySport => OrUnknown(b.sport)
    case ByMarket => OrUnknown(b.market)
    case ByProvider => OrUnknown(b.provider)
    case ByBucket => Bucket(b.expectedValue)
  }

  function KeyFunction(d: Dimension): Bet -> string {
    (b: Bet) => KeyIn(b, d)
  }

  function Group(bets: seq<Bet>, d: Dimension, key: string): seq<Bet> {
    Members(bets, KeyFunction(d), key)
  }

  function Average(bets: seq<Bet>, f: Bet -> real): real {
    if bets == [] then 0.0 else SumBy(bets, f) / |bets| as real
  }

  function RowFrom(rows: seq<Bet>, d: Dimension, key: string): (r: Aggregation)
    ensures r.dimension == d && r.key == key
  {
    Aggregation(d, key, |rows|, CountBy(rows, IsSingle), CountBy(rows, IsMultiple), SumBy(rows, ProfitOf),
                Average(rows, ProbabilityOf), Average(rows, EdgeOf), Average(rows, ExpectedValueOf))
  }

  function RowOf(bets: seq<Bet>, d: Dimension, key: string): Aggregation {
    RowFrom(Group(bets, d, key), d, key)
  }

  /* ---------- The order of bets and of aggregation keys ---------- */

  /** ("" when the start is missing, else its ISO text; then the bet identifier) */
  predicate BetLe(a: Bet, b: Bet) {
    if a.eventStart == b.eventStart then Ordering.StrLe(a.id, b.id)
    else a.eventStart.None? || (b.eventStart.Some? && a.eventStart.value < b.eventStart.value)
  }

  lemma BetLeIsTotalPreorder()
    ensures Ordering.TotalPreorder(BetLe)
  {
    forall x: Bet, y: Bet ensures BetLe(x, y) || BetLe(y, x) {
      Ordering.StrLeTotal(x.id, y.id);
    }
    forall x: Bet, y: Bet, z: Bet | BetLe(x, y) && BetLe(y, z) ensures BetLe(x, z) {
      if x.eventStart == y.eventStart == z.eventStart {
        Ordering.StrLeTransitive(x.id, y.id, z.id);
      }
    }
  }

  function Rank(d: Dimension): nat {
    match d case ByBucket => 0 case ByFold => 1 case ByMarket => 2 case ByProvider => 3 case BySport => 4
  }

  type GroupKey = (Dimension, string)

  predicate KeyLe(a: GroupKey, b: GroupKey) {
    if a.0 == b.0 then Ordering.StrLe(a.1, b.1) else Rank(a.0) < Rank(b.0)
  }

  lemma KeyLeIsTotalPreorder()
    ensures Ordering.TotalPreorder(KeyLe)
  {
    forall x: GroupKey, y: GroupKey ensures KeyLe(x, y) || KeyLe(y, x) {
      Ordering.StrLeTotal(x.1, y.1);
    }
    forall x: GroupKey, y: GroupKey, z: GroupKey | KeyLe(x, y) && KeyLe(y, z) ensures KeyLe(x, z) {
      if x.0 == y.0 == z.0 {
        Ordering.StrLeTransitive(x.1, y.1, z.1);
      }
    }
  }

  /* ---------- Aggregations ---------- */

  predicate Occurs(bets: seq<Bet>, k: GroupKey) {
    exists b <- bets :: KeyIn(b, k.0) == k.1
  }

  /** The keys of the rows, each once and in order, are those that occur; each row describes its whole group. */
  ghost predicate AggregatesOf(bets: seq<Bet>, rows: seq<Aggregation>) {
    && Ordering.NoDuplicates(KeysOf(rows)) && Ordering.Sorted(KeysOf(rows), KeyLe)
    && (forall k: GroupKey :: k in KeysOf(rows) <==> Occurs(bets, k))
    && forall row <- rows :: row == RowOf(bets, row.dimension, row.key)
  }

  function KeysOf(rows: seq<Aggregation>): seq<GroupKey> {
    seq(|rows|, i requires 0 <= i < |rows| => (rows[i].dimension, rows[i].key))
  }

  type Groups = map<GroupKey, seq<Bet>>

  /** The groups hold the first n bets, and for the dimensions seen so far also the next one. */
  ghost predicate Grouped(groups: Groups, keys: seq<GroupKey>, bets: seq<Bet>, n: nat, seen: set<Dimension>)
    requires n <= |bets| && (seen != {} ==> n < |bets|)
  {
    && (forall k <- groups :: groups[k] == Group(bets[..if k.0 in seen then n + 1 else n], k.0, k.1))
    && (forall k: GroupKey :: k !in groups ==> Group(bets[..if k.0 in seen then n + 1 else n], k.0, k.1) == [])
    && (forall k <- groups :: groups[k] != [])
    && (forall k :: k in keys <==> k in groups)
  }

  lemma GroupNext(bets: seq<Bet>, n: nat, d: Dimension, key: string)
    requires n < |bets|
    ensures Group(bets[..n + 1], d, key) == Group(bets[..n], d, key) + if KeyIn(bets[n], d) == key then [bets[n]]
                                                                       else []
  {
    assert bets[..n + 1] == bets[..n] + [bets[n]];
    MembersStep(bets[..n], bets[n], KeyFunction(d), key);
  }

  method GroupBets(bets: seq<Bet>) returns (groups: Groups, keys: seq<GroupKey>)
    ensures Grouped(groups, keys, bets, |bets|, {})
    ensures Ordering.NoDuplicates(keys)
  {
    hide Group, KeyIn;
    groups, keys := map[], [];
    NothingGrouped(bets);
    for n := 0 to |bets|
      invariant Grouped(groups, keys, bets, n, {})
      invariant Ordering.NoDuplicates(keys)
    {
      groups, keys := GroupBet(bets, n, groups, keys);
    }
  }

  lemma NothingGrouped(bets: seq<Bet>)
    ensures Grouped(map[], [], bets, 0, {})
  {
    assert bets[..0] == [];
  }

  /** The inner loop: one bet enters one group in every dimension. */
  method GroupBet(bets: seq<Bet>, n: nat, groups0: Groups, keys0: seq<GroupKey>)
    returns (groups: Groups, keys: seq<GroupKey>)
    requires n < |bets| && Grouped(groups0, keys0, bets, n, {}) && Ordering.NoDuplicates(keys0)
    ensures Grouped(groups, keys, bets, n + 1, {}) && Ordering.NoDuplicates(keys)
  {
    hide Group, KeyIn, Grouped;
    groups, keys := groups0, keys0;
    ghost var seen: set<Dimension> := {};
    for j := 0 to |DIMENSIONS|
      invariant seen == set d | d in DIMENSIONS[..j]
      invariant Grouped(groups, keys, bets, n, seen)
      invariant Ordering.NoDuplicates(keys)
    {
      var d := DIMENSIONS[j];
      var k := (d, KeyIn(bets[n], d));
      EnterGroup(groups, keys, bets, n, seen, d);
      if k !in groups {
        keys := keys + [k];
      }
      groups := groups[k := (if k in groups then groups[k] else []) + [bets[n]]];
      assert DIMENSIONS[..j + 1] == DIMENSIONS[..j] + [d];
      assert d !in DIMENSIONS[..j];
      seen := seen + {d};
    }
    EveryDimension();
    WholeBet(groups, keys, bets, n, seen);
  }

  lemma EveryDimension()
    ensures forall d: Dimension :: d in DIMENSIONS[..|DIMENSIONS|]
  {
    forall d: Dimension ensures d in DIMENSIONS {
      assert d == DIMENSIONS[match d case ByFold => 0 case BySport => 1 case ByMarket => 2 case ByProvider => 3
                                     case ByBucket => 4];
    }
    assert DIMENSIONS[..|DIMENSIONS|] == DIMENSIONS;
  }

  lemma EnterGroup(groups: Groups, keys: seq<GroupKey>, bets: seq<Bet>, n: nat, seen: set<Dimension>, d: Dimension)
    requires n < |bets| && d !in seen && Grouped(groups, keys, bets, n, seen)
    ensures var k := (d, KeyIn(bets[n], d));
            && (k in keys <==> k in groups)
            && Grouped(groups[k := (if k in groups then groups[k] else []) + [bets[n]]],
                       if k in groups then keys else keys + [k],
                       bets, n, seen + {d})
  {
    hide Group, KeyIn;
    forall key: string
      ensures Group(bets[..n + 1], d, key) == Group(bets[..n], d, key) + if KeyIn(bets[n], d) == key then [bets[n]]
                                                                         else []
    {
      GroupNext(bets, n, d, key);
    }
  }

  lemma WholeBet(groups: Groups, keys: seq<GroupKey>, bets: seq<Bet>, n: nat, seen: set<Dimension>)
    requires n < |bets| && Grouped(groups, keys, bets, n, seen) && forall d: Dimension :: d in seen
    ensures Grouped(groups, keys, bets, n + 1, {})
  {
    hide Group;
  }

  /** _metric_aggregations */
  method MetricAggregations(bets: seq<Bet>) returns (rows: seq<Aggregation>)
    ensures AggregatesOf(bets, rows)
  {
    hide KeyIn, Group, RowFrom, Grouped, Occurs, KeyLe, Ordering.SortBy, Ordering.Sorted, Ordering.NoDuplicates;
    var groups, keys := GroupBets(bets);
    var ordered := Ordering.SortBy(keys, KeyLe);
    SortedKeys(keys, ordered);
    rows := [];
    for i := 0 to |ordered|
      invariant |rows| == i && KeysOf(rows) == ordered[..i]
      invariant forall row <- rows :: row == RowOf(bets, row.dimension, row.key)
    {
      var k := ordered[i];
      RowFromGroup(groups, keys, bets, k);
      rows := rows + [RowFrom(groups[k], k.0, k.1)];
      assert ordered[..i + 1] == ordered[..i] + [k];
    }
    assert ordered[..|ordered|] == ordered;
    forall k: GroupKey ensures k in keys <==> Occurs(bets, k) {
      GroupOccurs(groups, keys, bets, k);
    }
  }

  lemma SortedKeys(keys: seq<GroupKey>, ordered: seq<GroupKey>)
    requires Ordering.NoDuplicates(keys) && ordered == Ordering.SortBy(keys, KeyLe)
    ensures Ordering.NoDuplicates(ordered) && Ordering.Sorted(ordered, KeyLe) && forall k :: k in ordered <==> k in keys
  {
    KeyLeIsTotalPreorder();
    Ordering.SortBySorted(keys, KeyLe);
    Ordering.SameElements(ordered, keys);
    Ordering.SetSize(keys);
    Ordering.SetSize(ordered);
    assert (set k | k in ordered) == (set k | k in keys);
  }

  lemma RowFromGroup(groups: Groups, keys: seq<GroupKey>, bets: seq<Bet>, k: GroupKey)
    requires Grouped(groups, keys, bets, |bets|, {}) && k in keys
    ensures k in groups && groups[k] == Group(bets, k.0, k.1)
  {
    assert bets[..|bets|] == bets;
  }

  lemma GroupOccurs(groups: Groups, keys: seq<GroupKey>, bets: seq<Bet>, k: GroupKey)
    requires Grouped(groups, keys, bets, |bets|, {})
    ensures k in keys <==> Occurs(bets, k)
  {
    assert bets[..|bets|] == bets;
    var members := Group(bets, k.0, k.1);
    if k in groups {
      assert members[0] in members;
    } else {
      assert forall b <- bets :: KeyFunction(k.0)(b) == k.1 ==> b in members;
    }
  }

  /* ---------- Every dimension partitions the bets ---------- */

  function SampleSizes(rows: seq<Aggregation>, d: Dimension): nat {
    if rows == [] then 0 else (if rows[0].dimension == d then rows[0].sampleSize else 0) + SampleSizes(rows[1..], d)
  }

  function NetProfits(rows: seq<Aggregation>, d: Dimension): real {
    if rows == [] then 0.0 else (if rows[0].dimension == d then rows[0].netProfit else 0.0) + NetProfits(rows[1..], d)
  }

  function KeysIn(rows: seq<Aggregation>, d: Dimension): (r: seq<string>)
    ensures forall k <- r :: (d, k) in KeysOf(rows)
    ensures forall row <- rows :: row.dimension == d ==> row.key in r
  {
    if rows == [] then []
    else
      var rest := KeysIn(rows[1..], d);
      assert KeysOf(rows) == [(rows[0].dimension, rows[0].key)] + KeysOf(rows[1..]);
      (if rows[0].dimension == d then [rows[0].key] else []) + rest
  }

  lemma {:induction false} KeysInDistinct(rows: seq<Aggregation>, d: Dimension)
    requires Ordering.NoDuplicates(KeysOf(rows))
    ensures Ordering.NoDuplicates(KeysIn(rows, d))
  {
    if rows != [] {
      var head := (rows[0].dimension, rows[0].key);
      assert KeysOf(rows) == [head] + KeysOf(rows[1..]);
      forall i | 0 <= i < |rows[1..]| ensures KeysOf(rows[1..])[i] != head {
        assert KeysOf(rows)[0] != KeysOf(rows)[i + 1];
      }
      forall i, j | 0 <= i < j < |rows[1..]| ensures KeysOf(rows[1..])[i] != KeysOf(rows[1..])[j] {
        assert KeysOf(rows)[i + 1] != KeysOf(rows)[j + 1];
      }
      KeysInDistinct(rows[1..], d);
    }
  }

  lemma {:induction false} RowsAsGroups(bets: seq<Bet>, rows: seq<Aggregation>, d: Dimension)
    requires forall row <- rows :: row == RowOf(bets, row.dimension, row.key)
    ensures SampleSizes(rows, d) == SizeOver(bets, KeyFunction(d), KeysIn(rows, d))
    ensures NetProfits(rows, d) == SumOver(bets, KeyFunction(d), ProfitOf, KeysIn(rows, d))
  {
    hide SumBy, Members;
    if rows != [] {
      RowsAsGroups(bets, rows[1..], d);
      assert rows[0] in rows;
      if rows[0].dimension == d {
        assert KeysIn(rows, d)[1..] == KeysIn(rows[1..], d);
      } else {
        assert KeysIn(rows, d) == KeysIn(rows[1..], d);
      }
    }
  }

  /** In each dimension the sample sizes add up to the number of bets and the profits to the net profit. */
  lemma AggregationsConserve(bets: seq<Bet>, rows: seq<Aggregation>, d: Dimension)
    requires AggregatesOf(bets, rows)
    ensures SampleSizes(rows, d) == |bets|
    ensures NetProfits(rows, d) == SumBy(bets, ProfitOf)
  {
    hide SumBy, Members, RowOf, KeyIn;
    RowsAsGroups(bets, rows, d);
    KeysInDistinct(rows, d);
    forall b <- bets ensures KeyFunction(d)(b) in KeysIn(rows, d) {
      assert Occurs(bets, (d, KeyIn(b, d)));
      var i :| 0 <= i < |rows| && KeysOf(rows)[i] == (d, KeyIn(b, d));
      assert rows[i] in rows;
    }
    GroupsAddUp(bets, KeyFunction(d), ProfitOf, KeysIn(rows, d));
  }

  /** The aggregations are determined by the bets. */
  lemma AggregationsUnique(bets: seq<Bet>, a: seq<Aggregation>, b: seq<Aggregation>)
    requires AggregatesOf(bets, a) && AggregatesOf(bets, b)
    ensures a == b
  {
    hide RowOf, KeyIn, Occurs;
    var x, y := KeysOf(a), KeysOf(b);
    Ordering.SetSize(x);
    Ordering.SetSize(y);
    assert (set k | k in x) == (set k | k in y);
    KeysWithoutTies(x);
    SameSortedKeys(x, y);
    forall i | 0 <= i < |a| ensures a[i] == b[i] {
      assert x[i] == y[i] && a[i] in a && b[i] in b;
    }
  }

  lemma KeysWithoutTies(keys: seq<GroupKey>)
    ensures Ordering.NoTies(keys, KeyLe)
  {
    forall i, j | 0 <= i < |keys| && 0 <= j < |keys| && KeyLe(keys[i], keys[j]) && KeyLe(keys[j], keys[i])
      ensures keys[i] == keys[j]
    {
      if keys[i].0 == keys[j].0 {
        Ordering.StrLeAntisymmetric(keys[i].1, keys[j].1);
      }
    }
  }

  lemma SameSortedKeys(x: seq<GroupKey>, y: seq<GroupKey>)
    requires Ordering.NoDuplicates(x) && Ordering.NoDuplicates(y) && Ordering.Sorted(x, KeyLe)
    requires Ordering.Sorted(y, KeyLe)
    requires (forall k :: k in x <==> k in y) && Ordering.NoTies(x, KeyLe)
    ensures x == y
  {
    Ordering.DistinctMultiset(x);
    Ordering.DistinctMultiset(y);
    assert (set k | k in x) == (set k | k in y);
    KeyLeIsTotalPreorder();
    Ordering.SortedUnique(x, y, KeyLe);
  }

  /* ---------- The whole metrics ---------- */

  datatype Metrics = Metrics(
    betCount: nat, decisions: nat, wins: nat, losses: nat, pushes: nat, voids: nat,
    staked: real, returned: real, netProfit: real, roi: real, hitRate: real, averageOdds: real,
    maximumDrawdown: real, cumulative: seq<real>, singles: nat, multiples: nat, aggregations: seq<Aggregation>)

  function Profits(bets: seq<Bet>): (r: seq<real>)
    ensures |r| == |bets| && forall i :: 0 <= i < |bets| ==> r[i] == bets[i].profit
  {
    seq(|bets|, i requires 0 <= i < |bets| => bets[i].profit)
  }

  function Chronological(bets: seq<Bet>): seq<Bet> {
    Ordering.SortBy(bets, BetLe)
  }

  /** What every field of the metrics says about the bets. */
  ghost predicate MetricsOf(bets: seq<Bet>, m: Metrics) {
    var profits := Profits(Chronological(bets));
    && m.betCount == |bets| && m.decisions == m.wins + m.losses
    && m.wins == CountBy(bets, IsWin) && m.losses == CountBy(bets, IsLost)
    && m.pushes == CountBy(bets, IsPush) && m.voids == CountBy(bets, IsVoid)
    && m.singles == CountBy(bets, IsSingle) && m.multiples == CountBy(bets, IsMultiple)
    && m.staked == SumBy(bets, StakeOf) && m.netProfit == SumBy(bets, ProfitOf) && m.returned == m.staked + m.netProfit
    && m.roi == (if m.staked != 0.0 then m.netProfit / m.staked else 0.0)
    && m.hitRate == (if m.decisions != 0 then m.wins as real / m.decisions as real else 0.0)
    && m.averageOdds == Average(bets, OddsOf)
    && |m.cumulative| == |bets| && (forall k :: 0 <= k < |bets| ==> m.cumulative[k] == Equity(profits, k + 1))
    && IsMaximumDrawdown(profits, m.maximumDrawdown)
    && AggregatesOf(Chronological(bets), m.aggregations)
  }

  /** calculate_backtest_metrics, without the prediction scores and the audit counts */
  method CalculateMetrics(bets: seq<Bet>) returns (m: Metrics)
    ensures MetricsOf(bets, m)
  {
    hide Equity, IsMaximumDrawdown, AggregatesOf, Ordering.SortBy;
    var wins, losses := CountBy(bets, IsWin), CountBy(bets, IsLost);
    var stake, net := SumBy(bets, StakeOf), SumBy(bets, ProfitOf);
    var chronological := Chronological(bets);
    var cumulative, drawdown := Curve(Profits(chronological));
    var rows := MetricAggregations(chronological);
    SortedLength(bets);
    m := Metrics(|bets|, wins + losses, wins, losses, CountBy(bets, IsPush), CountBy(bets, IsVoid),
                 stake, stake + net, net, if stake != 0.0 then net / stake else 0.0,
                 if wins + losses != 0 then wins as real / (wins + losses) as real else 0.0, Average(bets, OddsOf),
                 drawdown, cumulative, CountBy(bets, IsSingle), CountBy(bets, IsMultiple), rows);
  }

  lemma SortedLength(bets: seq<Bet>)
    ensures |Chronological(bets)| == |bets|
  {
    assert |multiset(Chronological(bets))| == |multiset(bets)|;
  }

  lemma {:induction false} ProfitsSum(bets: seq<Bet>)
    ensures SumBy(Profits(bets), Identity) == SumBy(bets, ProfitOf)
  {
    if bets != [] {
      ProfitsSum(bets[..|bets| - 1]);
      assert Profits(bets)[..|bets| - 1] == Profits(bets[..|bets| - 1]);
    }
  }

  lemma {:induction false} LossesCount(bets: seq<Bet>)
    requires forall b <- bets :: b.profit == -1.0 <==> b.outcome == Loss
    ensures CountBy(Profits(bets), IsLoss) == CountBy(bets, IsLost)
  {
    if bets != [] {
      assert bets[|bets| - 1] in bets;
      LossesCount(bets[..|bets| - 1]);
      assert Profits(bets)[..|bets| - 1] == Profits(bets[..|bets| - 1]);
    }
  }

  /** A bet produced by the settlement functions. */
  predicate UnitBet(b: Bet) {
    b.stake == 1.0 && ((b.outcome == Win && b.profit > 0.0) || (b.outcome == Loss && b.profit == -1.0))
  }

  lemma ProfitsInOrder(bets: seq<Bet>)
    ensures |Profits(Chronological(bets))| == |bets|
    ensures Equity(Profits(Chronological(bets)), |bets|) == SumBy(bets, ProfitOf)
  {
    hide Ordering.SortBy, Equity;
    var chronological := Chronological(bets);
    SortedLength(bets);
    EndsAtNet(Profits(chronological));
    ProfitsSum(chronological);
    SumPermutation(chronological, bets, ProfitOf);
  }

  /**
   * The curve ends at the net profit, which is what was returned less what was staked; the drawdown covers a net loss.
   */
  lemma CurveEndsAtNet(bets: seq<Bet>, m: Metrics)
    requires MetricsOf(bets, m)
    ensures bets != [] ==> m.cumulative[|bets| - 1] == m.netProfit
    ensures m.netProfit == m.returned - m.staked
    ensures m.maximumDrawdown >= 0.0 && m.maximumDrawdown >= 0.0 - m.netProfit
  {
    hide AggregatesOf, Chronological, Equity;
    ProfitsInOrder(bets);
    var profits := Profits(Chronological(bets));
    StartsAtZero(profits);
    assert Equity(profits, 0) - Equity(profits, 0) <= m.maximumDrawdown;
    assert Equity(profits, 0) - Equity(profits, |profits|) <= m.maximumDrawdown;
  }

  /** For bets the settlement functions produced, no fall outruns the lost bets. */
  lemma DrawdownWithinLostBets(bets: seq<Bet>, m: Metrics)
    requires MetricsOf(bets, m) && forall b <- bets :: UnitBet(b)
    ensures 0.0 <= m.maximumDrawdown <= m.losses as real && m.staked == |bets| as real
  {
    hide AggregatesOf, Equity, Ordering.SortBy, IsMaximumDrawdown;
    var chronological := Chronological(bets);
    Ordering.SameElements(chronological, bets);
    UnitProfits(chronological);
    DrawdownWithinLosses(Profits(chronological), m.maximumDrawdown);
    LossesCount(chronological);
    CountPermutation(chronological, bets, IsLost);
    StakesAreUnits(bets);
  }

  lemma UnitProfits(bets: seq<Bet>)
    requires forall b <- bets :: UnitBet(b)
    ensures UnitSettled(Profits(bets))
  {
    forall x <- Profits(bets) ensures x == -1.0 || x > 0.0 {
      var i :| 0 <= i < |bets| && Profits(bets)[i] == x;
      assert bets[i] in bets;
    }
  }

  lemma {:induction false} StakesAreUnits(bets: seq<Bet>)
    requires forall b <- bets :: b.stake == 1.0
    ensures SumBy(bets, StakeOf) == |bets| as real
  {
    if bets != [] {
      assert bets[|bets| - 1] in bets;
      StakesAreUnits(bets[..|bets| - 1]);
    }
  }

  lemma AveragePermutation(a: seq<Bet>, b: seq<Bet>, f: Bet -> real)
    requires multiset(a) == multiset(b)
    ensures Average(a, f) == Average(b, f)
  {
    SumPermutation(a, b, f);
    assert |multiset(a)| == |a| && |multiset(b)| == |b|;
  }

  /** The metrics do not depend on the order in which the bets are supplied, as long as no two different ones tie. */
  lemma MetricsIgnoreOrder(a: seq<Bet>, b: seq<Bet>, m: Metrics, n: Metrics)
    requires multiset(a) == multiset(b) && Ordering.NoTies(a, BetLe) && MetricsOf(a, m) && MetricsOf(b, n)
    ensures m == n
  {
    hide AggregatesOf, Equity, IsMaximumDrawdown, BetLe, CountBy, SumBy, Average, Profits;
    BetLeIsTotalPreorder();
    Ordering.SortByPermutationInvariant(a, b, BetLe);
    assert Chronological(a) == Chronological(b);
    CountPermutation(a, b, IsWin);
    CountPermutation(a, b, IsLost);
    CountPermutation(a, b, IsPush);
    CountPermutation(a, b, IsVoid);
    CountPermutation(a, b, IsSingle);
    CountPermutation(a, b, IsMultiple);
    SumPermutation(a, b, StakeOf);
    SumPermutation(a, b, ProfitOf);
    AveragePermutation(a, b, OddsOf);
    assert |multiset(a)| == |a| && |multiset(b)| == |b|;
    assert m.cumulative == n.cumulative;
    MaximumDrawdownUnique(Profits(Chronological(a)), m.maximumDrawdown, n.maximumDrawdown);
    AggregationsUnique(Chronological(a), m.aggregations, n.aggregations);
  }
}
