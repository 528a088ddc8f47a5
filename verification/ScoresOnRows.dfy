/** What the score backtest selects and reports, read off the fields of the rows (backtesting/football_scores.py). */
module ScoresOnRows {
  import opened Wrappers
  import Ordering
  import opened Aggregates
  import opened Partitions
  import opened EquityCurves
  import MetricsOnBets
  import opened ScoreBacktest

  /* ---------- The selection ---------- */

  /**
   * An accepted row meets both thresholds, and of the rows of its market that do none is better: by probability times
   * odds, then by the probability in excess of the market's, then by the name of the outcome.
   */
  lemma AcceptedOnFields(rows: seq<Row>, p: Policy, accepted: seq<Row>, a: Row, r: Row)
    requires Selected(rows, p, accepted) && a in accepted && r in rows
    requires r.competition == a.competition && r.season == a.season && r.event == a.event && r.provider == a.provider
    requires r.probability - r.marketProbability >= p.minEdge && r.probability * r.odds - 1.0 >= p.minExpectedValue
    ensures a in rows && a.probability - a.marketProbability >= p.minEdge
    ensures a.probability * a.odds - 1.0 >= p.minExpectedValue
    ensures a.probability * a.odds >= r.probability * r.odds
    ensures a.probability * a.odds == r.probability * r.odds ==>
              a.probability - a.marketProbability >= r.probability - r.marketProbability
    ensures a.probability * a.odds == r.probability * r.odds &&
            a.probability - a.marketProbability == r.probability - r.marketProbability ==>
              a.pick == r.pick || a.pick == Away || r.pick == Home
  {
    hide HasQualifying, KeyLe, Ordering.NoDuplicates, Ordering.Sorted;
    assert Qualifies(r, p) && KeyOf(r) == KeyOf(a);
    assert Qualifies(a, p);
    assert Preferred(a, r);
  }

  /**
   * One row is accepted for each market, that is each competition, season, event and provider, with a row that meets
   * both thresholds, and the markets come in the order of these four fields.
   */
  lemma MarketsOnFields(rows: seq<Row>, p: Policy, accepted: seq<Row>, r: Row, i: nat, j: nat)
    requires Selected(rows, p, accepted) && r in rows && i < j < |accepted|
    ensures r.probability - r.marketProbability >= p.minEdge && r.probability * r.odds - 1.0 >= p.minExpectedValue ==>
              exists a <- accepted :: a.competition == r.competition && a.season == r.season && a.event == r.event &&
                a.provider == r.provider
    ensures var (a, b) := (accepted[i], accepted[j]);
            && Ordering.StrLe(a.competition, b.competition)
            && (a.competition == b.competition ==> Ordering.StrLe(a.season, b.season))
            && (a.competition == b.competition && a.season == b.season ==> Ordering.StrLe(a.event, b.event))
            && (a.competition == b.competition && a.season == b.season && a.event == b.event ==>
                  Ordering.StrLe(a.provider, b.provider) && a.provider != b.provider)
  {
    hide Preferred, Ordering.StrLe;
    assert KeyLe(KeysOf(accepted)[i], KeysOf(accepted)[j]) && KeysOf(accepted)[i] != KeysOf(accepted)[j];
    Ordering.StrLeReflexive(accepted[i].competition);
    Ordering.StrLeReflexive(accepted[i].season);
    Ordering.StrLeReflexive(accepted[i].event);
    if Qualifies(r, p) {
      assert HasQualifying(rows, p, KeyOf(r));
      var k :| 0 <= k < |accepted| && KeysOf(accepted)[k] == KeyOf(r);
      assert accepted[k] in accepted;
    }
  }

  /* ---------- The report ---------- */

  /** The counts and the performance in the report, counted and summed over the fields of the rows. */
  lemma ReportOnFields(rows: seq<Row>, p: Policy, r: Report)
    requires rows != [] && ReportOf(rows, p, r)
    ensures r.selection.edgeRejected == CountBy(rows, (x: Row) => x.probability - x.marketProbability < p.minEdge)
    ensures r.selection.expectedValueRejected ==
            CountBy(rows, (x: Row) => x.probability * x.odds - 1.0 < p.minExpectedValue)
    ensures r.selection.exclusive + |r.selection.accepted| ==
            CountBy(rows, (x: Row) => x.probability - x.marketProbability >= p.minEdge &&
                                      x.probability * x.odds - 1.0 >= p.minExpectedValue)
    ensures r.quoteRows == |rows| && r.testedEvents == |set x | x in rows :: x.event|
    ensures r.turnover == |r.selection.accepted| && r.rejectedSelections == |rows| - |r.selection.accepted|
    ensures r.profit == SumBy(r.selection.accepted, (x: Row) => if x.pick == x.observed then x.odds - 1.0 else -1.0)
    ensures r.roi.None? <==> r.selection.accepted == []
    ensures r.roi.Some? ==> r.roi.value * |r.selection.accepted| as real == r.profit
    ensures r.quoteCoverage * r.testedEvents as real == r.completeMarkets as real
  {
    hide Selected, BucketTable, CountBy, SumBy, IsMaximumDrawdown, CompleteEvents, SortedKeys, Preferred;
    var accepted := r.selection.accepted;
    CountsOnFields(rows, p);
    SomeEvent(rows);
    MetricsOnBets.Quotient(r.completeMarkets as real, r.testedEvents as real);
    if accepted != [] {
      MetricsOnBets.Quotient(SumBy(accepted, ProfitOf), |accepted| as real);
    }
    MetricsOnBets.SameSums(accepted, ProfitOf,
                           (x: Row) => if x.pick == x.observed then x.odds - 1.0 else -1.0);
  }

  lemma CountsOnFields(rows: seq<Row>, p: Policy)
    ensures CountBy(rows, EdgeCheck(p)) == CountBy(rows, (x: Row) => x.probability - x.marketProbability < p.minEdge)
    ensures CountBy(rows, ExpectedValueCheck(p)) ==
            CountBy(rows, (x: Row) => x.probability * x.odds - 1.0 < p.minExpectedValue)
    ensures CountBy(rows, QualifyCheck(p)) ==
            CountBy(rows, (x: Row) => x.probability - x.marketProbability >= p.minEdge &&
                                      x.probability * x.odds - 1.0 >= p.minExpectedValue)
  {
    hide CountBy;
    MetricsOnBets.SameCounts(rows, EdgeCheck(p), (x: Row) => x.probability - x.marketProbability < p.minEdge);
    MetricsOnBets.SameCounts(rows, ExpectedValueCheck(p),
                             (x: Row) => x.probability * x.odds - 1.0 < p.minExpectedValue);
    MetricsOnBets.SameCounts(rows, QualifyCheck(p),
                             (x: Row) => x.probability - x.marketProbability >= p.minEdge &&
                                         x.probability * x.odds - 1.0 >= p.minExpectedValue);
  }

  /** A complete market is an event for which all three outcomes are priced. */
  lemma CompleteOnFields(rows: seq<Row>, p: Policy, r: Report, events: set<string>)
    requires ReportOf(rows, p, r)
    requires forall e :: e in events <==> (exists h <- rows :: h.event == e && h.pick == Home) &&
                                          (exists d <- rows :: d.event == e && d.pick == Draw) &&
                                          exists a <- rows :: a.event == e && a.pick == Away
    ensures r.completeMarkets == |events|
  {
    hide Selected, BucketTable, CountBy, SumBy, IsMaximumDrawdown, SortedKeys, Performs;
    forall e ensures e in events <==> e in CompleteEvents(rows) {
      EventIsComplete(rows, e);
    }
    assert events == CompleteEvents(rows);
  }

  lemma EventIsComplete(rows: seq<Row>, e: string)
    ensures e in CompleteEvents(rows) <==> (exists h <- rows :: h.event == e && h.pick == Home) &&
                                           (exists d <- rows :: d.event == e && d.pick == Draw) &&
                                           exists a <- rows :: a.event == e && a.pick == Away
  {
    var picks := PicksOf(rows, e);
    assert Home in picks <==> exists h <- rows :: h.event == e && h.pick == Home;
    assert Draw in picks <==> exists d <- rows :: d.event == e && d.pick == Draw;
    assert Away in picks <==> exists a <- rows :: a.event == e && a.pick == Away;
    if Home in picks {
      var h :| h in rows && h.event == e && h.pick == Home;
      assert h.event in EventsOf(rows);
    }
  }

  /* ---------- The bucket tables ---------- */

  lemma {:induction false} LinesOf(rows: seq<Row>, f: Row -> string, g: Row -> real, names: seq<string>)
    ensures |names| == |BucketsFor(rows, f, g, names)|
    ensures forall i :: 0 <= i < |names| ==>
              BucketsFor(rows, f, g, names)[i] == BucketOf(Members(rows, f, names[i]), g, names[i])
  {
    hide BucketOf, Members;
    if names != [] {
      LinesOf(rows, f, g, names[1..]);
      var rest := BucketsFor(rows, f, g, names[1..]);
      forall i | 0 < i < |names|
        ensures BucketsFor(rows, f, g, names)[i] == BucketOf(Members(rows, f, names[i]), g, names[i])
      {
        assert rest[i - 1] == BucketOf(Members(rows, f, names[1..][i - 1]), g, names[1..][i - 1]);
      }
    }
  }

  /** The line of a bucket counts its rows and sums and averages the value over them; no line is empty. */
  lemma LineOnFields(rows: seq<Row>, f: Row -> string, g: Row -> real, i: nat, j: nat, belongs: Row -> bool,
                     value: Row -> real)
    requires i < |BucketTable(rows, f, g)| && j < |BucketTable(rows, f, g)|
    requires forall r <- rows :: belongs(r) <==> f(r) == BucketTable(rows, f, g)[i].name
    requires forall r <- rows :: value(r) == if belongs(r) then g(r) else 0.0
    ensures var line := BucketTable(rows, f, g)[i];
            && line.rows == CountBy(rows, belongs) && line.rows > 0
            && line.total == SumBy(rows, value) && line.mean * line.rows as real == line.total
            && (i < j ==> Ordering.StrLe(line.name, BucketTable(rows, f, g)[j].name) &&
                          line.name != BucketTable(rows, f, g)[j].name)
  {
    hide CountBy, SumBy, Members, BucketsFor, SortedKeys;
    var names := SortedKeys(rows, f, Ordering.StrLe);
    LinesOf(rows, f, g, names);
    StrLeIsOrder();
    SortedKeysAre(rows, f, Ordering.StrLe);
    assert names[i] in names;
    var members, all := Members(rows, f, names[i]), (r: Row) => true;
    CountAll(members, all);
    MetricsOnBets.CountMembers(rows, f, names[i], all, belongs);
    MembersSum(rows, f, names[i], g);
    MetricsOnBets.SameSums(rows, Within(f, names[i], g), value);
    var r :| r in rows && f(r) == names[i];
    assert r in members;
    MetricsOnBets.Quotient(SumBy(members, g), |members| as real);
  }

  /** Odds below 2, from 2 below 3, and from 3: the accepted rows and their profit. */
  lemma OddsLineOnFields(rows: seq<Row>, p: Policy, r: Report, i: nat, belongs: Row -> bool)
    requires ReportOf(rows, p, r) && i < |r.oddsBuckets|
    requires forall x <- r.selection.accepted :: belongs(x) <==>
               || (x.odds < 2.0 && r.oddsBuckets[i].name == "odds-under-2")
               || (2.0 <= x.odds < 3.0 && r.oddsBuckets[i].name == "odds-2-to-3")
               || (3.0 <= x.odds && r.oddsBuckets[i].name == "odds-3-plus")
    ensures r.oddsBuckets[i].rows == CountBy(r.selection.accepted, belongs) && r.oddsBuckets[i].rows > 0
    ensures r.oddsBuckets[i].total ==
            SumBy(r.selection.accepted, (x: Row) => if !belongs(x) then 0.0
                                                    else if x.pick == x.observed then x.odds - 1.0 else -1.0)
    ensures r.oddsBuckets[i].mean * r.oddsBuckets[i].rows as real == r.oddsBuckets[i].total
  {
    hide Selected, BucketTable, CountBy, SumBy, IsMaximumDrawdown, Covers;
    BandsDiffer();
    LineOnFields(r.selection.accepted, OddsBucket, ProfitOf, i, i, belongs,
                 (x: Row) => if !belongs(x) then 0.0 else if x.pick == x.observed then x.odds - 1.0 else -1.0);
  }

  /** The names of three bands are three names. */
  lemma BandsDiffer()
    ensures "odds-under-2" != "odds-2-to-3" && "odds-3-plus" != "odds-under-2" && "odds-3-plus" != "odds-2-to-3"
    ensures "edge-under-5pct" != "edge-5-to-10pct" && "edge-10pct-plus" != "edge-5-to-10pct"
    ensures "edge-under-5pct" != "edge-10pct-plus"
    ensures "price-under-2" != "price-2-to-3" && "price-3-plus" != "price-under-2" && "price-3-plus" != "price-2-to-3"
  {
    assert "odds-under-2"[5] == 'u' && "odds-2-to-3"[5] == '2' && "odds-3-plus"[5] == '3';
    assert "edge-under-5pct"[5] == 'u' && "edge-5-to-10pct"[5] == '5' && "edge-10pct-plus"[5] == '1';
    assert "price-under-2"[6] == 'u' && "price-2-to-3"[6] == '2' && "price-3-plus"[6] == '3';
  }

  /** Edges below 5 percent, from 5 below 10 percent, and from 10 percent. */
  lemma EdgeLineOnFields(rows: seq<Row>, p: Policy, r: Report, i: nat, belongs: Row -> bool)
    requires ReportOf(rows, p, r) && i < |r.edgeBuckets|
    requires forall x <- r.selection.accepted :: belongs(x) <==>
               var edge := x.probability - x.marketProbability;
               || (edge < 0.05 && r.edgeBuckets[i].name == "edge-under-5pct")
               || (0.05 <= edge < 0.1 && r.edgeBuckets[i].name == "edge-5-to-10pct")
               || (0.1 <= edge && r.edgeBuckets[i].name == "edge-10pct-plus")
    ensures r.edgeBuckets[i].rows == CountBy(r.selection.accepted, belongs) && r.edgeBuckets[i].rows > 0
    ensures r.edgeBuckets[i].total ==
            SumBy(r.selection.accepted, (x: Row) => if !belongs(x) then 0.0
                                                    else if x.pick == x.observed then x.odds - 1.0 else -1.0)
    ensures r.edgeBuckets[i].mean * r.edgeBuckets[i].rows as real == r.edgeBuckets[i].total
  {
    hide Selected, BucketTable, CountBy, SumBy, IsMaximumDrawdown, Covers;
    BandsDiffer();
    LineOnFields(r.selection.accepted, EdgeBucket, ProfitOf, i, i, belongs,
                 (x: Row) => if !belongs(x) then 0.0 else if x.pick == x.observed then x.odds - 1.0 else -1.0);
  }

  /** The calibration table runs over all rows: the mean probability and the frequency of hits in each band of odds. */
  lemma CalibrationLineOnFields(rows: seq<Row>, p: Policy, r: Report, i: nat, belongs: Row -> bool)
    requires ReportOf(rows, p, r) && i < |r.calibrationMeans|
    requires forall x <- rows :: belongs(x) <==>
               || (x.odds < 2.0 && r.calibrationMeans[i].name == "price-under-2")
               || (2.0 <= x.odds < 3.0 && r.calibrationMeans[i].name == "price-2-to-3")
               || (3.0 <= x.odds && r.calibrationMeans[i].name == "price-3-plus")
    ensures r.calibrationMeans[i].rows == CountBy(rows, belongs) && r.calibrationMeans[i].rows > 0
    ensures r.calibrationMeans[i].mean * r.calibrationMeans[i].rows as real ==
            SumBy(rows, (x: Row) => if belongs(x) then x.probability else 0.0)
    ensures i < |r.calibrationHits| && r.calibrationHits[i].name == r.calibrationMeans[i].name
    ensures r.calibrationHits[i].mean * r.calibrationMeans[i].rows as real ==
            SumBy(rows, (x: Row) => if belongs(x) && x.pick == x.observed then 1.0 else 0.0)
  {
    hide Selected, CountBy, SumBy, IsMaximumDrawdown, Covers, Performs, BucketsFor, SortedKeys;
    BandsDiffer();
    var names := SortedKeys(rows, PriceBucket, Ordering.StrLe);
    LinesOf(rows, PriceBucket, ProbabilityOf, names);
    LinesOf(rows, PriceBucket, HitOf, names);
    LineOnFields(rows, PriceBucket, ProbabilityOf, i, i, belongs,
                 (x: Row) => if belongs(x) then x.probability else 0.0);
    LineOnFields(rows, PriceBucket, HitOf, i, i, belongs,
                 (x: Row) => if belongs(x) && x.pick == x.observed then 1.0 else 0.0);
  }

  /** The list has exactly the values of the field, once each and in order. */
  ghost predicate Lists(names: seq<string>, rows: seq<Row>, field: Row -> string) {
    && (forall name :: name in names <==> exists x <- rows :: field(x) == name)
    && forall i, j :: 0 <= i < j < |names| ==> Ordering.StrLe(names[i], names[j]) && names[i] != names[j]
  }

  lemma SortedKeysList(rows: seq<Row>, f: Row -> string, g: Row -> string)
    requires forall x: Row :: f(x) == g(x)
    ensures Lists(SortedKeys(rows, f, Ordering.StrLe), rows, g)
  {
    hide SortedKeys, Ordering.StrLe;
    StrLeIsOrder();
    SortedKeysAre(rows, f, Ordering.StrLe);
  }

  /** The report lists the competitions and the seasons that occur. */
  lemma NamesOnFields(rows: seq<Row>, p: Policy, r: Report)
    requires ReportOf(rows, p, r)
    ensures Lists(r.competitions, rows, (x: Row) => x.competition)
    ensures Lists(r.seasons, rows, (x: Row) => x.season)
  {
    hide Selected, Performs, BucketTable, SortedKeys, Lists;
    SortedKeysList(rows, CompetitionOf, (x: Row) => x.competition);
    SortedKeysList(rows, SeasonOf, (x: Row) => x.season);
  }
}
