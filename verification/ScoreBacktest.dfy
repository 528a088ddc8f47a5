/** The historical 1X2 backtest of a score model (backtesting/football_scores.py). */
module ScoreBacktest {
  import opened Wrappers
  import Ordering
  import opened Aggregates
  import opened Partitions
  import opened EquityCurves

  /** In the alphabetical order of their texts. */
  datatype Pick = Away | Draw | Home

  datatype Row = Row(event: string, competition: string, season: string, provider: string, pick: Pick, observed: Pick,
                     probability: real, marketProbability: real, odds: real) {
    predicate Valid() {
      0.0 < probability < 1.0 && 0.0 < marketProbability < 1.0 && odds > 1.0
    }

    function Edge(): real { probability - marketProbability }
    function ExpectedValue(): real { Times(probability, odds) - 1.0 }
  }

  datatype Policy = Policy(minEdge: real, minExpectedValue: real)

  datatype MarketKey = MarketKey(competition: string, season: string, event: string, provider: string)

  function KeyOf(r: Row): MarketKey { MarketKey(r.competition, r.season, r.event, r.provider) }

  /** The profit of one unit on the row. */
  function ProfitOf(r: Row): real {
    if r.pick == r.observed then r.odds - 1.0 else -1.0
  }

  predicate EdgeFails(r: Row, p: Policy) { r.Edge() < p.minEdge }
  predicate ExpectedValueFails(r: Row, p: Policy) { r.ExpectedValue() < p.minExpectedValue }
  predicate Qualifies(r: Row, p: Policy) { !EdgeFails(r, p) && !ExpectedValueFails(r, p) }

  function Rank(pick: Pick): nat {
    match pick case Away => 0 case Draw => 1 case Home => 2
  }

  predicate KeyLe(a: MarketKey, b: MarketKey) {
    if a.competition != b.competition then Ordering.StrLe(a.competition, b.competition)
    else if a.season != b.season then Ordering.StrLe(a.season, b.season)
    else if a.event != b.event then Ordering.StrLe(a.event, b.event)
    else Ordering.StrLe(a.provider, b.provider)
  }

  /** The order in which the rows are visited. */
  predicate RowLe(a: Row, b: Row) {
    if KeyOf(a) == KeyOf(b) then Rank(a.pick) <= Rank(b.pick) else KeyLe(KeyOf(a), KeyOf(b))
  }

  /** a is preferred: greater expected value, then greater edge, then earlier outcome text. */
  predicate Preferred(a: Row, b: Row) {
    if a.ExpectedValue() != b.ExpectedValue() then a.ExpectedValue() > b.ExpectedValue()
    else if a.Edge() != b.Edge() then a.Edge() > b.Edge()
    else Rank(a.pick) <= Rank(b.pick)
  }

  lemma KeyLeTransitive(a: MarketKey, b: MarketKey, c: MarketKey)
    requires KeyLe(a, b) && KeyLe(b, c)
    ensures KeyLe(a, c)
  {
    Ordering.StrLeChain(a.competition, b.competition, c.competition);
    Ordering.StrLeChain(a.season, b.season, c.season);
    Ordering.StrLeChain(a.event, b.event, c.event);
    Ordering.StrLeChain(a.provider, b.provider, c.provider);
  }

  lemma KeyLeTotal(a: MarketKey, b: MarketKey)
    ensures KeyLe(a, b) || KeyLe(b, a)
    ensures KeyLe(a, b) && KeyLe(b, a) ==> a == b
    ensures KeyLe(a, a)
  {
    Ordering.StrLeTotal(a.competition, b.competition);
    Ordering.StrLeTotal(a.season, b.season);
    Ordering.StrLeTotal(a.event, b.event);
    Ordering.StrLeTotal(a.provider, b.provider);
    Ordering.StrLeReflexive(a.provider);
    Ordering.StrLeChain(a.competition, b.competition, a.competition);
    Ordering.StrLeChain(a.season, b.season, a.season);
    Ordering.StrLeChain(a.event, b.event, a.event);
    Ordering.StrLeChain(a.provider, b.provider, a.provider);
  }

  lemma RowLeIsTotalPreorder()
    ensures Ordering.TotalPreorder(RowLe)
  {
    hide KeyLe;
    forall x: Row, y: Row ensures RowLe(x, y) || RowLe(y, x) {
      KeyLeTotal(KeyOf(x), KeyOf(y));
    }
    forall x: Row, y: Row, z: Row | RowLe(x, y) && RowLe(y, z) ensures RowLe(x, z) {
      if KeyOf(x) != KeyOf(y) && KeyOf(y) != KeyOf(z) {
        KeyLeTransitive(KeyOf(x), KeyOf(y), KeyOf(z));
        KeyLeTotal(KeyOf(x), KeyOf(y));
      }
    }
  }

  lemma PreferredIsTotalPreorder()
    ensures Ordering.TotalPreorder(Preferred)
  {
    hide Times;
  }

  /* ---------- Selecting one row per market ---------- */

  datatype Selection = Selection(accepted: seq<Row>, edgeRejected: nat, expectedValueRejected: nat, exclusive: nat)

  function Qualifying(rows: seq<Row>, p: Policy): (r: seq<Row>)
    ensures forall row :: row in r <==> row in rows && Qualifies(row, p)
  {
    if rows == [] then []
    else
      var front, last := rows[..|rows| - 1], rows[|rows| - 1];
      assert rows == front + [last];
      Qualifying(front, p) + if Qualifies(last, p) then [last] else []
  }

  function EdgeCheck(p: Policy): Row -> bool { (r: Row) => EdgeFails(r, p) }
  function ExpectedValueCheck(p: Policy): Row -> bool { (r: Row) => ExpectedValueFails(r, p) }
  function QualifyCheck(p: Policy): Row -> bool { (r: Row) => Qualifies(r, p) }
  function BothCheck(p: Policy): Row -> bool { (r: Row) => EdgeFails(r, p) && ExpectedValueFails(r, p) }

  function KeysOf(rows: seq<Row>): (r: seq<MarketKey>)
    ensures |r| == |rows| && forall i :: 0 <= i < |rows| ==> r[i] == KeyOf(rows[i])
  {
    seq(|rows|, i requires 0 <= i < |rows| => KeyOf(rows[i]))
  }

  /** The market has a row that passes both thresholds. */
  predicate HasQualifying(rows: seq<Row>, p: Policy, key: MarketKey) {
    exists r <- rows :: Qualifies(r, p) && KeyOf(r) == key
  }

  /**
   * The accepted rows: in the order of their markets, exactly one for every market with a qualifying row, and that one
   * is preferred to every qualifying row of its market.
   */
  ghost predicate Selected(rows: seq<Row>, p: Policy, accepted: seq<Row>) {
    && Ordering.NoDuplicates(KeysOf(accepted)) && Ordering.Sorted(KeysOf(accepted), KeyLe)
    && (forall r <- accepted :: r in rows && Qualifies(r, p))
    && (forall key: MarketKey :: key in KeysOf(accepted) <==> HasQualifying(rows, p, key))
    && (forall a <- accepted, r <- rows :: Qualifies(r, p) && KeyOf(r) == KeyOf(a) ==> Preferred(a, r))
  }

  /** The first loop: the failing rows are counted, the others collected in their order. */
  method Classify(rows: seq<Row>, p: Policy)
    returns (qualifying: seq<Row>, edgeRejected: nat, expectedValueRejected: nat)
    ensures qualifying == Qualifying(rows, p)
    ensures edgeRejected == CountBy(rows, EdgeCheck(p)) && expectedValueRejected == CountBy(rows, ExpectedValueCheck(p))
  {
    hide EdgeFails, ExpectedValueFails;
    qualifying, edgeRejected, expectedValueRejected := [], 0, 0;
    for i := 0 to |rows|
      invariant qualifying == Qualifying(rows[..i], p)
      invariant edgeRejected == CountBy(rows[..i], EdgeCheck(p))
      invariant expectedValueRejected == CountBy(rows[..i], ExpectedValueCheck(p))
    {
      TakeStep(rows, i);
      var row := rows[i];
      if EdgeFails(row, p) {
        edgeRejected := edgeRejected + 1;
      }
      if ExpectedValueFails(row, p) {
        expectedValueRejected := expectedValueRejected + 1;
      }
      if !EdgeFails(row, p) && !ExpectedValueFails(row, p) {
        qualifying := qualifying + [row];
      }
    }
    assert rows[..|rows|] == rows;
  }

  /** The second loop: the best row of every market is accepted, its other qualifying rows are mutually exclusive. */
  method SelectBest(qualifying: seq<Row>) returns (accepted: seq<Row>, exclusive: nat)
    ensures KeysOf(accepted) == FirstKeys(qualifying, KeyOf)
    ensures forall a <- accepted :: BestOf(a, qualifying)
    ensures exclusive + |accepted| == SizeOver(qualifying, KeyOf, FirstKeys(qualifying, KeyOf))
  {
    hide Preferred, Members, FirstKeys, Ordering.SortBy, Grouped, BestOf, SizeOver;
    var groups, keys := GroupBy(qualifying, KeyOf);
    GroupedKeys(groups, keys, qualifying, KeyOf);
    accepted, exclusive := [], 0;
    assert SizeOver(qualifying, KeyOf, keys[..0]) == 0 by { NoKeys(qualifying, keys); }
    for i := 0 to |keys|
      invariant KeysOf(accepted) == keys[..i] && |accepted| == i
      invariant forall a <- accepted :: BestOf(a, qualifying)
      invariant exclusive + i == SizeOver(qualifying, KeyOf, keys[..i])
    {
      GroupAt(groups, keys, qualifying, KeyOf, i);
      var candidates := groups[keys[i]];
      var ranked := Ordering.SortBy(candidates, Preferred);
      BestIsFirst(qualifying, keys[i], candidates);
      SizeSnoc(qualifying, keys[..i], keys[i]);
      accepted := accepted + [ranked[0]];
      exclusive := exclusive + |ranked[1..]|;
      assert keys[..i + 1] == keys[..i] + [keys[i]];
    }
    assert keys[..|keys|] == keys;
  }

  lemma NoKeys(qualifying: seq<Row>, keys: seq<MarketKey>)
    ensures SizeOver(qualifying, KeyOf, keys[..0]) == 0
  {
  }

  /** The selection part of run_historical_score_backtest */
  method Select(rows: seq<Row>, p: Policy) returns (s: Selection)
    ensures Selected(rows, p, s.accepted)
    ensures s.edgeRejected == CountBy(rows, EdgeCheck(p))
    ensures s.expectedValueRejected == CountBy(rows, ExpectedValueCheck(p))
    ensures s.exclusive == CountBy(rows, QualifyCheck(p)) - |s.accepted|
  {
    hide EdgeFails, ExpectedValueFails, Preferred, RowLe, CountBy, FirstKeys, Qualifying, Ordering.SortBy, SizeOver,
         Selected, BestOf;
    var ordered := Ordering.SortBy(rows, RowLe);
    var qualifying, edgeRejected, expectedValueRejected := Classify(ordered, p);
    var accepted, exclusive := SelectBest(qualifying);
    CountPermutation(ordered, rows, EdgeCheck(p));
    CountPermutation(ordered, rows, ExpectedValueCheck(p));
    AllMarkets(rows, p, KeysOf(accepted), accepted);
    s := Selection(accepted, edgeRejected, expectedValueRejected, exclusive);
  }

  /** a is a row of its market in the list, preferred to all of them. */
  predicate BestOf(a: Row, qualifying: seq<Row>) {
    a in qualifying && forall r <- qualifying :: KeyOf(r) == KeyOf(a) ==> Preferred(a, r)
  }

  lemma BestIsFirst(qualifying: seq<Row>, key: MarketKey, candidates: seq<Row>)
    requires candidates == Members(qualifying, KeyOf, key) && candidates != []
    ensures var ranked := Ordering.SortBy(candidates, Preferred);
            |ranked| == |candidates| && BestOf(ranked[0], qualifying) && KeyOf(ranked[0]) == key
  {
    hide Preferred;
    PreferredIsTotalPreorder();
    var ranked := Ordering.SortBy(candidates, Preferred);
    Ordering.SortBySorted(candidates, Preferred);
    Ordering.SameElements(ranked, candidates);
    assert |multiset(ranked)| == |multiset(candidates)|;
    assert ranked[0] in ranked;
    forall r <- qualifying ensures KeyOf(r) == key ==> Preferred(ranked[0], r) {
      if KeyOf(r) == key {
        assert r in ranked;
        var k :| 0 <= k < |ranked| && ranked[k] == r;
        assert Preferred(r, r);
      }
    }
  }

  lemma {:induction false} SizeSnoc(s: seq<Row>, keys: seq<MarketKey>, k: MarketKey)
    ensures SizeOver(s, KeyOf, keys + [k]) == SizeOver(s, KeyOf, keys) + |Members(s, KeyOf, k)|
  {
    hide Members;
    if keys != [] {
      assert (keys + [k])[1..] == keys[1..] + [k];
      SizeSnoc(s, keys[1..], k);
    }
  }

  lemma {:induction false} QualifyingSorted(rows: seq<Row>, p: Policy)
    requires Ordering.Sorted(rows, RowLe)
    ensures Ordering.Sorted(Qualifying(rows, p), RowLe)
    ensures |Qualifying(rows, p)| == CountBy(rows, QualifyCheck(p))
  {
    hide RowLe, Qualifies;
    if rows != [] {
      var front, last := rows[..|rows| - 1], rows[|rows| - 1];
      QualifyingSorted(front, p);
      forall r <- Qualifying(front, p) ensures RowLe(r, last) {
        var i :| 0 <= i < |front| && front[i] == r;
        assert RowLe(rows[i], rows[|front|]);
      }
    }
  }

  lemma RowKeys(a: Row, b: Row)
    ensures RowLe(a, b) ==> KeyLe(KeyOf(a), KeyOf(b))
  {
    KeyLeTotal(KeyOf(a), KeyOf(b));
  }

  lemma {:induction false} FirstKeysSorted(s: seq<Row>)
    requires Ordering.Sorted(s, RowLe)
    ensures Ordering.Sorted(FirstKeys(s, KeyOf), KeyLe)
  {
    hide RowLe, KeyLe;
    if s != [] {
      var front, last := s[..|s| - 1], s[|s| - 1];
      FirstKeysSorted(front);
      forall k <- FirstKeys(front, KeyOf) ensures KeyLe(k, KeyOf(last)) {
        LastKeyIsGreatest(s, k);
      }
    }
  }

  lemma LastKeyIsGreatest(s: seq<Row>, k: MarketKey)
    requires Ordering.Sorted(s, RowLe) && s != [] && k in FirstKeys(s[..|s| - 1], KeyOf)
    ensures KeyLe(k, KeyOf(s[|s| - 1]))
  {
    hide RowLe, KeyLe, FirstKeys;
    var front, last := s[..|s| - 1], s[|s| - 1];
    var x :| x in front && KeyOf(x) == k;
    var i :| 0 <= i < |front| && front[i] == x;
    assert RowLe(s[i], s[|front|]);
    RowKeys(x, last);
  }

  lemma QualifyingMarkets(rows: seq<Row>, p: Policy, keys: seq<MarketKey>)
    requires keys == FirstKeys(Qualifying(Ordering.SortBy(rows, RowLe), p), KeyOf)
    ensures Ordering.NoDuplicates(keys) && Ordering.Sorted(keys, KeyLe)
    ensures forall key: MarketKey :: key in keys <==> HasQualifying(rows, p, key)
    ensures SizeOver(Qualifying(Ordering.SortBy(rows, RowLe), p), KeyOf, keys) == CountBy(rows, QualifyCheck(p))
  {
    hide RowLe, Qualifies, KeyLe, CountBy, SizeOver, FirstKeys;
    var ordered := Ordering.SortBy(rows, RowLe);
    var qualifying := Qualifying(ordered, p);
    RowLeIsTotalPreorder();
    Ordering.SortBySorted(rows, RowLe);
    Ordering.SameElements(ordered, rows);
    QualifyingSorted(ordered, p);
    FirstKeysSorted(qualifying);
    FirstKeysDistinct(qualifying, KeyOf);
    GroupsAddUp(qualifying, KeyOf, ProfitOf, keys);
    CountPermutation(ordered, rows, QualifyCheck(p));
    forall key <- keys ensures HasQualifying(rows, p, key) {
      var x :| x in qualifying && KeyOf(x) == key;
      assert x in rows;
    }
  }

  /** The rows accepted for the markets in turn are the selection. */
  lemma AllMarkets(rows: seq<Row>, p: Policy, keys: seq<MarketKey>, accepted: seq<Row>)
    requires var qualifying := Qualifying(Ordering.SortBy(rows, RowLe), p);
             keys == FirstKeys(qualifying, KeyOf) && KeysOf(accepted) == keys &&
             forall a <- accepted :: BestOf(a, qualifying)
    ensures Selected(rows, p, accepted)
    ensures SizeOver(Qualifying(Ordering.SortBy(rows, RowLe), p), KeyOf, keys) == CountBy(rows, QualifyCheck(p))
  {
    hide RowLe, Preferred, Qualifies, KeyLe, CountBy, SizeOver, FirstKeys, HasQualifying, Ordering.NoDuplicates,
         Ordering.Sorted;
    QualifyingMarkets(rows, p, keys);
    Ordering.SameElements(Ordering.SortBy(rows, RowLe), rows);
  }

  /* ---------- Conservation ---------- */

  lemma {:induction false} InclusionExclusion(rows: seq<Row>, p: Policy)
    ensures CountBy(rows, EdgeCheck(p)) + CountBy(rows, ExpectedValueCheck(p)) + CountBy(rows, QualifyCheck(p))
         == |rows| + CountBy(rows, BothCheck(p))
  {
    hide EdgeFails, ExpectedValueFails;
    if rows != [] {
      InclusionExclusion(rows[..|rows| - 1], p);
    }
  }

  /** The rejection counts, less the rows counted twice for failing both thresholds, are the rows not accepted. */
  lemma RejectionsAddUp(rows: seq<Row>, p: Policy, s: Selection)
    requires s.edgeRejected == CountBy(rows, EdgeCheck(p))
    requires s.expectedValueRejected == CountBy(rows, ExpectedValueCheck(p))
    requires s.exclusive == CountBy(rows, QualifyCheck(p)) - |s.accepted|
    ensures s.edgeRejected + s.expectedValueRejected - CountBy(rows, BothCheck(p)) + s.exclusive ==
            |rows| - |s.accepted|
  {
    InclusionExclusion(rows, p);
  }

  /** One line of a bucket table: its rows, and the total and the mean of a value over them. */
  datatype Bucket = Bucket(name: string, rows: nat, total: real, mean: real)

  function BucketOf(rows: seq<Row>, g: Row -> real, name: string): Bucket {
    Bucket(name, |rows|, SumBy(rows, g), if rows == [] then 0.0 else SumBy(rows, g) / |rows| as real)
  }

  function BucketsFor(rows: seq<Row>, f: Row -> string, g: Row -> real, names: seq<string>): seq<Bucket> {
    if names == [] then [] else [BucketOf(Members(rows, f, names[0]), g, names[0])] + BucketsFor(rows, f, g, names[1..])
  }

  function BucketTable(rows: seq<Row>, f: Row -> string, g: Row -> real): seq<Bucket> {
    BucketsFor(rows, f, g, SortedKeys(rows, f, Ordering.StrLe))
  }

  /** _performance_buckets and, for its two columns, _calibration_buckets */
  method Buckets(rows: seq<Row>, f: Row -> string, g: Row -> real) returns (table: seq<Bucket>)
    ensures table == BucketTable(rows, f, g)
  {
    hide FirstKeys, Members, BucketOf, BucketsFor, Ordering.SortBy, Ordering.StrLe, Grouped;
    var groups, keys := GroupBy(rows, f);
    BucketKeys(groups, keys, rows, f);
    var names := Ordering.SortBy(keys, Ordering.StrLe);
    Ordering.SameElements(names, keys);
    table := [];
    NoBuckets(rows, f, g, names, table);
    for i := 0 to |names|
      invariant table + BucketsFor(rows, f, g, names[i..]) == BucketsFor(rows, f, g, names)
    {
      assert names[i] in names;
      NextBucket(rows, f, g, names, i, table);
      table := table + [BucketOf(groups[names[i]], g, names[i])];
    }
    NoBuckets(rows, f, g, names, table);
  }

  lemma NextBucket(rows: seq<Row>, f: Row -> string, g: Row -> real, names: seq<string>, i: nat, table: seq<Bucket>)
    requires i < |names|
    ensures table + BucketsFor(rows, f, g, names[i..])
         == table + [BucketOf(Members(rows, f, names[i]), g, names[i])] + BucketsFor(rows, f, g, names[i + 1..])
  {
    hide Members, BucketOf;
    assert names[i..][1..] == names[i + 1..];
  }

  lemma NoBuckets(rows: seq<Row>, f: Row -> string, g: Row -> real, names: seq<string>, table: seq<Bucket>)
    ensures table + BucketsFor(rows, f, g, names[|names|..]) == table
    ensures [] + BucketsFor(rows, f, g, names[0..]) == BucketsFor(rows, f, g, names)
  {
    assert names[0..] == names;
  }

  lemma BucketKeys(groups: map<string, seq<Row>>, keys: seq<string>, rows: seq<Row>, f: Row -> string)
    requires Grouped(groups, keys, rows, f)
    ensures keys == FirstKeys(rows, f) && forall k <- keys :: k in groups && groups[k] == Members(rows, f, k)
  {
  }

  function RowsIn(table: seq<Bucket>): nat {
    if table == [] then 0 else table[0].rows + RowsIn(table[1..])
  }

  function TotalOf(table: seq<Bucket>): real {
    if table == [] then 0.0 else table[0].total + TotalOf(table[1..])
  }

  lemma {:induction false} TableAsGroups(rows: seq<Row>, f: Row -> string, g: Row -> real, names: seq<string>)
    ensures RowsIn(BucketsFor(rows, f, g, names)) == SizeOver(rows, f, names)
    ensures TotalOf(BucketsFor(rows, f, g, names)) == SumOver(rows, f, g, names)
  {
    hide Members, SumBy;
    if names != [] {
      TableAsGroups(rows, f, g, names[1..]);
      assert BucketsFor(rows, f, g, names)[1..] == BucketsFor(rows, f, g, names[1..]);
    }
  }

  /** Whatever the bucketing, the buckets hold each row once and their totals add up to the whole. */
  lemma BucketsAddUp(rows: seq<Row>, f: Row -> string, g: Row -> real)
    ensures RowsIn(BucketTable(rows, f, g)) == |rows|
    ensures TotalOf(BucketTable(rows, f, g)) == SumBy(rows, g)
  {
    hide Members, SumBy, Ordering.StrLe, BucketsFor;
    var keys := FirstKeys(rows, f);
    var names := Ordering.SortBy(keys, Ordering.StrLe);
    Ordering.SameElements(names, keys);
    FirstKeysDistinct(rows, f);
    Ordering.SetSize(names);
    Ordering.SetSize(keys);
    assert (set n | n in names) == (set n | n in keys);
    TableAsGroups(rows, f, g, names);
    GroupsAddUp(rows, f, g, names);
  }

  /* ---------- Coverage ---------- */

  function EventOf(r: Row): string { r.event }
  function CompetitionOf(r: Row): string { r.competition }
  function SeasonOf(r: Row): string { r.season }

  const PICKS: set<Pick> := {Away, Draw, Home}

  /** The outcomes that are priced for an event. */
  function PicksOf(rows: seq<Row>, event: string): set<Pick> {
    set r | r in rows && r.event == event :: r.pick
  }

  function EventsOf(rows: seq<Row>): set<string> {
    set r | r in rows :: r.event
  }

  function CompleteEvents(rows: seq<Row>): set<string> {
    set e | e in EventsOf(rows) && PicksOf(rows, e) == PICKS
  }

  /** How many events were tested, and for how many of them all three outcomes are priced. */
  method Coverage(rows: seq<Row>) returns (tested: nat, complete: nat)
    ensures tested == |EventsOf(rows)| && complete == |CompleteEvents(rows)|
  {
    hide FirstKeys, Members, Grouped, PicksOf;
    var groups, events := GroupBy(rows, EventOf);
    GroupedKeys(groups, events, rows, EventOf);
    FirstKeysDistinct(rows, EventOf);
    AllEvents(rows, events);
    complete := 0;
    ghost var covered: set<string> := {};
    for i := 0 to |events|
      invariant complete == |covered|
      invariant covered == set e | e in events[..i] && PicksOf(rows, e) == PICKS
    {
      GroupAt(groups, events, rows, EventOf, i);
      GroupPicks(rows, events[i]);
      assert events[..i + 1] == events[..i] + [events[i]];
      assert events[i] !in events[..i];
      if (set r: Row | r in groups[events[i]] :: r.pick) == PICKS {
        complete := complete + 1;
        covered := covered + {events[i]};
      }
    }
    assert events[..|events|] == events;
    assert covered == CompleteEvents(rows);
    tested := |events|;
  }

  lemma AllEvents(rows: seq<Row>, events: seq<string>)
    requires events == FirstKeys(rows, EventOf) && Ordering.NoDuplicates(events)
    ensures EventsOf(rows) == (set e | e in events) && |EventsOf(rows)| == |events|
  {
    hide FirstKeys;
    Ordering.SetSize(events);
    forall e | e in events ensures e in EventsOf(rows) {
      var r :| r in rows && EventOf(r) == e;
    }
    forall e | e in EventsOf(rows) ensures e in events {
      var r :| r in rows && r.event == e;
      assert EventOf(r) in events;
    }
    assert EventsOf(rows) == (set e | e in events);
  }

  lemma GroupPicks(rows: seq<Row>, event: string)
    ensures (set r: Row | r in Members(rows, EventOf, event) :: r.pick) == PicksOf(rows, event)
  {
    hide Members;
    forall pick | pick in PicksOf(rows, event)
      ensures pick in (set r: Row | r in Members(rows, EventOf, event) :: r.pick)
    {
      var r :| r in rows && r.event == event && r.pick == pick;
      assert EventOf(r) == event;
    }
  }

  /** sorted({...}) */
  method SortedNames(rows: seq<Row>, f: Row -> string) returns (names: seq<string>)
    ensures names == SortedKeys(rows, f, Ordering.StrLe)
  {
    names := [];
    for i := 0 to |rows|
      invariant names == FirstKeys(rows[..i], f)
    {
      FirstKeysStep(rows, i, f);
      if f(rows[i]) !in names {
        names := names + [f(rows[i])];
      }
    }
    assert rows[..|rows|] == rows;
    names := Ordering.SortBy(names, Ordering.StrLe);
  }

  /* ---------- The report ---------- */

  datatype Report = Report(
    selection: Selection, testedEvents: nat, quoteRows: nat, completeMarkets: nat, quoteCoverage: real,
    turnover: nat, rejectedSelections: int, profit: real, roi: Option<real>, maximumDrawdown: real,
    oddsBuckets: seq<Bucket>, edgeBuckets: seq<Bucket>, calibrationMeans: seq<Bucket>, calibrationHits: seq<Bucket>,
    competitions: seq<string>, seasons: seq<string>)

  function OddsBucket(r: Row): string {
    if r.odds < 2.0 then "odds-under-2" else if r.odds < 3.0 then "odds-2-to-3" else "odds-3-plus"
  }

  function EdgeBucket(r: Row): string {
    if r.Edge() < 0.05 then "edge-under-5pct" else if r.Edge() < 0.10 then "edge-5-to-10pct" else "edge-10pct-plus"
  }

  function PriceBucket(r: Row): string {
    if r.odds < 2.0 then "price-under-2" else if r.odds < 3.0 then "price-2-to-3" else "price-3-plus"
  }

  function ProbabilityOf(r: Row): real { r.probability }
  function HitOf(r: Row): real { if r.pick == r.observed then 1.0 else 0.0 }

  function Pnl(rows: seq<Row>): (r: seq<real>)
    ensures |r| == |rows| && forall i :: 0 <= i < |rows| ==> r[i] == ProfitOf(rows[i])
  {
    seq(|rows|, i requires 0 <= i < |rows| => ProfitOf(rows[i]))
  }

  lemma {:induction false} PnlSum(rows: seq<Row>)
    ensures SumBy(Pnl(rows), Identity) == SumBy(rows, ProfitOf)
  {
    if rows != [] {
      PnlSum(rows[..|rows| - 1]);
      assert Pnl(rows)[..|rows| - 1] == Pnl(rows[..|rows| - 1]);
    }
  }

  /** What every field of the report says about the rows. */
  ghost predicate ReportOf(rows: seq<Row>, p: Policy, r: Report) {
    var accepted := r.selection.accepted;
    && Selected(rows, p, accepted)
    && r.selection.exclusive == CountBy(rows, QualifyCheck(p)) - |accepted|
    && r.selection.edgeRejected == CountBy(rows, EdgeCheck(p))
    && r.selection.expectedValueRejected == CountBy(rows, ExpectedValueCheck(p))
    && Covers(rows, r) && Performs(accepted, r)
    && r.turnover == |accepted| && r.rejectedSelections == |rows| - |accepted|
    && r.calibrationMeans == BucketTable(rows, PriceBucket, ProbabilityOf)
    && r.calibrationHits == BucketTable(rows, PriceBucket, HitOf)
  }

  predicate Covers(rows: seq<Row>, r: Report) {
    && r.quoteRows == |rows| && r.testedEvents == |EventsOf(rows)| && r.completeMarkets == |CompleteEvents(rows)|
    && r.quoteCoverage == (if r.testedEvents == 0 then 0.0 else r.completeMarkets as real / r.testedEvents as real)
    && r.competitions == SortedKeys(rows, CompetitionOf, Ordering.StrLe)
    && r.seasons == SortedKeys(rows, SeasonOf, Ordering.StrLe)
  }

  ghost predicate Performs(accepted: seq<Row>, r: Report) {
    && r.profit == SumBy(accepted, ProfitOf)
    && r.roi == (if accepted == [] then None else Some(SumBy(accepted, ProfitOf) / |accepted| as real))
    && IsMaximumDrawdown(Pnl(accepted), r.maximumDrawdown)
    && r.oddsBuckets == BucketTable(accepted, OddsBucket, ProfitOf)
    && r.edgeBuckets == BucketTable(accepted, EdgeBucket, ProfitOf)
  }

  lemma SomeEvent(rows: seq<Row>)
    requires rows != []
    ensures |EventsOf(rows)| > 0
  {
    assert rows[0] in rows && rows[0].event in EventsOf(rows);
  }

  /** run_historical_score_backtest; an empty input is refused */
  method Run(rows: seq<Row>, p: Policy) returns (r: Option<Report>)
    requires forall row <- rows :: row.Valid()
    ensures r.None? <==> rows == []
    ensures r.Some? ==> ReportOf(rows, p, r.value)
  {
    hide Selected, BucketTable, CountBy, IsMaximumDrawdown, EventsOf, CompleteEvents, SortedKeys;
    if rows == [] {
      return None;
    }
    var selection := Select(rows, p);
    var accepted := selection.accepted;
    var cumulative, drawdown := Curve(Pnl(accepted));
    var profit := SumBy(accepted, ProfitOf);
    var tested, complete := Coverage(rows);
    SomeEvent(rows);
    var odds := Buckets(accepted, OddsBucket, ProfitOf);
    var edges := Buckets(accepted, EdgeBucket, ProfitOf);
    var means := Buckets(rows, PriceBucket, ProbabilityOf);
    var hits := Buckets(rows, PriceBucket, HitOf);
    var competitions := SortedNames(rows, CompetitionOf);
    var seasons := SortedNames(rows, SeasonOf);
    r := Some(Report(selection, tested, |rows|, complete, complete as real / tested as real, |accepted|,
                     |rows| - |accepted|,
                     profit, if accepted == [] then None else Some(profit / |accepted| as real), drawdown,
                     odds, edges, means, hits, competitions, seasons));
  }

  /* ---------- The report ignores the order of the rows ---------- */

  /** Rows that price the same outcome of the same market are the same row. */
  predicate PricedOnce(rows: seq<Row>) {
    forall r <- rows, s <- rows :: KeyOf(r) == KeyOf(s) && r.pick == s.pick ==> r == s
  }

  lemma PreferredTie(a: Row, b: Row)
    requires Preferred(a, b) && Preferred(b, a)
    ensures a.pick == b.pick
  {
  }

  lemma SameAccepted(rows: seq<Row>, p: Policy, a: seq<Row>, b: seq<Row>, i: nat)
    requires PricedOnce(rows) && Selected(rows, p, a) && Selected(rows, p, b) && i < |a| && i < |b|
    requires KeyOf(a[i]) == KeyOf(b[i])
    ensures a[i] == b[i]
  {
    hide Preferred, Qualifies;
    assert a[i] in a && b[i] in b;
    PreferredTie(a[i], b[i]);
  }

  /** The selection is unique: one row for each market with a qualifying row, and no two ways to choose it. */
  lemma SelectionUnique(rows: seq<Row>, p: Policy, a: seq<Row>, b: seq<Row>)
    requires PricedOnce(rows) && Selected(rows, p, a) && Selected(rows, p, b)
    ensures a == b
  {
    hide Selected, KeyLe, PricedOnce;
    SameMarkets(rows, p, a, b);
    forall i | 0 <= i < |a| ensures a[i] == b[i] {
      assert KeysOf(a)[i] == KeysOf(b)[i];
      SameAccepted(rows, p, a, b, i);
    }
  }

  lemma SameMarkets(rows: seq<Row>, p: Policy, a: seq<Row>, b: seq<Row>)
    requires Selected(rows, p, a) && Selected(rows, p, b)
    ensures KeysOf(a) == KeysOf(b)
  {
    hide KeyLe, HasQualifying, Qualifies, Preferred;
    var x, y := KeysOf(a), KeysOf(b);
    Ordering.DistinctMultiset(x);
    Ordering.DistinctMultiset(y);
    assert (set k | k in x) == (set k | k in y);
    assert Ordering.TotalPreorder(KeyLe) && Ordering.NoTies(x, KeyLe) by { KeyLeIsTotalOrder(x); }
    Ordering.SortedUnique(x, y, KeyLe);
  }

  lemma KeyLeIsTotalOrder(keys: seq<MarketKey>)
    ensures Ordering.TotalPreorder(KeyLe) && Ordering.NoTies(keys, KeyLe)
  {
    hide KeyLe;
    forall x: MarketKey, y: MarketKey ensures KeyLe(x, y) || KeyLe(y, x) {
      KeyLeTotal(x, y);
    }
    forall x: MarketKey, y: MarketKey, z: MarketKey | KeyLe(x, y) && KeyLe(y, z) ensures KeyLe(x, z) {
      KeyLeTransitive(x, y, z);
    }
    forall i, j | 0 <= i < |keys| && 0 <= j < |keys| && KeyLe(keys[i], keys[j]) && KeyLe(keys[j], keys[i])
      ensures keys[i] == keys[j]
    {
      KeyLeTotal(keys[i], keys[j]);
    }
  }

  lemma SelectedPermutation(a: seq<Row>, b: seq<Row>, p: Policy, accepted: seq<Row>)
    requires multiset(a) == multiset(b) && Selected(a, p, accepted)
    ensures Selected(b, p, accepted)
  {
    hide KeyLe, Qualifies, Preferred, Ordering.NoDuplicates, Ordering.Sorted;
    Ordering.SameElements(a, b);
    assert forall key: MarketKey :: HasQualifying(a, p, key) <==> HasQualifying(b, p, key);
  }

  lemma {:induction false} BucketsPermutation(a: seq<Row>, b: seq<Row>, f: Row -> string, g: Row -> real,
                                              names: seq<string>)
    requires multiset(a) == multiset(b)
    ensures BucketsFor(a, f, g, names) == BucketsFor(b, f, g, names)
  {
    hide Members, SumBy;
    if names != [] {
      BucketsPermutation(a, b, f, g, names[1..]);
      GroupSizePermutation(a, b, f, names[0]);
      GroupSumPermutation(a, b, f, names[0], g);
    }
  }

  lemma StrLeIsOrder()
    ensures Ordering.TotalPreorder(Ordering.StrLe)
    ensures forall j, k :: Ordering.StrLe(j, k) && Ordering.StrLe(k, j) ==> j == k
  {
    Ordering.StrLeIsTotalPreorder();
    forall j, k | Ordering.StrLe(j, k) && Ordering.StrLe(k, j) ensures j == k {
      Ordering.StrLeAntisymmetric(j, k);
    }
  }

  lemma TablePermutation(a: seq<Row>, b: seq<Row>, f: Row -> string, g: Row -> real)
    requires multiset(a) == multiset(b)
    ensures BucketTable(a, f, g) == BucketTable(b, f, g)
  {
    hide BucketsFor, SortedKeys, Ordering.StrLe;
    StrLeIsOrder();
    SortedKeysPermutation(a, b, f, Ordering.StrLe);
    BucketsPermutation(a, b, f, g, SortedKeys(a, f, Ordering.StrLe));
  }

  lemma CoversPermutation(a: seq<Row>, b: seq<Row>, r: Report)
    requires multiset(a) == multiset(b) && Covers(a, r)
    ensures Covers(b, r)
  {
    hide SortedKeys, Ordering.StrLe;
    StrLeIsOrder();
    Ordering.SameElements(a, b);
    SortedKeysPermutation(a, b, CompetitionOf, Ordering.StrLe);
    SortedKeysPermutation(a, b, SeasonOf, Ordering.StrLe);
    assert EventsOf(a) == EventsOf(b);
    assert forall e :: PicksOf(a, e) == PicksOf(b, e);
    assert CompleteEvents(a) == CompleteEvents(b);
  }

  /** The whole report is the same for every arrangement of the rows. */
  lemma ReportIgnoresOrder(a: seq<Row>, b: seq<Row>, p: Policy, r: Report, s: Report)
    requires multiset(a) == multiset(b) && PricedOnce(a) && ReportOf(a, p, r) && ReportOf(b, p, s)
    ensures r == s
  {
    hide Selected, Covers, Performs, PricedOnce, BucketTable, CountBy;
    SelectedPermutation(b, a, p, s.selection.accepted);
    SelectionUnique(a, p, r.selection.accepted, s.selection.accepted);
    CoversPermutation(b, a, s);
    CountPermutation(a, b, QualifyCheck(p));
    CountPermutation(a, b, EdgeCheck(p));
    CountPermutation(a, b, ExpectedValueCheck(p));
    TablePermutation(a, b, PriceBucket, ProbabilityOf);
    TablePermutation(a, b, PriceBucket, HitOf);
    Ordering.SameElements(a, b);
    SamePerformance(r.selection.accepted, r, s);
    SameCoverage(a, r, s);
  }

  lemma SamePerformance(accepted: seq<Row>, r: Report, s: Report)
    requires Performs(accepted, r) && Performs(accepted, s)
    ensures r.profit == s.profit && r.roi == s.roi && r.maximumDrawdown == s.maximumDrawdown
    ensures r.oddsBuckets == s.oddsBuckets && r.edgeBuckets == s.edgeBuckets
  {
    hide IsMaximumDrawdown, BucketTable;
    MaximumDrawdownUnique(Pnl(accepted), r.maximumDrawdown, s.maximumDrawdown);
  }

  lemma SameCoverage(rows: seq<Row>, r: Report, s: Report)
    requires Covers(rows, r) && Covers(rows, s)
    ensures r.quoteRows == s.quoteRows && r.testedEvents == s.testedEvents && r.completeMarkets == s.completeMarkets
    ensures r.quoteCoverage == s.quoteCoverage && r.competitions == s.competitions && r.seasons == s.seasons
  {
    hide EventsOf, CompleteEvents, SortedKeys;
  }

  /** The drawdown of the accepted rows never exceeds the lost ones, and their equity ends at the profit. */
  lemma AcceptedDrawdown(accepted: seq<Row>, d: real)
    requires (forall r <- accepted :: r.Valid()) && IsMaximumDrawdown(Pnl(accepted), d)
    ensures 0.0 <= d <= CountBy(Pnl(accepted), IsLoss) as real
    ensures Equity(Pnl(accepted), |accepted|) == SumBy(accepted, ProfitOf)
  {
    forall x <- Pnl(accepted) ensures x == -1.0 || x > 0.0 {
      var i :| 0 <= i < |accepted| && Pnl(accepted)[i] == x;
      assert accepted[i] in accepted;
    }
    DrawdownWithinLosses(Pnl(accepted), d);
    EndsAtNet(Pnl(accepted));
    PnlSum(accepted);
  }
}
