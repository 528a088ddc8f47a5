/** What a backtest run refuses and bets, read off the fields of its folds and candidates (backtesting/engine.py). */
module BacktestOnFields {
  import opened Wrappers
  import Ordering
  import opened Aggregates
  import opened Opportunities
  import S = OpportunitySearch
  import C = CombinationContracts
  import opened Settlement
  import opened BacktestMetrics
  import MetricsOnBets
  import opened Backtest
  import opened BacktestSafety
  import opened BacktestTrail
  import opened BacktestIdentity

  /* ---------- Settlement ---------- */

  /** A single settles exactly when it is decided and its odds exceed one, and wins its odds less the stake. */
  lemma SingleOnFields(odds: real, outcome: Outcome)
    ensures SettleSingle(odds, outcome).Ok? <==> odds > 1.0 && (outcome == Win || outcome == Loss)
    ensures SettleSingle(odds, outcome).Err? ==>
              SettleSingle(odds, outcome).error == if odds <= 1.0 then OddsNotAboveOne else PushOrVoid
    ensures SettleSingle(odds, outcome).Ok? ==>
              var (returned, profit) := SettleSingle(odds, outcome).value;
              && returned == (if outcome == Win then odds else 0.0)
              && profit == (if outcome == Win then odds - 1.0 else -1.0)
  {
  }

  /**
   * A combination settles exactly when it has legs and each of them could be settled; it returns the product of its
   * odds if all won, and nothing otherwise.
   */
  lemma MultipleOnFields(legs: seq<Leg>)
    ensures var r := CombinationSettlement(legs);
            && (r.Ok? <==> legs != [] && forall leg <- legs :: leg.odds > 1.0 && (leg.outcome == Win ||
                                                                                  leg.outcome == Loss))
            && (r.Ok? ==>
                  if forall leg <- legs :: leg.outcome == Win then
                    && r.value.outcome == Win && r.value.odds == ProductBy(legs, (leg: Leg) => leg.odds)
                    && r.value.returned == r.value.odds && r.value.profit == r.value.odds - 1.0
                  else
                    r.value.outcome == Loss && r.value.odds == 0.0 && r.value.returned == 0.0 && r.value.profit == -1.0)
  {
    hide ProductBy, LegErrorOf;
    NoLegError(legs);
    SameOdds(legs);
  }

  lemma {:induction false} SameOdds(legs: seq<Leg>)
    ensures ProductBy(legs, OddsOfLeg) == ProductBy(legs, (leg: Leg) => leg.odds)
  {
    if legs != [] {
      SameOdds(legs[..|legs| - 1]);
    }
  }

  /* ---------- The bets ---------- */

  /**
   * A single of a completed run is one candidate of the fold it names: it carries that candidate's odds, outcome,
   * start, market, provider and predictions, stakes one unit and settles by that odds and outcome.
   */
  lemma SinglesOnFields(folds: seq<FoldInput>, x: Context, b: Bet)
    requires x.Valid() && RunOf(folds, x).Ok? && b in RunOf(folds, x).value.bets && b.kind == Single
    ensures exists f <- folds, c <- f.candidates ::
              var o := c.opportunity;
              && b.foldId == f.fold.id && b.opportunityIds == [o.id] && b.odds == o.odds > 1.0
              && b.outcome == c.outcome && b.stake == 1.0 && b.eventStart == Some(o.eventStart)
              && b.profit == (if c.outcome == Win then o.odds - 1.0 else -1.0)
              && (c.outcome == Win || c.outcome == Loss)
              && b.sport == o.selection.market.sport && b.market == o.selection.market.key
              && b.provider == o.providerId && b.probability == o.probability && b.edge == o.edge
              && b.expectedValue == o.expectedValue
              && b.id == x.betId(SingleIdentity(x.strategy.id, f.fold.id, o.id))
  {
    hide RunOf, FoldsOf, Places, DistinctIds, OpportunitiesOf, AllClean, FromSomeFold, CandidateIds, FoldLe, BetLe;
    var f, source := RunBetHasSource(folds, x, b);
    var o := SingleSource(f, source, x, b);
    var c := CandidateFor(f.candidates, o);
    SinglePlacedOnFields(o, Settlements(f.candidates), f.fold, x, b);
  }

  lemma RunBetHasSource(folds: seq<FoldInput>, x: Context, b: Bet) returns (f: FoldInput, source: Source)
    requires x.Valid() && RunOf(folds, x).Ok? && b in RunOf(folds, x).value.bets
    ensures f in folds && Places(f, source, x, b) && DistinctIds(OpportunitiesOf(f.candidates)) && AllClean(f)
  {
    hide RunOf, FoldsOf, Places, DistinctIds, OpportunitiesOf, AllClean, FromSomeFold, CandidateIds, FoldLe, BetLe;
    RunFolds(folds, x);
    var ordered := Ordering.SortBy(folds, FoldLe);
    Ordering.SameElements(Chronological(FoldsOf(ordered, x).value.bets), FoldsOf(ordered, x).value.bets);
    f, source := BetHasSource(ordered, x, b);
    FoldsAreClean(ordered, x);
  }

  lemma SingleSource(f: FoldInput, source: Source, x: Context, b: Bet) returns (o: Opportunity)
    requires x.Valid() && Places(f, source, x, b) && b.kind == Single
    ensures o in OpportunitiesOf(f.candidates) && SingleBet(o, Settlements(f.candidates), f.fold, x) == Ok(b)
  {
    hide Settlements, CombinationSettlement, LegsOf, Built, AcceptedOf;
    o := source.o;
  }

  lemma SinglePlacedOnFields(o: Opportunity, settlements: map<string, Outcome>, f: Fold, x: Context, b: Bet)
    requires SingleBet(o, settlements, f, x) == Ok(b)
    ensures var outcome := Lookup(settlements, o.id);
            && b.foldId == f.id && b.opportunityIds == [o.id] && b.odds == o.odds > 1.0
            && b.outcome == outcome && b.stake == 1.0 && b.eventStart == Some(o.eventStart)
            && b.profit == (if outcome == Win then o.odds - 1.0 else -1.0) && (outcome == Win || outcome == Loss)
            && b.sport == o.selection.market.sport && b.market == o.selection.market.key
            && b.provider == o.providerId && b.probability == o.probability && b.edge == o.edge
            && b.expectedValue == o.expectedValue && b.id == x.betId(SingleIdentity(x.strategy.id, f.id, o.id))
  {
  }

  /**
   * A multiple of a completed run is a combination that its fold built: its legs' identifiers, joint probability and
   * expected value, the earliest start, the mean edge, and the sport, market and provider if all legs share them.
   */
  lemma MultiplesOnFields(folds: seq<FoldInput>, x: Context, b: Bet) returns (f: FoldInput, c: C.Combination)
    requires x.Valid() && RunOf(folds, x).Ok? && b in RunOf(folds, x).value.bets && b.kind == Multiple
    ensures f in folds && x.strategy.combinations && c in Built(AcceptedOf(f, x), x)
    ensures b.foldId == f.fold.id && b.opportunityIds == Ids(c.legs) && b.stake == 1.0
    ensures b.id == x.betId(CombinationIdentity(x.strategy.id, f.fold.id, c.id))
    ensures b.eventStart == Some(c.earliestStart) && b.probability == c.joint && b.expectedValue == c.expectedValue
    ensures c.legs != [] && b.edge * |c.legs| as real == SumBy(c.legs, (l: Opportunity) => l.edge)
    ensures Shared(b.sport, c.legs, (l: Opportunity) => l.selection.market.sport)
    ensures Shared(b.market, c.legs, (l: Opportunity) => l.selection.market.key)
    ensures Shared(b.provider, c.legs, (l: Opportunity) => l.providerId)
    ensures if forall l <- c.legs :: Lookup(Settlements(f.candidates), l.id) == Win
            then b.outcome == Win && b.profit == b.odds - 1.0
            else b.outcome == Loss && b.odds == 0.0 && b.profit == -1.0
  {
    hide RunOf, Places, DistinctIds, OpportunitiesOf, AllClean, Built, AcceptedOf, Settlements, CombinationBet, SumBy;
    var source;
    f, source := RunBetHasSource(folds, x, b);
    c := MultipleSource(f, source, x, b);
    MultiplePlacedOnFields(c, Settlements(f.candidates), f.fold, x, b);
  }

  lemma MultipleSource(f: FoldInput, source: Source, x: Context, b: Bet) returns (c: C.Combination)
    requires x.Valid() && Places(f, source, x, b) && b.kind == Multiple
    ensures x.strategy.combinations && c in Built(AcceptedOf(f, x), x)
    ensures CombinationBet(c, Settlements(f.candidates), f.fold, x) == Ok(b)
  {
    hide Settlements, Built, AcceptedOf, CombinationBet;
    c := source.c;
  }

  /** The text is the value all legs have, or "multiple" when they have different ones. */
  predicate Shared(text: string, legs: seq<Opportunity>, value: Opportunity -> string) {
    if forall l <- legs, r <- legs :: value(l) == value(r) then forall l <- legs :: text == value(l)
    else text == "multiple"
  }

  lemma SharedValue(legs: seq<Opportunity>, value: Opportunity -> string, values: set<string>)
    requires legs != [] && values == set l | l in legs :: value(l)
    ensures Shared(SingleOrMultiple(values), legs, value)
  {
    assert legs[0] in legs && value(legs[0]) in values;
    if |values| == 1 {
      OnlyOne(values);
      forall l <- legs, r <- legs ensures value(l) == value(r) == Only(values) {
        assert value(l) in values && value(r) in values;
      }
    } else {
      C.AtMostOne(values);
    }
  }

  lemma MultiplePlacedOnFields(c: C.Combination, settlements: map<string, Outcome>, f: Fold, x: Context, b: Bet)
    requires CombinationBet(c, settlements, f, x) == Ok(b)
    ensures b.foldId == f.id && b.opportunityIds == Ids(c.legs) && b.stake == 1.0
    ensures b.id == x.betId(CombinationIdentity(x.strategy.id, f.id, c.id))
    ensures b.eventStart == Some(c.earliestStart) && b.probability == c.joint && b.expectedValue == c.expectedValue
    ensures c.legs != [] && b.edge * |c.legs| as real == SumBy(c.legs, (l: Opportunity) => l.edge)
    ensures Shared(b.sport, c.legs, (l: Opportunity) => l.selection.market.sport)
    ensures Shared(b.market, c.legs, (l: Opportunity) => l.selection.market.key)
    ensures Shared(b.provider, c.legs, (l: Opportunity) => l.providerId)
    ensures if forall l <- c.legs :: Lookup(settlements, l.id) == Win then b.outcome == Win && b.profit == b.odds - 1.0
            else b.outcome == Loss && b.odds == 0.0 && b.profit == -1.0
  {
    hide SumBy, ProductBy, Shared, SingleOrMultiple, Lookup, CombinationSettlement;
    var legs := LegsOf(c, settlements);
    MultipleOnFields(legs);
    assert |legs| == |c.legs| > 0;
    LegOutcomes(c, settlements);
    MetricsOnBets.SameSums(c.legs, EdgeOfLeg, (l: Opportunity) => l.edge);
    MetricsOnBets.Quotient(SumBy(c.legs, EdgeOfLeg), |c.legs| as real);
    SharedValue(c.legs, (l: Opportunity) => l.selection.market.sport, set l | l in c.legs :: l.selection.market.sport);
    SharedValue(c.legs, (l: Opportunity) => l.selection.market.key, set l | l in c.legs :: l.selection.market.key);
    SharedValue(c.legs, (l: Opportunity) => l.providerId, set l | l in c.legs :: l.providerId);
  }

  lemma LegOutcomes(c: C.Combination, settlements: map<string, Outcome>)
    ensures (forall leg <- LegsOf(c, settlements) :: leg.outcome == Win) <==>
            forall l <- c.legs :: Lookup(settlements, l.id) == Win
  {
    hide Lookup;
    var legs := LegsOf(c, settlements);
    if forall leg <- legs :: leg.outcome == Win {
      forall l <- c.legs ensures Lookup(settlements, l.id) == Win {
        var i :| 0 <= i < |c.legs| && c.legs[i] == l;
        assert legs[i] in legs;
      }
    }
    if forall l <- c.legs :: Lookup(settlements, l.id) == Win {
      forall leg <- legs ensures leg.outcome == Win {
        var i :| 0 <= i < |legs| && legs[i] == leg;
        assert c.legs[i] in c.legs;
      }
    }
  }

  /* ---------- The candidates of a completed run ---------- */

  /**
   * Every leg of every bet was trained and calibrated on days before its fold's test window, and its event starts on a
   * day within it.
   */
  lemma LeakageOnFields(folds: seq<FoldInput>, x: Context, b: Bet, id: string)
    requires x.Valid() && RunOf(folds, x).Ok? && b in RunOf(folds, x).value.bets && id in b.opportunityIds
    ensures exists f <- folds, c <- f.candidates ::
              && b.foldId == f.fold.id && c.opportunity.id == id
              && f.fold.testStart <= c.opportunity.eventStart / 86_400_000_000 <= f.fold.testEnd
              && c.opportunity.trainedThrough < f.fold.testStart && c.opportunity.calibratedThrough < f.fold.testStart
  {
    hide RunOf, Settles;
    NoLeakage(folds, x, b);
    var f :| f in folds && CleanBet(b, f);
    assert ComesFrom(id, f);
    var c :| c in f.candidates && c.opportunity.id == id && Clean(c.opportunity, f.fold);
  }

  /** The first check a candidate fails, in the order of the checks. */
  lemma CandidateOnFields(c: Candidate, f: Fold, mode: Mode, seen: set<string>)
    ensures CandidateError(c, f, mode, seen) ==
            var o := c.opportunity; var day := o.eventStart / 86_400_000_000;
            if o.id in seen then Some(RepeatedOpportunity)
            else if day < f.testStart || f.testEnd < day then Some(OutsideTestWindow)
            else if f.testStart <= o.trainedThrough then Some(TrainingReachesTest)
            else if f.testStart <= o.calibratedThrough then Some(CalibrationReachesTest)
            else if mode == ClosingLineHistorical && o.evaluationMode != ClosingLineBenchmark then
              Some(WrongEvaluationMode)
            else if mode == TimestampedSynthetic && o.evaluationMode != LiveSafe then Some(WrongEvaluationMode)
            else if mode == TimestampedSynthetic && o.quotedAt.None? then Some(QuoteTimeMissing)
            else None
  {
  }

  /* ---------- Refusals of the whole run ---------- */

  /** Two folds with one identifier, with one test start, or with one event. */
  predicate SameFoldId(folds: seq<FoldInput>) {
    exists i, j :: 0 <= i < j < |folds| && folds[i].fold.id == folds[j].fold.id
  }

  predicate SameTestStart(folds: seq<FoldInput>) {
    exists i, j :: 0 <= i < j < |folds| && folds[i].fold.testStart == folds[j].fold.testStart
  }

  predicate SameEvent(folds: seq<FoldInput>) {
    exists f <- folds, g <- folds, c <- f.candidates, d <- g.candidates ::
      f.fold.id != g.fold.id && c.opportunity.eventId == d.opportunity.eventId
  }

  /** Before any fold is looked into: no folds, a repeated identifier, a repeated test start, a shared event. */
  lemma RefusedOnFields(folds: seq<FoldInput>, x: Context)
    requires x.Valid()
    ensures var r := RunOf(folds, x);
            if folds == [] then r == Err(NoFolds)
            else if SameFoldId(folds) then r == Err(DuplicateFoldIds)
            else if SameTestStart(folds) then r == Err(FoldsNotAdvancing)
            else if SameEvent(folds) then r == Err(OverlappingEvents)
            else r.Ok? <==> FoldsOf(Ordering.SortBy(folds, FoldLe), x).Ok?
  {
    hide FoldsOf, FoldLe, Advancing, Disjoint, SameFoldId, SameTestStart, SameEvent, Chronological,
         Ordering.NoDuplicates;
    if folds != [] {
      SameIdsMeaning(folds);
      if !SameFoldId(folds) {
        StartsMeaning(folds);
        EventsMeaning(folds);
      }
    }
  }

  lemma SameIdsMeaning(folds: seq<FoldInput>)
    ensures SameFoldId(folds) <==> !Ordering.NoDuplicates(FoldIds(Ordering.SortBy(folds, FoldLe)))
  {
    hide FoldLe;
    var ordered := Ordering.SortBy(folds, FoldLe);
    SameFoldIds(folds, ordered);
    if SameFoldId(folds) {
      var i, j :| 0 <= i < j < |folds| && folds[i].fold.id == folds[j].fold.id;
      assert FoldIds(folds)[i] == FoldIds(folds)[j];
    }
    if !Ordering.NoDuplicates(FoldIds(folds)) {
      var i, j :| 0 <= i < j < |folds| && FoldIds(folds)[i] == FoldIds(folds)[j];
      assert folds[i].fold.id == folds[j].fold.id;
    }
  }

  lemma StartsMeaning(folds: seq<FoldInput>)
    ensures SameTestStart(folds) <==> !Advancing(Ordering.SortBy(folds, FoldLe))
  {
    hide FoldLe;
    var ordered := Ordering.SortBy(folds, FoldLe);
    if Advancing(ordered) {
      StartsDistinct(ordered);
      StartsPermutation(ordered, folds);
    } else {
      var i :| 0 < i < |ordered| && ordered[i - 1].fold.testStart >= ordered[i].fold.testStart;
      TestStartsAscend(folds, i - 1, i);
      assert SameTestStart(ordered);
      StartsPermutation(ordered, folds);
    }
  }

  lemma TestStartsAscend(folds: seq<FoldInput>, i: nat, j: nat)
    requires i < j < |Ordering.SortBy(folds, FoldLe)|
    ensures Ordering.SortBy(folds, FoldLe)[i].fold.testStart <= Ordering.SortBy(folds, FoldLe)[j].fold.testStart
  {
    FoldLeIsTotalPreorder();
    Ordering.SortBySorted(folds, FoldLe);
    assert FoldLe(Ordering.SortBy(folds, FoldLe)[i], Ordering.SortBy(folds, FoldLe)[j]);
  }

  lemma {:induction false} StartsDistinct(ordered: seq<FoldInput>)
    requires Advancing(ordered)
    ensures forall i, j :: 0 <= i < j < |ordered| ==> ordered[i].fold.testStart < ordered[j].fold.testStart
  {
    if ordered != [] {
      var front := ordered[..|ordered| - 1];
      forall i | 0 < i < |front| ensures front[i - 1].fold.testStart < front[i].fold.testStart {
        assert ordered[i - 1].fold.testStart < ordered[i].fold.testStart;
      }
      StartsDistinct(front);
      forall i, j | 0 <= i < j < |ordered| ensures ordered[i].fold.testStart < ordered[j].fold.testStart {
        if j < |front| {
          assert front[i].fold.testStart < front[j].fold.testStart;
        } else if i < j - 1 {
          assert front[i].fold.testStart < front[j - 1].fold.testStart;
        }
      }
    }
  }

  function Starts(folds: seq<FoldInput>): (r: seq<int>)
    ensures |r| == |folds| && forall i :: 0 <= i < |folds| ==> r[i] == folds[i].fold.testStart
  {
    seq(|folds|, i requires 0 <= i < |folds| => folds[i].fold.testStart)
  }

  lemma StartsPermutation(a: seq<FoldInput>, b: seq<FoldInput>)
    requires multiset(a) == multiset(b)
    ensures SameTestStart(a) <==> SameTestStart(b)
  {
    Ordering.SameElements(a, b);
    Ordering.SetSize(Starts(a));
    Ordering.SetSize(Starts(b));
    StartsAsSet(a);
    StartsAsSet(b);
    assert (set f | f in a :: f.fold.testStart) == (set f | f in b :: f.fold.testStart);
    RepeatedStart(a);
    RepeatedStart(b);
  }

  lemma StartsAsSet(folds: seq<FoldInput>)
    ensures (set t | t in Starts(folds)) == (set f | f in folds :: f.fold.testStart)
  {
    forall t | t in Starts(folds) ensures t in (set f | f in folds :: f.fold.testStart) {
      var k :| 0 <= k < |folds| && Starts(folds)[k] == t;
      assert folds[k] in folds;
    }
    forall f <- folds ensures f.fold.testStart in Starts(folds) {
      var k :| 0 <= k < |folds| && folds[k] == f;
      assert Starts(folds)[k] == f.fold.testStart;
    }
  }

  lemma RepeatedStart(folds: seq<FoldInput>)
    ensures SameTestStart(folds) <==> !Ordering.NoDuplicates(Starts(folds))
  {
    if SameTestStart(folds) {
      var i, j :| 0 <= i < j < |folds| && folds[i].fold.testStart == folds[j].fold.testStart;
      assert Starts(folds)[i] == Starts(folds)[j];
    }
    if !Ordering.NoDuplicates(Starts(folds)) {
      var i, j :| 0 <= i < j < |folds| && Starts(folds)[i] == Starts(folds)[j];
      assert folds[i].fold.testStart == folds[j].fold.testStart;
    }
  }

  lemma OverlapMeaning(f: FoldInput, g: FoldInput)
    ensures Overlap(f, g) <==>
            exists c <- f.candidates, d <- g.candidates :: c.opportunity.eventId == d.opportunity.eventId
  {
    if Overlap(f, g) {
      var e :| e in EventsOf(f) * EventsOf(g);
    }
    if c, d :| c in f.candidates && d in g.candidates && c.opportunity.eventId == d.opportunity.eventId {
      assert c.opportunity.eventId in EventsOf(f) * EventsOf(g);
    }
  }

  lemma EventsMeaning(folds: seq<FoldInput>)
    requires !SameFoldId(folds)
    ensures SameEvent(folds) <==> !Disjoint(Ordering.SortBy(folds, FoldLe))
  {
    hide FoldLe, Overlap, SameFoldId, SameEvent;
    var ordered := Ordering.SortBy(folds, FoldLe);
    Ordering.SameElements(ordered, folds);
    if SameEvent(folds) {
      var f, g := SharedEvent(folds);
      var i :| 0 <= i < |ordered| && ordered[i] == f;
      var j :| 0 <= j < |ordered| && ordered[j] == g;
      assert Overlap(ordered[if i < j then i else j], ordered[if i < j then j else i]);
    }
    if !Disjoint(ordered) {
      var i, j :| 0 <= i < j < |ordered| && Overlap(ordered[i], ordered[j]);
      SameIdsMeaning(folds);
      assert FoldIds(ordered)[i] != FoldIds(ordered)[j];
      EventShared(folds, ordered[i], ordered[j]);
    }
  }

  lemma SharedEvent(folds: seq<FoldInput>) returns (f: FoldInput, g: FoldInput)
    requires SameEvent(folds)
    ensures f in folds && g in folds && f != g && Overlap(f, g) && Overlap(g, f)
  {
    hide Overlap;
    var c, d;
    f, g, c, d :| f in folds && g in folds && c in f.candidates && d in g.candidates &&
                  f.fold.id != g.fold.id && c.opportunity.eventId == d.opportunity.eventId;
    OverlapMeaning(f, g);
    OverlapMeaning(g, f);
  }

  lemma EventShared(folds: seq<FoldInput>, f: FoldInput, g: FoldInput)
    requires f in folds && g in folds && f.fold.id != g.fold.id && Overlap(f, g)
    ensures SameEvent(folds)
  {
    OverlapMeaning(f, g);
  }
}
