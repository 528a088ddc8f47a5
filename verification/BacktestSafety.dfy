/** What every backtest run guarantees: no leakage, no sharing between folds, unit bets, and order independence. */
module BacktestSafety {
  import opened Wrappers
  import Ordering
  import opened Opportunities
  import S = OpportunitySearch
  import C = CombinationContracts
  import B = CombinationBuilder
  import CombinationSearch
  import opened Settlement
  import opened BacktestMetrics
  import opened Backtest

  /* ---------- Where the legs of a bet come from ---------- */

  predicate ComesFrom(id: string, f: FoldInput) {
    exists c <- f.candidates :: c.opportunity.id == id && Clean(c.opportunity, f.fold)
  }

  function LegsFrom(candidates: seq<Candidate>): seq<Leg> {
    seq(|candidates|, i requires 0 <= i < |candidates| => Leg(candidates[i].opportunity.odds, candidates[i].outcome))
  }

  /** The bet is the settlement of these candidates, by their own odds and outcomes. */
  predicate Settles(b: Bet, legs: seq<Candidate>) {
    && b.opportunityIds == Ids(OpportunitiesOf(legs))
    && if b.kind.Single? then
         |legs| == 1 && b.odds == legs[0].opportunity.odds && b.outcome == legs[0].outcome
         && SettleSingle(b.odds, b.outcome) == Ok((b.profit + 1.0, b.profit))
       else CombinationSettlement(LegsFrom(legs)) == Ok(SettledCombination(b.outcome, b.odds, b.profit + 1.0, b.profit))
  }

  /**
   * A unit bet of the fold that settles some of its candidates, every leg of it trained and calibrated before the
   * fold's test window.
   */
  ghost predicate CleanBet(b: Bet, f: FoldInput) {
    && b.foldId == f.fold.id && UnitBet(b)
    && b.opportunityIds != [] && (forall id <- b.opportunityIds :: ComesFrom(id, f))
    && exists legs: seq<Candidate> :: (forall c <- legs :: c in f.candidates) && Settles(b, legs)
  }

  /** A settlement looked up for a candidate is the candidate's own. */
  lemma {:induction false} LookupFinds(candidates: seq<Candidate>, c: Candidate)
    requires DistinctIds(OpportunitiesOf(candidates)) && c in candidates
    ensures Lookup(Settlements(candidates), c.opportunity.id) == c.outcome
  {
    var front, last := candidates[..|candidates| - 1], candidates[|candidates| - 1];
    var i :| 0 <= i < |candidates| && candidates[i] == c;
    if i < |front| {
      assert OpportunitiesOf(front) == OpportunitiesOf(candidates)[..|front|];
      PrefixIdsDistinct(OpportunitiesOf(candidates), |front|);
      assert front[i] == c;
      LookupFinds(front, c);
      DistinctIdsSeparate(OpportunitiesOf(candidates), i, |front|);
    }
  }

  lemma CandidateFor(candidates: seq<Candidate>, o: Opportunity) returns (c: Candidate)
    requires DistinctIds(OpportunitiesOf(candidates)) && o in OpportunitiesOf(candidates)
    ensures c in candidates && c.opportunity == o && Lookup(Settlements(candidates), o.id) == c.outcome
  {
    var i :| 0 <= i < |candidates| && OpportunitiesOf(candidates)[i] == o;
    c := candidates[i];
    LookupFinds(candidates, c);
  }

  lemma {:induction false} CandidatesFor(candidates: seq<Candidate>, opportunities: seq<Opportunity>)
    returns (legs: seq<Candidate>)
    requires DistinctIds(OpportunitiesOf(candidates)) && forall o <- opportunities :: o in OpportunitiesOf(candidates)
    ensures |legs| == |opportunities| && forall c <- legs :: c in candidates
    ensures forall i :: 0 <= i < |legs| ==> legs[i].opportunity == opportunities[i]
    ensures forall i :: 0 <= i < |legs| ==> legs[i].outcome == Lookup(Settlements(candidates), opportunities[i].id)
  {
    hide DistinctIds, OpportunitiesOf, Settlements, Lookup;
    if opportunities == [] {
      legs := [];
    } else {
      var front, last := opportunities[..|opportunities| - 1], opportunities[|opportunities| - 1];
      assert last in opportunities && forall o <- front :: o in opportunities;
      var before := CandidatesFor(candidates, front);
      var c := CandidateFor(candidates, last);
      legs := before + [c];
    }
  }

  predicate AllClean(f: FoldInput) {
    forall c <- f.candidates :: Clean(c.opportunity, f.fold)
  }

  lemma CandidateComes(f: FoldInput, o: Opportunity)
    requires AllClean(f) && o in OpportunitiesOf(f.candidates)
    ensures ComesFrom(o.id, f)
  {
    var i :| 0 <= i < |f.candidates| && OpportunitiesOf(f.candidates)[i] == o;
    assert f.candidates[i] in f.candidates;
  }

  lemma SingleIsClean(o: Opportunity, f: FoldInput, x: Context)
    requires AllClean(f) && DistinctIds(OpportunitiesOf(f.candidates)) && o in OpportunitiesOf(f.candidates)
    requires SingleBet(o, Settlements(f.candidates), f.fold, x).Ok?
    ensures CleanBet(SingleBet(o, Settlements(f.candidates), f.fold, x).value, f)
  {
    hide AllClean, DistinctIds, Settlements, ComesFrom;
    var c := CandidateFor(f.candidates, o);
    CandidateComes(f, o);
    var b := SingleBet(o, Settlements(f.candidates), f.fold, x).value;
    assert Ids(OpportunitiesOf([c])) == [o.id];
    assert Settles(b, [c]);
  }

  lemma {:induction false} SinglesAreClean(accepted: seq<Opportunity>, f: FoldInput, x: Context)
    requires AllClean(f) && DistinctIds(OpportunitiesOf(f.candidates)) &&
             forall o <- accepted :: o in OpportunitiesOf(f.candidates)
    requires SingleBets(accepted, Settlements(f.candidates), f.fold, x).Ok?
    ensures forall b <- SingleBets(accepted, Settlements(f.candidates), f.fold, x).value :: CleanBet(b, f)
  {
    hide SingleBet, AllClean, CleanBet, DistinctIds, Settlements;
    if accepted != [] {
      var front, last := accepted[..|accepted| - 1], accepted[|accepted| - 1];
      assert last in accepted && forall o <- front :: o in accepted;
      SinglesAreClean(front, f, x);
      SingleIsClean(last, f, x);
    }
  }

  lemma CombinationIsClean(c: C.Combination, f: FoldInput, x: Context)
    requires AllClean(f) && DistinctIds(OpportunitiesOf(f.candidates)) &&
             forall leg <- c.legs :: leg in OpportunitiesOf(f.candidates)
    requires CombinationBet(c, Settlements(f.candidates), f.fold, x).Ok?
    ensures CleanBet(CombinationBet(c, Settlements(f.candidates), f.fold, x).value, f)
  {
    hide AllClean, DistinctIds, Settlements, ComesFrom, CombinationSettlement, AllWon, Lookup, OpportunitiesOf;
    var b := CombinationBet(c, Settlements(f.candidates), f.fold, x).value;
    var legs := CandidatesFor(f.candidates, c.legs);
    assert LegsFrom(legs) == LegsOf(c, Settlements(f.candidates));
    SettledUnit(LegsFrom(legs));
    SameIds(legs, c.legs);
    assert Settles(b, legs);
    SomeLeg(LegsFrom(legs));
    forall id <- b.opportunityIds ensures ComesFrom(id, f) {
      var i :| 0 <= i < |c.legs| && Ids(c.legs)[i] == id;
      assert c.legs[i] in c.legs;
      CandidateComes(f, c.legs[i]);
    }
  }

  lemma SameIds(legs: seq<Candidate>, opportunities: seq<Opportunity>)
    requires |legs| == |opportunities| && forall i :: 0 <= i < |legs| ==> legs[i].opportunity == opportunities[i]
    ensures Ids(OpportunitiesOf(legs)) == Ids(opportunities)
  {
  }

  lemma SomeLeg(legs: seq<Leg>)
    requires CombinationSettlement(legs).Ok?
    ensures legs != []
  {
  }

  lemma {:induction false} CombinationsAreClean(combinations: seq<C.Combination>, f: FoldInput, x: Context)
    requires AllClean(f) && DistinctIds(OpportunitiesOf(f.candidates))
    requires forall c <- combinations :: forall leg <- c.legs :: leg in OpportunitiesOf(f.candidates)
    requires CombinationBets(combinations, Settlements(f.candidates), f.fold, x).Ok?
    ensures forall b <- CombinationBets(combinations, Settlements(f.candidates), f.fold, x).value :: CleanBet(b, f)
  {
    hide CombinationBet, AllClean, CleanBet, DistinctIds, Settlements;
    if combinations != [] {
      var front, last := combinations[..|combinations| - 1], combinations[|combinations| - 1];
      assert last in combinations && forall c <- front :: c in combinations;
      CombinationsAreClean(front, f, x);
      CombinationIsClean(last, f, x);
    }
  }

  lemma BuiltFromAccepted(accepted: seq<Opportunity>, x: Context)
    requires x.Valid() && x.strategy.combinations
    ensures forall c <- Built(accepted, x) :: forall leg <- c.legs :: leg in accepted
  {
    hide B.BuildOf, C.Validated;
    forall c <- Built(accepted, x) ensures forall leg <- c.legs :: leg in accepted {
      CombinationSearch.ReturnedAreValid(accepted, x.strategy.rules.value, x.bounds, B.SyntheticContract,
                                         x.combinationId, c);
    }
  }

  lemma FoldBetsAreClean(f: FoldInput, x: Context)
    requires x.Valid() && AllClean(f) && DistinctIds(OpportunitiesOf(f.candidates)) && BetsOf(f, x).Ok?
    ensures forall b <- BetsOf(f, x).value :: CleanBet(b, f)
  {
    hide SingleBets, CombinationBets, Settlements, S.SearchOf, AllClean, CleanBet, Built, DistinctIds;
    var opportunities := OpportunitiesOf(f.candidates);
    var accepted := S.SearchOf(opportunities, x.strategy.filter).accepted;
    S.SearchPartitions(opportunities, x.strategy.filter);
    if x.strategy.singles {
      SinglesAreClean(accepted, f, x);
    }
    if x.strategy.combinations {
      BuiltFromAccepted(accepted, x);
      CombinationsAreClean(Built(accepted, x), f, x);
    }
  }

  /* ---------- Whole runs ---------- */

  ghost predicate FromSomeFold(b: Bet, folds: seq<FoldInput>) {
    exists f <- folds :: CleanBet(b, f)
  }

  predicate IdsDisjoint(folds: seq<FoldInput>) {
    forall i, j :: 0 <= i < j < |folds| ==> CandidateIds(folds[i].candidates) !! CandidateIds(folds[j].candidates)
  }

  /** What the last fold of a run without error did. */
  lemma LastFold(folds: seq<FoldInput>, x: Context)
    requires x.Valid() && folds != [] && FoldsOf(folds, x).Ok?
    ensures var front, last := folds[..|folds| - 1], folds[|folds| - 1];
            && FoldsOf(front, x).Ok? && BetsOf(last, x).Ok?
            && ScanError(last.candidates, last.fold, x.strategy.mode, FoldsOf(front, x).value.seen).None?
            && FoldsOf(folds, x).value.bets == FoldsOf(front, x).value.bets + BetsOf(last, x).value
            && FoldsOf(folds, x).value.seen == FoldsOf(front, x).value.seen + CandidateIds(last.candidates)
            && FoldsOf(folds, x).value.trail == FoldsOf(front, x).value.trail.Then(TrailOf(last, x))
  {
    hide BetsOf, ScanError, CandidateIds, TrailOf;
  }

  lemma NewFoldDisjoint(folds: seq<FoldInput>, seen: set<string>)
    requires folds != [] && IdsDisjoint(folds[..|folds| - 1])
    requires forall f <- folds[..|folds| - 1] :: CandidateIds(f.candidates) <= seen
    requires CandidateIds(folds[|folds| - 1].candidates) !! seen
    ensures IdsDisjoint(folds)
  {
    hide CandidateIds;
    var front := folds[..|folds| - 1];
    forall i, j | 0 <= i < j < |folds| ensures CandidateIds(folds[i].candidates) !! CandidateIds(folds[j].candidates) {
      assert j < |front| ==> CandidateIds(front[i].candidates) !! CandidateIds(front[j].candidates);
      assert front[i] in front;
    }
  }

  lemma MoreBets(bets: seq<Bet>, more: seq<Bet>, front: seq<FoldInput>, last: FoldInput)
    requires (forall b <- bets :: FromSomeFold(b, front)) && forall b <- more :: CleanBet(b, last)
    ensures forall b <- bets + more :: FromSomeFold(b, front + [last])
  {
    hide CleanBet;
    forall b <- bets + more ensures FromSomeFold(b, front + [last]) {
      if b in bets {
        var f :| f in front && CleanBet(b, f);
        assert f in front + [last];
      } else {
        assert last in front + [last];
      }
    }
  }

  lemma NoFoldsClean(x: Context)
    requires x.Valid()
    ensures FoldsOf([], x) == Ok(FoldRun({}, [], NO_TRAIL)) && IdsDisjoint([])
  {
  }

  /** The invariant of the fold loop. */
  lemma {:induction false} FoldsAreClean(folds: seq<FoldInput>, x: Context)
    requires x.Valid() && FoldsOf(folds, x).Ok?
    ensures forall b <- FoldsOf(folds, x).value.bets :: FromSomeFold(b, folds)
    ensures forall f <- folds :: AllClean(f) && DistinctIds(OpportunitiesOf(f.candidates))
    ensures forall f <- folds :: CandidateIds(f.candidates) <= FoldsOf(folds, x).value.seen
    ensures IdsDisjoint(folds)
  {
    hide FoldsOf, BetsOf, ScanError, CleanBet, CandidateIds, AllClean, DistinctIds, OpportunitiesOf, TrailOf,
         IdsDisjoint,
         FromSomeFold, Clean;
    if folds == [] {
      NoFoldsClean(x);
    } else {
      var front, last := folds[..|folds| - 1], folds[|folds| - 1];
      LastFold(folds, x);
      FoldsAreClean(front, x);
      var before := FoldsOf(front, x).value;
      ScannedAreClean(last.candidates, last.fold, x.strategy.mode, before.seen);
      assert AllClean(last) by { WholeFoldClean(last); }
      FoldBetsAreClean(last, x);
      assert folds == front + [last];
      MoreBets(before.bets, BetsOf(last, x).value, front, last);
      NewFoldDisjoint(folds, before.seen);
    }
  }

  lemma WholeFoldClean(f: FoldInput)
    requires forall c <- f.candidates :: Clean(c.opportunity, f.fold)
    ensures AllClean(f)
  {
  }

  /**
   * No leakage: every leg of every bet of a completed run was a candidate of the bet's own fold, trained and calibrated
   * strictly before that fold's test window, with its event inside the window. Every bet is a settled unit bet.
   */
  lemma NoLeakage(folds: seq<FoldInput>, x: Context, b: Bet)
    requires x.Valid() && RunOf(folds, x).Ok? && b in RunOf(folds, x).value.bets
    ensures exists f <- folds :: CleanBet(b, f)
  {
    hide FoldsOf, FoldLe, CleanBet, BetLe, Advancing, Disjoint;
    var ordered := Ordering.SortBy(folds, FoldLe);
    var run := FoldsOf(ordered, x).value;
    FoldsAreClean(ordered, x);
    Ordering.SameElements(Chronological(run.bets), run.bets);
    Ordering.SameElements(ordered, folds);
    assert FromSomeFold(b, ordered);
  }

  /** A candidate of the fold with this identifier starts after everything the fold may train or calibrate on. */
  predicate StartsAfterFitting(id: string, f: FoldInput) {
    exists c <- f.candidates ::
      c.opportunity.id == id && f.fold.trainEnd < f.fold.calibrationStart &&
      f.fold.calibrationEnd < DateOf(c.opportunity.eventStart)
  }

  /**
   * So with valid fold windows every event bet on starts after the training and calibration windows of its own fold.
   */
  lemma EventsFollowFitting(folds: seq<FoldInput>, x: Context, b: Bet)
    requires x.Valid() && RunOf(folds, x).Ok? && b in RunOf(folds, x).value.bets
    requires forall f <- folds :: f.fold.Valid()
    ensures exists f <- folds :: b.foldId == f.fold.id && forall id <- b.opportunityIds :: StartsAfterFitting(id, f)
  {
    hide RunOf;
    NoLeakage(folds, x, b);
    var f :| f in folds && CleanBet(b, f);
    forall id <- b.opportunityIds ensures StartsAfterFitting(id, f) {
      assert ComesFrom(id, f);
    }
  }

  /** No opportunity and no event of a completed run belongs to two of its folds. */
  lemma FoldsShareNothing(folds: seq<FoldInput>, x: Context, f: FoldInput, g: FoldInput)
    requires x.Valid() && RunOf(folds, x).Ok? && f in folds && g in folds && f != g
    ensures f.fold.id != g.fold.id
    ensures CandidateIds(f.candidates) !! CandidateIds(g.candidates) && EventsOf(f) !! EventsOf(g)
  {
    hide FoldsOf, FoldLe, CandidateIds, EventsOf, Advancing;
    var ordered := Ordering.SortBy(folds, FoldLe);
    FoldsAreClean(ordered, x);
    Ordering.SameElements(ordered, folds);
    var i :| 0 <= i < |ordered| && ordered[i] == f;
    var j :| 0 <= j < |ordered| && ordered[j] == g;
    Apart(ordered, if i < j then i else j, if i < j then j else i);
  }

  lemma Apart(ordered: seq<FoldInput>, i: nat, j: nat)
    requires i < j < |ordered| && Disjoint(ordered) && IdsDisjoint(ordered) && Ordering.NoDuplicates(FoldIds(ordered))
    ensures ordered[i].fold.id != ordered[j].fold.id
    ensures CandidateIds(ordered[i].candidates) !! CandidateIds(ordered[j].candidates)
    ensures EventsOf(ordered[i]) !! EventsOf(ordered[j])
  {
    assert FoldIds(ordered)[i] != FoldIds(ordered)[j];
    var events, others := EventsOf(ordered[i]), EventsOf(ordered[j]);
    assert !Overlap(ordered[i], ordered[j]);
    forall e | e in events ensures e !in others {
      assert e !in events * others;
    }
  }

  /**
   * Every bet is a settled unit bet, so the drawdown of a run never exceeds its lost bets and it stakes one unit a bet.
   */
  lemma RunDrawdown(folds: seq<FoldInput>, x: Context, m: Metrics)
    requires x.Valid() && RunOf(folds, x).Ok? && MetricsOf(RunOf(folds, x).value.bets, m)
    ensures 0.0 <= m.maximumDrawdown <= m.losses as real && m.staked == m.betCount as real
  {
    hide RunOf, MetricsOf, CleanBet;
    var bets := RunOf(folds, x).value.bets;
    forall b <- bets ensures UnitBet(b) {
      NoLeakage(folds, x, b);
      var f :| f in folds && CleanBet(b, f);
      CleanIsUnit(b, f);
    }
    DrawdownWithinLostBets(bets, m);
    SameCount(bets, m);
  }

  lemma CleanIsUnit(b: Bet, f: FoldInput)
    requires CleanBet(b, f)
    ensures UnitBet(b)
  {
  }

  lemma SameCount(bets: seq<Bet>, m: Metrics)
    requires MetricsOf(bets, m)
    ensures m.betCount == |bets|
  {
  }

  /** The order in which the folds are supplied does not matter, not even for the error. */
  lemma RunIgnoresFoldOrder(a: seq<FoldInput>, b: seq<FoldInput>, x: Context)
    requires x.Valid() && multiset(a) == multiset(b)
    ensures RunOf(a, x) == RunOf(b, x)
  {
    hide FoldsOf, FoldLe, Advancing, Disjoint, Chronological;
    var first, second := Ordering.SortBy(a, FoldLe), Ordering.SortBy(b, FoldLe);
    assert |multiset(a)| == |multiset(b)|;
    SameFoldIds(first, second);
    if Ordering.NoDuplicates(FoldIds(first)) {
      FoldLeIsTotalPreorder();
      NoFoldTies(first);
      Ordering.SortBySorted(a, FoldLe);
      Ordering.SortBySorted(b, FoldLe);
      Ordering.SortedUnique(first, second, FoldLe);
    }
  }

  lemma SameFoldIds(a: seq<FoldInput>, b: seq<FoldInput>)
    requires multiset(a) == multiset(b)
    ensures Ordering.NoDuplicates(FoldIds(a)) <==> Ordering.NoDuplicates(FoldIds(b))
  {
    Ordering.SameElements(a, b);
    Ordering.SetSize(FoldIds(a));
    Ordering.SetSize(FoldIds(b));
    IdsAsSet(a);
    IdsAsSet(b);
    assert (set f | f in a :: f.fold.id) == (set f | f in b :: f.fold.id);
    assert |multiset(a)| == |a| && |multiset(b)| == |b|;
  }

  lemma IdsAsSet(folds: seq<FoldInput>)
    ensures (set i | i in FoldIds(folds)) == (set f | f in folds :: f.fold.id)
  {
    forall i | i in FoldIds(folds) ensures i in (set f | f in folds :: f.fold.id) {
      var k :| 0 <= k < |folds| && FoldIds(folds)[k] == i;
      assert folds[k] in folds;
    }
    forall f | f in folds ensures f.fold.id in FoldIds(folds) {
      var k :| 0 <= k < |folds| && folds[k] == f;
      assert FoldIds(folds)[k] == f.fold.id;
    }
  }

  lemma NoFoldTies(folds: seq<FoldInput>)
    requires Ordering.NoDuplicates(FoldIds(folds))
    ensures Ordering.NoTies(folds, FoldLe)
  {
    forall i, j | 0 <= i < |folds| && 0 <= j < |folds| && FoldLe(folds[i], folds[j]) && FoldLe(folds[j], folds[i])
      ensures folds[i] == folds[j]
    {
      if folds[i].fold.testStart == folds[j].fold.testStart {
        Ordering.StrLeAntisymmetric(folds[i].fold.id, folds[j].fold.id);
      }
      assert FoldIds(folds)[i] == FoldIds(folds)[j];
    }
  }
}
