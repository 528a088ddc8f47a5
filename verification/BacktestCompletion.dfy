/** Exactly when a backtest run completes (backtesting/engine.py). */
module BacktestCompletion {
  import opened Wrappers
  import Ordering
  import opened Opportunities
  import S = OpportunitySearch
  import C = CombinationContracts
  import opened Settlement
  import opened BacktestMetrics
  import opened Backtest
  import opened BacktestSafety
  import opened BacktestTrail
  import opened BacktestOnFields

  /* ---------- The candidates of one fold ---------- */

  /** Every candidate passes the checks that look at nothing but itself and the fold. */
  predicate CandidatesPass(f: FoldInput, mode: Mode) {
    forall c <- f.candidates :: CandidateError(c, f.fold, mode, {}).None?
  }

  lemma SeenOnly(c: Candidate, f: Fold, mode: Mode, seen: set<string>)
    ensures CandidateError(c, f, mode, seen).None? <==>
            c.opportunity.id !in seen && CandidateError(c, f, mode, {}).None?
  {
  }

  lemma {:induction false} ScanExactly(candidates: seq<Candidate>, f: Fold, mode: Mode, seen: set<string>)
    ensures ScanError(candidates, f, mode, seen).None? <==>
            && CandidatesPass(FoldInput(f, candidates), mode)
            && DistinctIds(OpportunitiesOf(candidates)) && CandidateIds(candidates) !! seen
  {
    hide CandidateError, DistinctIds, OpportunitiesOf;
    if candidates == [] {
      NothingRepeated();
    } else {
      var first, rest := candidates[0], candidates[1..];
      assert candidates == [first] + rest;
      assert CandidateIds(candidates) == {first.opportunity.id} + CandidateIds(rest);
      SeenOnly(first, f, mode, seen);
      ScanExactly(rest, f, mode, seen + {first.opportunity.id});
      FirstDistinct(candidates);
    }
  }

  lemma FirstDistinct(candidates: seq<Candidate>)
    requires candidates != []
    ensures DistinctIds(OpportunitiesOf(candidates)) <==>
            && DistinctIds(OpportunitiesOf(candidates[1..]))
            && candidates[0].opportunity.id !in CandidateIds(candidates[1..])
  {
    hide DistinctIds, OpportunitiesOf;
    var rest := candidates[1..];
    if DistinctIds(OpportunitiesOf(candidates)) {
      RestDistinct(candidates);
    }
    if DistinctIds(OpportunitiesOf(rest)) && candidates[0].opportunity.id !in CandidateIds(rest) {
      FirstIsNew(candidates);
    }
  }

  lemma RestDistinct(candidates: seq<Candidate>)
    requires candidates != [] && DistinctIds(OpportunitiesOf(candidates))
    ensures DistinctIds(OpportunitiesOf(candidates[1..]))
    ensures candidates[0].opportunity.id !in CandidateIds(candidates[1..])
  {
    var all, rest := OpportunitiesOf(candidates), OpportunitiesOf(candidates[1..]);
    forall i, j | 0 <= i < j < |rest| ensures Ids(rest)[i] != Ids(rest)[j] {
      DistinctIdsSeparate(all, i + 1, j + 1);
    }
    forall c <- candidates[1..] ensures c.opportunity.id != candidates[0].opportunity.id {
      var k :| 0 <= k < |candidates[1..]| && candidates[1..][k] == c;
      DistinctIdsSeparate(all, 0, k + 1);
    }
  }

  /* ---------- The settlements of one fold ---------- */

  /** The odds exceed one and the outcome is a win or a loss. */
  predicate Settleable(o: Opportunity, settlements: map<string, Outcome>) {
    o.odds > 1.0 && (Lookup(settlements, o.id) == Win || Lookup(settlements, o.id) == Loss)
  }

  lemma {:induction false} SinglesSettle(accepted: seq<Opportunity>, settlements: map<string, Outcome>, f: Fold,
                                         x: Context)
    ensures SingleBets(accepted, settlements, f, x).Ok? <==> forall o <- accepted :: Settleable(o, settlements)
  {
    hide SingleBet, Settleable;
    if accepted != [] {
      var front, last := accepted[..|accepted| - 1], accepted[|accepted| - 1];
      assert accepted == front + [last];
      SinglesSettle(front, settlements, f, x);
      SingleSettles(last, settlements, f, x);
    }
  }

  lemma SingleSettles(o: Opportunity, settlements: map<string, Outcome>, f: Fold, x: Context)
    ensures SingleBet(o, settlements, f, x).Ok? <==> Settleable(o, settlements)
  {
    hide Lookup;
  }

  lemma {:induction false} MultiplesSettle(combinations: seq<C.Combination>, settlements: map<string, Outcome>, f: Fold,
                                           x: Context)
    ensures CombinationBets(combinations, settlements, f, x).Ok? <==>
            forall c <- combinations :: c.legs != [] && forall o <- c.legs :: Settleable(o, settlements)
  {
    hide CombinationBet, Settleable;
    if combinations != [] {
      var front, last := combinations[..|combinations| - 1], combinations[|combinations| - 1];
      assert combinations == front + [last];
      MultiplesSettle(front, settlements, f, x);
      MultipleSettles(last, settlements, f, x);
    }
  }

  lemma MultipleSettles(c: C.Combination, settlements: map<string, Outcome>, f: Fold, x: Context)
    ensures CombinationBet(c, settlements, f, x).Ok? <==>
            c.legs != [] && forall o <- c.legs :: Settleable(o, settlements)
  {
    hide CombinationSettlement, Lookup, BetFrom;
    var legs := LegsOf(c, settlements);
    MultipleOnFields(legs);
    forall i | 0 <= i < |legs| ensures legs[i] == Leg(c.legs[i].odds, Lookup(settlements, c.legs[i].id)) {
    }
    if forall o <- c.legs :: Settleable(o, settlements) {
      forall leg <- legs ensures leg.odds > 1.0 && (leg.outcome == Win || leg.outcome == Loss) {
        var i :| 0 <= i < |legs| && legs[i] == leg;
        assert Settleable(c.legs[i], settlements) by { assert c.legs[i] in c.legs; }
      }
    }
    if forall leg <- legs :: leg.odds > 1.0 && (leg.outcome == Win || leg.outcome == Loss) {
      forall o <- c.legs ensures Settleable(o, settlements) {
        var i :| 0 <= i < |c.legs| && c.legs[i] == o;
        assert legs[i] in legs;
      }
    }
  }

  /** What the strategy bets on can be settled: the accepted opportunities, and the legs of what is built of them. */
  ghost predicate BetsSettle(f: FoldInput, x: Context)
    requires x.Valid()
  {
    var settlements := Settlements(f.candidates);
    && (x.strategy.singles ==> forall o <- AcceptedOf(f, x) :: Settleable(o, settlements))
    && (x.strategy.combinations ==>
          forall c <- Built(AcceptedOf(f, x), x) :: c.legs != [] && forall o <- c.legs :: Settleable(o, settlements))
  }

  lemma BetsSettleExactly(f: FoldInput, x: Context)
    requires x.Valid()
    ensures BetsOf(f, x).Ok? <==> BetsSettle(f, x)
  {
    hide SingleBets, CombinationBets, Settlements, Settleable, S.SearchOf, Built, OpportunitiesOf;
    SinglesSettle(AcceptedOf(f, x), Settlements(f.candidates), f.fold, x);
    if x.strategy.combinations {
      MultiplesSettle(Built(AcceptedOf(f, x), x), Settlements(f.candidates), f.fold, x);
    }
  }

  /* ---------- The whole run ---------- */

  /** The fold raises nothing by itself. */
  ghost predicate FoldPasses(f: FoldInput, x: Context)
    requires x.Valid()
  {
    CandidatesPass(f, x.strategy.mode) && DistinctIds(OpportunitiesOf(f.candidates)) && BetsSettle(f, x)
  }

  lemma {:induction false} FoldsComplete(folds: seq<FoldInput>, x: Context)
    requires x.Valid()
    ensures FoldsOf(folds, x).Ok? <==> (forall f <- folds :: FoldPasses(f, x)) && IdsDisjoint(folds)
    ensures FoldsOf(folds, x).Ok? ==>
              forall id :: id in FoldsOf(folds, x).value.seen <==> exists f <- folds :: id in CandidateIds(f.candidates)
  {
    hide FoldPasses, BetsOf, ScanError, CandidateIds, TrailOf, IdsDisjoint;
    if folds == [] {
      NoFoldsClean(x);
    } else {
      var front, last := folds[..|folds| - 1], folds[|folds| - 1];
      assert folds == front + [last];
      FoldsComplete(front, x);
      if FoldsOf(front, x).Ok? {
        var seen := FoldsOf(front, x).value.seen;
        ScanExactly(last.candidates, last.fold, x.strategy.mode, seen);
        BetsSettleExactly(last, x);
        PassesExactly(last, x);
        LastDisjoint(folds, seen);
      } else if IdsDisjoint(folds) {
        FrontDisjoint(folds);
      }
    }
  }

  lemma PassesExactly(f: FoldInput, x: Context)
    requires x.Valid()
    ensures FoldPasses(f, x) <==>
            && CandidatesPass(FoldInput(f.fold, f.candidates), x.strategy.mode)
            && DistinctIds(OpportunitiesOf(f.candidates)) && BetsSettle(f, x)
  {
    hide CandidatesPass, DistinctIds, BetsSettle, OpportunitiesOf;
  }

  lemma FrontDisjoint(folds: seq<FoldInput>)
    requires folds != [] && IdsDisjoint(folds)
    ensures IdsDisjoint(folds[..|folds| - 1])
  {
    hide CandidateIds;
    var front := folds[..|folds| - 1];
    forall i, j | 0 <= i < j < |front| ensures CandidateIds(front[i].candidates) !! CandidateIds(front[j].candidates) {
      assert front[i] == folds[i] && front[j] == folds[j];
    }
  }

  lemma LastDisjoint(folds: seq<FoldInput>, seen: set<string>)
    requires folds != []
    requires forall id :: id in seen <==> exists f <- folds[..|folds| - 1] :: id in CandidateIds(f.candidates)
    ensures IdsDisjoint(folds) <==>
            IdsDisjoint(folds[..|folds| - 1]) && CandidateIds(folds[|folds| - 1].candidates) !! seen
  {
    hide CandidateIds;
    var n := |folds| - 1;
    var front, last := folds[..n], folds[n];
    if IdsDisjoint(folds) {
      FrontDisjoint(folds);
      forall f <- front ensures CandidateIds(f.candidates) !! CandidateIds(last.candidates) {
        var i :| 0 <= i < n && front[i] == f;
        assert CandidateIds(folds[i].candidates) !! CandidateIds(folds[n].candidates);
      }
    }
    if IdsDisjoint(front) && CandidateIds(last.candidates) !! seen {
      forall f <- front ensures CandidateIds(f.candidates) <= seen {
      }
      NewFoldDisjoint(folds, seen);
    }
  }

  /** One opportunity is a candidate of two folds. */
  predicate SharedOpportunity(folds: seq<FoldInput>) {
    exists f <- folds, g <- folds :: f.fold.id != g.fold.id && ShareCandidate(f, g)
  }

  predicate ShareCandidate(f: FoldInput, g: FoldInput) {
    exists c <- f.candidates, d <- g.candidates :: c.opportunity.id == d.opportunity.id
  }

  lemma ShareMeaning(f: FoldInput, g: FoldInput)
    ensures ShareCandidate(f, g) <==> !(CandidateIds(f.candidates) !! CandidateIds(g.candidates))
  {
    if c, d :| c in f.candidates && d in g.candidates && c.opportunity.id == d.opportunity.id {
      assert c.opportunity.id in CandidateIds(f.candidates) && c.opportunity.id in CandidateIds(g.candidates);
    }
    if id :| id in CandidateIds(f.candidates) && id in CandidateIds(g.candidates) {
      var c :| c in f.candidates && c.opportunity.id == id;
      var d :| d in g.candidates && d.opportunity.id == id;
      assert c.opportunity.id == d.opportunity.id;
    }
  }

  lemma SharedExactly(folds: seq<FoldInput>, ordered: seq<FoldInput>)
    requires multiset(folds) == multiset(ordered) && Ordering.NoDuplicates(FoldIds(ordered))
    ensures SharedOpportunity(folds) <==> !IdsDisjoint(ordered)
  {
    hide CandidateIds, ShareCandidate;
    Ordering.SameElements(folds, ordered);
    forall f, g { ShareMeaning(f, g); }
    if SharedOpportunity(folds) {
      var f, g :| f in folds && g in folds && f.fold.id != g.fold.id && ShareCandidate(f, g);
      var i :| 0 <= i < |ordered| && ordered[i] == f;
      var j :| 0 <= j < |ordered| && ordered[j] == g;
      var a, b := if i < j then i else j, if i < j then j else i;
      assert !(CandidateIds(ordered[a].candidates) !! CandidateIds(ordered[b].candidates));
    }
    if !IdsDisjoint(ordered) {
      var i, j :| 0 <= i < j < |ordered| &&
                  !(CandidateIds(ordered[i].candidates) !! CandidateIds(ordered[j].candidates));
      assert FoldIds(ordered)[i] != FoldIds(ordered)[j];
      assert ordered[i] in folds && ordered[j] in folds && ShareCandidate(ordered[i], ordered[j]);
    }
  }

  /**
   * A run completes if and only if there are folds, they differ in identifier, test start, events and opportunities,
   * and each of them passes: its candidates respect its windows and the strategy's mode and have distinct identifiers,
   * and whatever is bet on was decided at odds above one.
   */
  lemma CompletesExactly(folds: seq<FoldInput>, x: Context)
    requires x.Valid()
    ensures RunOf(folds, x).Ok? <==>
            && folds != [] && !SameFoldId(folds) && !SameTestStart(folds) && !SameEvent(folds)
            && !SharedOpportunity(folds) && forall f <- folds :: FoldPasses(f, x)
  {
    hide RunOf, FoldsOf, FoldLe, FoldPasses, SameFoldId, SameTestStart, SameEvent, SharedOpportunity, IdsDisjoint;
    RefusedOnFields(folds, x);
    if folds != [] && !SameFoldId(folds) && !SameTestStart(folds) && !SameEvent(folds) {
      var ordered := Ordering.SortBy(folds, FoldLe);
      SameIdsMeaning(folds);
      FoldsComplete(ordered, x);
      SharedExactly(folds, ordered);
      Ordering.SameElements(folds, ordered);
    }
  }
}
