/** The bets of one run by what they settle. */
module BacktestIdentity {
  import opened Wrappers
  import Ordering
  import opened Opportunities
  import S = OpportunitySearch
  import C = CombinationContracts
  import Settlement
  import opened BacktestMetrics
  import opened Backtest
  import opened BacktestSafety
  import opened BacktestTrail

  /* They never tie unless identifiers collide, so their metrics ignore any order. */

  /** What a bet settles. */
  datatype Source = FromOpportunity(o: Opportunity) | FromCombination(c: C.Combination)

  function IdentityOf(source: Source, f: FoldInput, x: Context): BetIdentity {
    match source
    case FromOpportunity(o) => SingleIdentity(x.strategy.id, f.fold.id, o.id)
    case FromCombination(c) => CombinationIdentity(x.strategy.id, f.fold.id, c.id)
  }

  /** The fold places the bet for this source. */
  ghost predicate Places(f: FoldInput, source: Source, x: Context, b: Bet)
    requires x.Valid()
  {
    match source
    case FromOpportunity(o) =>
      o in OpportunitiesOf(f.candidates) && SingleBet(o, Settlements(f.candidates), f.fold, x) == Ok(b)
    case FromCombination(c) =>
      && x.strategy.combinations && c in Built(AcceptedOf(f, x), x)
      && CombinationBet(c, Settlements(f.candidates), f.fold, x) == Ok(b)
  }

  lemma Identified(f: FoldInput, source: Source, x: Context, b: Bet)
    requires x.Valid() && Places(f, source, x, b)
    ensures b.id == x.betId(IdentityOf(source, f, x))
  {
    hide Settlements, Settlement.CombinationSettlement, Built, LegsOf;
  }

  /* ---------- Every bet has a source ---------- */

  lemma {:induction false} SinglesHaveSources(accepted: seq<Opportunity>, f: FoldInput, x: Context, b: Bet)
    returns (o: Opportunity)
    requires SingleBets(accepted, Settlements(f.candidates), f.fold, x).Ok?
    requires b in SingleBets(accepted, Settlements(f.candidates), f.fold, x).value
    ensures o in accepted && SingleBet(o, Settlements(f.candidates), f.fold, x) == Ok(b)
  {
    hide Settlements, SingleBet;
    var front, last := accepted[..|accepted| - 1], accepted[|accepted| - 1];
    if SingleBet(last, Settlements(f.candidates), f.fold, x) == Ok(b) {
      o := last;
    } else {
      o := SinglesHaveSources(front, f, x, b);
      assert accepted == front + [last];
    }
  }

  lemma {:induction false} MultiplesHaveSources(combinations: seq<C.Combination>, f: FoldInput, x: Context, b: Bet)
    returns (c: C.Combination)
    requires CombinationBets(combinations, Settlements(f.candidates), f.fold, x).Ok?
    requires b in CombinationBets(combinations, Settlements(f.candidates), f.fold, x).value
    ensures c in combinations && CombinationBet(c, Settlements(f.candidates), f.fold, x) == Ok(b)
  {
    hide Settlements, CombinationBet;
    var front, last := combinations[..|combinations| - 1], combinations[|combinations| - 1];
    if CombinationBet(last, Settlements(f.candidates), f.fold, x) == Ok(b) {
      c := last;
    } else {
      c := MultiplesHaveSources(front, f, x, b);
      assert combinations == front + [last];
    }
  }

  lemma FoldBetHasSource(f: FoldInput, x: Context, b: Bet) returns (source: Source)
    requires x.Valid() && BetsOf(f, x).Ok? && b in BetsOf(f, x).value
    ensures Places(f, source, x, b)
  {
    hide Settlements, SingleBets, CombinationBets, SingleBet, CombinationBet, S.SearchOf, Built, OpportunitiesOf;
    S.SearchPartitions(OpportunitiesOf(f.candidates), x.strategy.filter);
    var accepted := AcceptedOf(f, x);
    if x.strategy.singles && b in SingleBets(accepted, Settlements(f.candidates), f.fold, x).value {
      var o := SinglesHaveSources(accepted, f, x, b);
      source := FromOpportunity(o);
    } else {
      var c := MultiplesHaveSources(Built(accepted, x), f, x, b);
      source := FromCombination(c);
    }
  }

  lemma {:induction false} BetHasSource(folds: seq<FoldInput>, x: Context, b: Bet)
    returns (f: FoldInput, source: Source)
    requires x.Valid() && FoldsOf(folds, x).Ok? && b in FoldsOf(folds, x).value.bets
    ensures f in folds && Places(f, source, x, b)
  {
    hide FoldsOf, BetsOf, TrailOf, ScanError, CandidateIds, Places;
    if folds == [] {
      NoFoldsClean(x);
      assert false;
    } else {
      var front, last := folds[..|folds| - 1], folds[|folds| - 1];
      LastFold(folds, x);
      if b in BetsOf(last, x).value {
        f := last;
        source := FoldBetHasSource(last, x, b);
      } else {
        f, source := BetHasSource(front, x, b);
        assert folds == front + [last];
      }
    }
  }

  /* ---------- Bets with the same identifier ---------- */

  /** Two bets placed in this run whose identities have the same content address have the same identity. */
  ghost predicate BetsApart(folds: seq<FoldInput>, x: Context)
    requires x.Valid()
  {
    forall f, g, s, t, b, d ::
      (f in folds && g in folds && Places(f, s, x, b) && Places(g, t, x, d)
       && x.betId(IdentityOf(s, f, x)) == x.betId(IdentityOf(t, g, x))) ==>
        IdentityOf(s, f, x) == IdentityOf(t, g, x)
  }

  /** Two combinations built in one fold with the same identifier are the same. */
  ghost predicate CombinationsApart(folds: seq<FoldInput>, x: Context)
    requires x.Valid() && x.strategy.combinations
  {
    forall f, c, d ::
      (f in folds && c in Built(AcceptedOf(f, x), x) && d in Built(AcceptedOf(f, x), x) && c.id == d.id) ==> c == d
  }

  /** The content addresses that this run uses do not collide. */
  ghost predicate NoCollisions(folds: seq<FoldInput>, x: Context)
    requires x.Valid()
  {
    BetsApart(folds, x) && (x.strategy.combinations ==> CombinationsApart(folds, x))
  }

  /** Within one fold a source is determined by its identity, and so is the bet. */
  lemma SameIdentitySameBet(folds: seq<FoldInput>, f: FoldInput, s: Source, t: Source, x: Context, b: Bet, d: Bet)
    requires x.Valid() && f in folds && NoCollisions(folds, x) && DistinctIds(OpportunitiesOf(f.candidates))
    requires Places(f, s, x, b) && Places(f, t, x, d) && IdentityOf(s, f, x) == IdentityOf(t, f, x)
    ensures b == d
  {
    hide Settlements, SingleBet, CombinationBet, Built, OpportunitiesOf, DistinctIds, AcceptedOf;
    if s.FromOpportunity? {
      S.SameId(OpportunitiesOf(f.candidates), s.o, t.o);
    } else {
      assert s.c == t.c;
    }
  }

  lemma SameIdSameBet(folds: seq<FoldInput>, x: Context, b: Bet, d: Bet)
    requires x.Valid() && RunOf(folds, x).Ok? && NoCollisions(folds, x)
    requires b in RunOf(folds, x).value.bets && d in RunOf(folds, x).value.bets && b.id == d.id
    ensures b == d
  {
    hide RunOf, FoldsOf, Places, NoCollisions, FoldLe, BetLe, DistinctIds, OpportunitiesOf, AllClean, FromSomeFold,
         CandidateIds;
    RunFolds(folds, x);
    var ordered := Ordering.SortBy(folds, FoldLe);
    Ordering.SameElements(Chronological(FoldsOf(ordered, x).value.bets), FoldsOf(ordered, x).value.bets);
    var f, s := BetHasSource(ordered, x, b);
    var g, t := BetHasSource(ordered, x, d);
    SameIdentity(folds, f, g, s, t, x, b, d);
    if f != g {
      FoldsShareNothing(folds, x, f, g);
      assert false;
    }
    FoldsAreClean(ordered, x);
    SameIdentitySameBet(folds, f, s, t, x, b, d);
  }

  lemma SameIdentity(folds: seq<FoldInput>, f: FoldInput, g: FoldInput, s: Source, t: Source, x: Context, b: Bet,
                     d: Bet)
    requires x.Valid() && f in folds && g in folds && NoCollisions(folds, x)
    requires Places(f, s, x, b) && Places(g, t, x, d) && b.id == d.id
    ensures IdentityOf(s, f, x) == IdentityOf(t, g, x) && f.fold.id == g.fold.id
  {
    hide Places, Built, AcceptedOf;
    Identified(f, s, x, b);
    Identified(g, t, x, d);
  }

  /** The bets of one run never tie unless identifiers collide. */
  lemma RunBetsDoNotTie(folds: seq<FoldInput>, x: Context)
    requires x.Valid() && RunOf(folds, x).Ok? && NoCollisions(folds, x)
    ensures Ordering.NoTies(RunOf(folds, x).value.bets, BetLe)
  {
    hide RunOf, NoCollisions;
    var bets := RunOf(folds, x).value.bets;
    forall i, j | 0 <= i < |bets| && 0 <= j < |bets| && BetLe(bets[i], bets[j]) && BetLe(bets[j], bets[i])
      ensures bets[i] == bets[j]
    {
      Ordering.StrLeChain(bets[i].id, bets[j].id, bets[i].id);
      SameIdSameBet(folds, x, bets[i], bets[j]);
    }
  }

  /** So the metrics of a run are the same for every arrangement of its bets. */
  lemma RunMetricsIgnoreOrder(folds: seq<FoldInput>, x: Context, shuffled: seq<Bet>, m: Metrics, n: Metrics)
    requires x.Valid() && RunOf(folds, x).Ok? && NoCollisions(folds, x)
    requires multiset(shuffled) == multiset(RunOf(folds, x).value.bets)
    requires MetricsOf(RunOf(folds, x).value.bets, m) && MetricsOf(shuffled, n)
    ensures m == n
  {
    hide RunOf, NoCollisions, MetricsOf;
    RunBetsDoNotTie(folds, x);
    MetricsIgnoreOrder(RunOf(folds, x).value.bets, shuffled, m, n);
  }
}
