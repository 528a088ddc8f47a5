/** The audit trail of a backtest run: it accounts for every candidate and bet, and its ranks restart in every fold. */
module BacktestTrail {
  import opened Wrappers
  import Ordering
  import opened Aggregates
  import opened Opportunities
  import S = OpportunitySearch
  import B = CombinationBuilder
  import C = CombinationContracts
  import opened DecisionRanks
  import Settlement
  import opened BacktestMetrics
  import opened Backtest
  import opened BacktestSafety

  /** The opportunities each fold hands to its filter call. */
  function CallsOf(folds: seq<FoldInput>): (r: seq<seq<Opportunity>>)
    ensures |r| == |folds| && forall i :: 0 <= i < |folds| ==> r[i] == OpportunitiesOf(folds[i].candidates)
  {
    seq(|folds|, i requires 0 <= i < |folds| => OpportunitiesOf(folds[i].candidates))
  }

  function Candidates(folds: seq<FoldInput>): nat {
    if folds == [] then 0 else Candidates(folds[..|folds| - 1]) + |folds[|folds| - 1].candidates|
  }

  function AcceptedOf(f: FoldInput, x: Context): seq<Opportunity> {
    S.SearchOf(OpportunitiesOf(f.candidates), x.strategy.filter).accepted
  }

  predicate IsEligible(d: S.Decision) { d.eligible }

  /* ---------- Conservation ---------- */

  /**
   * Eligible decisions and rejections make up the candidates; each eligible decision is a single, each combination a
   * multiple.
   */
  predicate Conserves(trail: Trail, bets: seq<Bet>, candidates: nat, x: Context) {
    && |trail.decisions| == candidates
    && CountBy(trail.decisions, IsEligible) + |trail.rejected| == candidates
    && CountBy(bets, IsSingle) == (if x.strategy.singles then CountBy(trail.decisions, IsEligible) else 0)
    && CountBy(bets, IsMultiple) == |trail.combinations|
  }

  lemma {:induction false} EligibleRanked(rows: seq<S.Decision>)
    requires RanksPresent(rows)
    ensures CountBy(rows, IsEligible) == |RanksOf(rows)|
  {
    if rows != [] {
      var front, last := rows[..|rows| - 1], rows[|rows| - 1];
      assert rows == front + [last];
      EligibleRanked(front);
    }
  }

  lemma SinglePlaced(o: Opportunity, f: FoldInput, x: Context)
    requires SingleBet(o, Settlements(f.candidates), f.fold, x).Ok?
    ensures SingleBet(o, Settlements(f.candidates), f.fold, x).value.kind == Single
  {
    hide Settlements;
  }

  lemma {:induction false} SinglesPlaced(accepted: seq<Opportunity>, f: FoldInput, x: Context)
    requires SingleBets(accepted, Settlements(f.candidates), f.fold, x).Ok?
    ensures var bets := SingleBets(accepted, Settlements(f.candidates), f.fold, x).value;
            CountBy(bets, IsSingle) == |accepted| && CountBy(bets, IsMultiple) == 0
  {
    hide Settlements, SingleBet;
    if accepted != [] {
      SinglesPlaced(accepted[..|accepted| - 1], f, x);
      SinglePlaced(accepted[|accepted| - 1], f, x);
    }
  }

  lemma MultiplePlaced(c: C.Combination, f: FoldInput, x: Context)
    requires CombinationBet(c, Settlements(f.candidates), f.fold, x).Ok?
    ensures CombinationBet(c, Settlements(f.candidates), f.fold, x).value.kind == Multiple
  {
    hide Settlements, Settlement.CombinationSettlement, LegsOf;
  }

  lemma {:induction false} MultiplesPlaced(combinations: seq<C.Combination>, f: FoldInput, x: Context)
    requires CombinationBets(combinations, Settlements(f.candidates), f.fold, x).Ok?
    ensures var bets := CombinationBets(combinations, Settlements(f.candidates), f.fold, x).value;
            CountBy(bets, IsMultiple) == |combinations| && CountBy(bets, IsSingle) == 0
  {
    hide Settlements, CombinationBet;
    if combinations != [] {
      MultiplesPlaced(combinations[..|combinations| - 1], f, x);
      MultiplePlaced(combinations[|combinations| - 1], f, x);
    }
  }

  lemma NothingPlaced()
    ensures CountBy([], IsSingle) == 0 && CountBy([], IsMultiple) == 0
  {
  }

  lemma FoldConserves(f: FoldInput, x: Context)
    requires x.Valid() && DistinctIds(OpportunitiesOf(f.candidates)) && BetsOf(f, x).Ok?
    ensures Conserves(TrailOf(f, x), BetsOf(f, x).value, |f.candidates|, x)
  {
    hide SingleBets, CombinationBets, Settlements, S.SearchOf, BuildFrom, DistinctIds, CountBy, RanksOf, RanksPresent,
         OpportunitiesOf;
    var opportunities := OpportunitiesOf(f.candidates);
    var search := S.SearchOf(opportunities, x.strategy.filter);
    S.SearchPartitions(opportunities, x.strategy.filter);
    CallRanks(opportunities, x.strategy.filter);
    EligibleRanked(search.decisions);
    DecidedById(opportunities, x.strategy.filter);
    NothingPlaced();
    var singles := if x.strategy.singles then SingleBets(search.accepted, Settlements(f.candidates), f.fold, x).value
                   else [];
    if x.strategy.singles {
      SinglesPlaced(search.accepted, f, x);
    }
    if x.strategy.combinations {
      var multiples := CombinationBets(Built(search.accepted, x), Settlements(f.candidates), f.fold, x).value;
      MultiplesPlaced(Built(search.accepted, x), f, x);
      CountAppend(singles, multiples, IsSingle);
      CountAppend(singles, multiples, IsMultiple);
    } else {
      assert singles + [] == singles;
    }
  }

  lemma ConservesBoth(first: Trail, bets: seq<Bet>, n: nat, next: Trail, more: seq<Bet>, m: nat, x: Context)
    requires Conserves(first, bets, n, x) && Conserves(next, more, m, x)
    ensures Conserves(first.Then(next), bets + more, n + m, x)
  {
    CountAppend(first.decisions, next.decisions, IsEligible);
    CountAppend(bets, more, IsSingle);
    CountAppend(bets, more, IsMultiple);
  }

  lemma {:induction false} FoldsConserve(folds: seq<FoldInput>, x: Context)
    requires x.Valid() && FoldsOf(folds, x).Ok?
    ensures Conserves(FoldsOf(folds, x).value.trail, FoldsOf(folds, x).value.bets, Candidates(folds), x)
  {
    hide FoldsOf, BetsOf, TrailOf, ScanError, Conserves, CandidateIds, AllClean, CleanBet, DistinctIds, OpportunitiesOf;
    if folds == [] {
      NoFoldsClean(x);
      assert Conserves(NO_TRAIL, [], 0, x) by { NothingConserved(x); }
    } else {
      var front, last := folds[..|folds| - 1], folds[|folds| - 1];
      LastFold(folds, x);
      FoldsConserve(front, x);
      ScannedAreClean(last.candidates, last.fold, x.strategy.mode, FoldsOf(front, x).value.seen);
      FoldConserves(last, x);
      ConservesBoth(FoldsOf(front, x).value.trail, FoldsOf(front, x).value.bets, Candidates(front),
                    TrailOf(last, x), BetsOf(last, x).value, |last.candidates|, x);
    }
  }

  lemma NothingConserved(x: Context)
    ensures Conserves(NO_TRAIL, [], 0, x)
  {
  }

  function SizeOf(f: FoldInput): real { |f.candidates| as real }

  lemma {:induction false} CandidatesAsSum(folds: seq<FoldInput>)
    ensures Candidates(folds) as real == SumBy(folds, SizeOf)
  {
    if folds != [] {
      CandidatesAsSum(folds[..|folds| - 1]);
    }
  }

  /** The trail of a completed run accounts for every candidate of every fold and for every bet. */
  lemma RunConserves(folds: seq<FoldInput>, x: Context)
    requires x.Valid() && RunOf(folds, x).Ok?
    ensures Conserves(RunOf(folds, x).value.trail, RunOf(folds, x).value.bets, Candidates(folds), x)
  {
    hide FoldsOf, FoldLe, Candidates, Advancing, Disjoint, CountBy, SumBy, BetLe;
    var ordered := Ordering.SortBy(folds, FoldLe);
    FoldsConserve(ordered, x);
    CandidatesAsSum(ordered);
    CandidatesAsSum(folds);
    SumPermutation(ordered, folds, SizeOf);
    var bets := FoldsOf(ordered, x).value.bets;
    CountPermutation(bets, Chronological(bets), IsSingle);
    CountPermutation(bets, Chronological(bets), IsMultiple);
  }

  /* ---------- Ranks ---------- */

  lemma {:induction false} TrailDecisions(folds: seq<FoldInput>, x: Context)
    requires x.Valid() && FoldsOf(folds, x).Ok?
    ensures FoldsOf(folds, x).value.trail.decisions == AllDecisions(CallsOf(folds), x.strategy.filter)
  {
    hide FoldsOf, BetsOf, ScanError, CandidateIds, S.SearchOf, BuildFrom;
    if folds == [] {
      NoFoldsClean(x);
    } else {
      var front, last := folds[..|folds| - 1], folds[|folds| - 1];
      LastFold(folds, x);
      TrailDecisions(front, x);
      assert CallsOf(folds)[..|folds| - 1] == CallsOf(front);
    }
  }

  lemma DecidedIds(f: FoldInput, x: Context, id: string)
    requires DistinctIds(OpportunitiesOf(f.candidates))
    ensures id in DecisionIds(S.SearchOf(OpportunitiesOf(f.candidates), x.strategy.filter).decisions) ==>
              id in CandidateIds(f.candidates)
  {
    hide S.SearchOf, IdLe, Ordering.SortBy;
    var opportunities := OpportunitiesOf(f.candidates);
    var search, byId := S.SearchOf(opportunities, x.strategy.filter), Ordering.SortBy(opportunities, IdLe);
    DecidedById(opportunities, x.strategy.filter);
    if id in DecisionIds(search.decisions) {
      var k :| 0 <= k < |byId| && DecisionIds(search.decisions)[k] == id;
      Ordering.SameElements(byId, opportunities);
      assert byId[k] in byId;
      var i :| 0 <= i < |opportunities| && opportunities[i] == byId[k];
      assert f.candidates[i] in f.candidates;
    }
  }

  lemma DecisionIdsAppend(a: seq<S.Decision>, b: seq<S.Decision>)
    ensures DecisionIds(a + b) == DecisionIds(a) + DecisionIds(b)
  {
  }

  lemma NextDecisions(folds: seq<FoldInput>, x: Context)
    requires folds != []
    ensures var front, last := folds[..|folds| - 1], folds[|folds| - 1];
            AllDecisions(CallsOf(folds), x.strategy.filter) ==
            AllDecisions(CallsOf(front), x.strategy.filter)
            + S.SearchOf(OpportunitiesOf(last.candidates), x.strategy.filter).decisions
  {
    hide S.SearchOf, OpportunitiesOf;
    assert CallsOf(folds)[..|folds| - 1] == CallsOf(folds[..|folds| - 1]);
  }

  lemma NoDecisions(x: Context)
    ensures DecisionIds(AllDecisions(CallsOf([]), x.strategy.filter)) == []
  {
  }

  /** The identifiers are distinct, and each belongs to a fold. */
  ghost predicate DecidesOnce(ids: seq<string>, folds: seq<FoldInput>) {
    Ordering.NoDuplicates(ids) && forall id <- ids :: exists f <- folds :: id in CandidateIds(f.candidates)
  }

  lemma DecidesMore(ids: seq<string>, more: seq<string>, folds: seq<FoldInput>)
    requires folds != [] && IdsDisjoint(folds) && DecidesOnce(ids, folds[..|folds| - 1])
    requires Ordering.NoDuplicates(more) && forall id <- more :: id in CandidateIds(folds[|folds| - 1].candidates)
    ensures DecidesOnce(ids + more, folds)
  {
    hide CandidateIds, IdsDisjoint, Ordering.NoDuplicates;
    var front, last := folds[..|folds| - 1], folds[|folds| - 1];
    assert folds == front + [last];
    forall a, b | a in ids && b in more ensures a != b {
      var f :| f in front && a in CandidateIds(f.candidates);
      LastDisjoint(folds, f);
    }
    Ordering.AppendDistinct(ids, more);
    forall id <- ids + more ensures exists f <- folds :: id in CandidateIds(f.candidates) {
      if id in ids {
        var f :| f in front && id in CandidateIds(f.candidates);
        assert f in folds;
      } else {
        assert last in folds;
      }
    }
  }

  /** Folds that share no identifier decide about each opportunity once. */
  lemma {:induction false} DecidedOnce(folds: seq<FoldInput>, x: Context)
    requires IdsDisjoint(folds) && forall f <- folds :: DistinctIds(OpportunitiesOf(f.candidates))
    ensures DecidesOnce(DecisionIds(AllDecisions(CallsOf(folds), x.strategy.filter)), folds)
  {
    hide S.SearchOf, DistinctIds, CandidateIds, GroupAccepted, DecisionIds, OpportunitiesOf, AllDecisions, CallsOf,
         IdsDisjoint;
    if folds == [] {
      NoDecisions(x);
    } else {
      hide DecidesOnce;
      var front, last := folds[..|folds| - 1], folds[|folds| - 1];
      assert folds == front + [last];
      PrefixDisjoint(folds);
      DecidedOnce(front, x);
      NextDecisions(folds, x);
      var more := S.SearchOf(OpportunitiesOf(last.candidates), x.strategy.filter).decisions;
      OneCallRanks(OpportunitiesOf(last.candidates), x.strategy.filter);
      GroupIsDistinct(more);
      forall id <- DecisionIds(more) ensures id in CandidateIds(last.candidates) {
        DecidedIds(last, x, id);
      }
      DecisionIdsAppend(AllDecisions(CallsOf(front), x.strategy.filter), more);
      DecidesMore(DecisionIds(AllDecisions(CallsOf(front), x.strategy.filter)), DecisionIds(more), folds);
    }
  }

  lemma GroupIsDistinct(rows: seq<S.Decision>)
    requires GroupAccepted(rows)
    ensures Ordering.NoDuplicates(DecisionIds(rows))
  {
  }

  lemma PrefixDisjoint(folds: seq<FoldInput>)
    requires folds != [] && IdsDisjoint(folds)
    ensures IdsDisjoint(folds[..|folds| - 1])
  {
    hide CandidateIds;
    var front := folds[..|folds| - 1];
    forall i, j | 0 <= i < j < |front| ensures CandidateIds(front[i].candidates) !! CandidateIds(front[j].candidates) {
      assert CandidateIds(folds[i].candidates) !! CandidateIds(folds[j].candidates);
    }
  }

  lemma LastDisjoint(folds: seq<FoldInput>, f: FoldInput)
    requires folds != [] && IdsDisjoint(folds) && f in folds[..|folds| - 1]
    ensures CandidateIds(f.candidates) !! CandidateIds(folds[|folds| - 1].candidates)
  {
    hide CandidateIds;
    var i :| 0 <= i < |folds| - 1 && folds[i] == f;
  }

  /** At most one fold accepted anything. */
  ghost predicate OneFoldAccepts(folds: seq<FoldInput>, x: Context) {
    forall f, g :: f in folds && g in folds && f != g ==> AcceptedOf(f, x) == [] || AcceptedOf(g, x) == []
  }

  lemma CallAccepts(folds: seq<FoldInput>, x: Context, i: nat)
    requires i < |folds|
    ensures Accepting(x.strategy.filter)(CallsOf(folds)[i]) <==> AcceptedOf(folds[i], x) != []
  {
    hide S.SearchOf, OpportunitiesOf;
  }

  lemma OneCallAccepts(folds: seq<FoldInput>, x: Context)
    requires Ordering.NoDuplicates(folds)
    ensures CountBy(CallsOf(folds), Accepting(x.strategy.filter)) <= 1 <==> OneFoldAccepts(folds, x)
  {
    hide AcceptedOf, Accepting, CallsOf;
    var calls, accepting := CallsOf(folds), Accepting(x.strategy.filter);
    CountAtMostOne(calls, accepting);
    forall i | 0 <= i < |folds| ensures accepting(calls[i]) <==> AcceptedOf(folds[i], x) != [] {
      CallAccepts(folds, x, i);
    }
    if CountBy(calls, accepting) <= 1 {
      forall f, g | f in folds && g in folds && f != g ensures AcceptedOf(f, x) == [] || AcceptedOf(g, x) == [] {
        var i :| 0 <= i < |folds| && folds[i] == f;
        var j :| 0 <= j < |folds| && folds[j] == g;
        assert !(accepting(calls[if i < j then i else j]) && accepting(calls[if i < j then j else i]));
      }
    }
    if OneFoldAccepts(folds, x) {
      forall i, j | 0 <= i < j < |calls| ensures !(accepting(calls[i]) && accepting(calls[j])) {
        assert folds[i] in folds && folds[j] in folds && folds[i] != folds[j];
      }
    }
  }

  /** A completed run went through its folds in order without an error. */
  lemma RunFolds(folds: seq<FoldInput>, x: Context)
    requires x.Valid() && RunOf(folds, x).Ok?
    ensures var ordered := Ordering.SortBy(folds, FoldLe);
            && FoldsOf(ordered, x).Ok? && RunOf(folds, x).value.trail == FoldsOf(ordered, x).value.trail
            && RunOf(folds, x).value.bets == Chronological(FoldsOf(ordered, x).value.bets)
            && Ordering.NoDuplicates(ordered) && forall f :: f in ordered <==> f in folds
  {
    hide FoldsOf, FoldLe, Advancing, Disjoint, Chronological, Ordering.NoDuplicates;
    var ordered := Ordering.SortBy(folds, FoldLe);
    Ordering.SameElements(ordered, folds);
    FoldsDistinct(ordered);
  }

  lemma CallsDistinct(folds: seq<FoldInput>)
    requires forall f <- folds :: DistinctIds(OpportunitiesOf(f.candidates))
    ensures forall call <- CallsOf(folds) :: DistinctIds(call)
  {
    hide DistinctIds, OpportunitiesOf;
    forall call <- CallsOf(folds) ensures DistinctIds(call) {
      var i :| 0 <= i < |folds| && CallsOf(folds)[i] == call;
      assert folds[i] in folds;
    }
  }

  /**
   * The check accepts the decisions a completed run persists exactly when at most one of its folds accepted anything.
   */
  lemma RunRanksAcceptedExactly(folds: seq<FoldInput>, x: Context)
    requires x.Valid() && RunOf(folds, x).Ok?
    ensures RanksAccepted(RunOf(folds, x).value.trail.decisions) <==> OneFoldAccepts(folds, x)
  {
    hide RunOf, FoldsOf, FoldLe, RanksAccepted, DistinctIds, AllClean, CandidateIds, OpportunitiesOf, CallsOf,
         Accepting,
         AcceptedOf, FromSomeFold, IdsDisjoint, DecisionIds, AllDecisions, Ordering.NoDuplicates, Ordering.SortBy,
         CountBy;
    RunFolds(folds, x);
    var ordered := Ordering.SortBy(folds, FoldLe);
    FoldsAreClean(ordered, x);
    TrailDecisions(ordered, x);
    DecidedOnce(ordered, x);
    OneCallAccepts(ordered, x);
    CallsDistinct(ordered);
    CallsAcceptedExactly(CallsOf(ordered), x.strategy.filter);
    assert OneFoldAccepts(ordered, x) <==> OneFoldAccepts(folds, x);
  }

  lemma FoldsDistinct(folds: seq<FoldInput>)
    requires Ordering.NoDuplicates(FoldIds(folds))
    ensures Ordering.NoDuplicates(folds)
  {
    forall i, j | 0 <= i < j < |folds| ensures folds[i] != folds[j] {
      assert FoldIds(folds)[i] != FoldIds(folds)[j];
    }
  }

  /* ---------- A run that is refused ---------- */

  const PERMISSIVE := S.Filter("filter", 0.0, 0.0, 0.0, 1.5, 10.0, {}, {}, {}, None, None, false, ByExpectedValue, None)

  const SINGLES := Context(Strategy("strategy", TimestampedSynthetic, PERMISSIVE, true, false, None),
                           B.Bounds(10, 10, 10),
                           (_: C.Payload) => "", (_: BetIdentity) => "")

  /** An opportunity on the given day that passes the filter. */
  function Sample(id: string, day: int): Opportunity {
    Opportunity(id, id, day * MICROSECONDS_PER_DAY,
                Selection(Market("football", "1x2", "1x2", "full", "match", None, "none", None), "home"),
                id, LiveSafe, Some(0), 0, 2.0, 0.6, 0.1, 0.2, 0, 1, "provider", [], [], false, true)
  }

  /** A fold that tests one day and has one candidate on it. */
  function SampleFold(id: string, day: int): FoldInput {
    FoldInput(Fold(id, 0, 0, 1, 1, day, day), [Candidate(Sample(id, day), Settlement.Win)])
  }

  lemma SampleAccepted(id: string, day: int)
    ensures S.SearchOf([Sample(id, day)], PERMISSIVE).accepted == [Sample(id, day)]
  {
    var o := Sample(id, day);
    assert S.Codes(o, PERMISSIVE) == [];
    assert [o][..0] == [] && [o][1..] == [];
    assert Ordering.SortBy([o], IdLe) == [o];
    assert S.Kept([o], PERMISSIVE) == [o];
    assert Ordering.SortBy([o], RankOrder(ByExpectedValue)) == [o];
  }

  lemma SampleFoldRuns(id: string, day: int, before: FoldRun)
    requires day >= 2 && id !in before.seen
    ensures FoldOf(SampleFold(id, day), SINGLES, before).Ok?
    ensures FoldOf(SampleFold(id, day), SINGLES, before).value.seen == before.seen + {id}
    ensures AcceptedOf(SampleFold(id, day), SINGLES) == [Sample(id, day)]
  {
    hide S.SearchOf, Settlements, Lookup;
    var f, o := SampleFold(id, day), Sample(id, day);
    SampleAccepted(id, day);
    assert OpportunitiesOf(f.candidates) == [o];
    assert DateOf(o.eventStart) == day by { assert day * MICROSECONDS_PER_DAY / MICROSECONDS_PER_DAY == day; }
    assert f.candidates[1..] == [];
    assert ScanError(f.candidates, f.fold, TimestampedSynthetic, before.seen).None?;
    assert Lookup(Settlements(f.candidates), o.id) == Settlement.Win by {
      LookupFinds(f.candidates, f.candidates[0]);
    }
    assert [o][..0] == [];
    assert SingleBets([o], Settlements(f.candidates), f.fold, SINGLES).Ok?;
    assert CandidateIds(f.candidates) == {id};
  }

  const TWO_FOLDS: seq<FoldInput> := [SampleFold("a", 2), SampleFold("b", 3)]

  lemma BothFoldsRun()
    ensures SINGLES.Valid() && FoldsOf(TWO_FOLDS, SINGLES).Ok?
  {
    hide FoldOf, AcceptedOf;
    var f, g := TWO_FOLDS[0], TWO_FOLDS[1];
    assert "a"[0] != "b"[0];
    NoFoldsClean(SINGLES);
    SampleFoldRuns("a", 2, FoldRun({}, [], NO_TRAIL));
    var first := FoldOf(f, SINGLES, FoldRun({}, [], NO_TRAIL)).value;
    SampleFoldRuns("b", 3, first);
    assert TWO_FOLDS[..1] == [f] && [f][..0] == [];
    assert FoldsOf([f], SINGLES) == Ok(first);
  }

  lemma SampleEvents(id: string, day: int)
    ensures EventsOf(SampleFold(id, day)) == {id}
  {
    var c := Candidate(Sample(id, day), Settlement.Win);
    assert SampleFold(id, day).candidates == [c] && c.opportunity.eventId == id;
  }

  lemma TwoFoldsApart()
    ensures Disjoint(TWO_FOLDS) && Ordering.NoDuplicates(FoldIds(TWO_FOLDS))
  {
    hide EventsOf, SampleFold;
    SampleEvents("a", 2);
    SampleEvents("b", 3);
    SampleIds();
    assert "a"[0] != "b"[0];
    assert {"a"} * {"b"} == {};
  }

  lemma SampleIds()
    ensures TWO_FOLDS[0].fold == Fold("a", 0, 0, 1, 1, 2, 2) && TWO_FOLDS[1].fold == Fold("b", 0, 0, 1, 1, 3, 3)
  {
  }

  lemma TwoFoldsRun()
    ensures SINGLES.Valid() && RunOf(TWO_FOLDS, SINGLES).Ok?
  {
    hide FoldsOf, Disjoint, FoldIds, Ordering.NoDuplicates, SampleFold, Chronological;
    BothFoldsRun();
    SampleIds();
    assert Ordering.Sorted(TWO_FOLDS, FoldLe);
    Ordering.SortBySortedIdentity(TWO_FOLDS, FoldLe);
    TwoFoldsApart();
  }

  /** Two folds that accept one opportunity each: the run completes, and the check refuses its decisions. */
  lemma TwoFoldsRefused()
    ensures SINGLES.Valid() && RunOf(TWO_FOLDS, SINGLES).Ok?
    ensures !RanksAccepted(RunOf(TWO_FOLDS, SINGLES).value.trail.decisions)
  {
    hide RunOf, FoldOf, AcceptedOf, RanksAccepted;
    TwoFoldsRun();
    SampleFoldRuns("a", 2, FoldRun({}, [], NO_TRAIL));
    SampleFoldRuns("b", 3, FoldRun({}, [], NO_TRAIL));
    RunRanksAcceptedExactly(TWO_FOLDS, SINGLES);
    assert TWO_FOLDS[0].fold.testStart != TWO_FOLDS[1].fold.testStart;
    assert TWO_FOLDS[0] in TWO_FOLDS && TWO_FOLDS[1] in TWO_FOLDS;
  }
}
