/** Rolling-origin selection and settlement over chronological test folds (backtesting/engine.py). */
module Backtest {
  import opened Wrappers
  import Ordering
  import opened Aggregates
  import opened Opportunities
  import S = OpportunitySearch
  import C = CombinationContracts
  import B = CombinationBuilder
  import opened Settlement
  import opened BacktestMetrics

  datatype Mode = ClosingLineHistorical | TimestampedSynthetic

  datatype Fold = Fold(id: string, trainStart: int, trainEnd: int, calibrationStart: int, calibrationEnd: int,
                       testStart: int, testEnd: int) {
    predicate Valid() {
      id != "" && trainStart <= trainEnd < calibrationStart <= calibrationEnd < testStart <= testEnd
    }
  }

  datatype Strategy = Strategy(id: string, mode: Mode, filter: S.Filter, singles: bool, combinations: bool,
                               rules: Option<C.Rules>) {
    predicate Valid() {
      && filter.Valid() && (singles || combinations) && (rules.Some? ==> rules.value.Valid())
      && (combinations ==> rules.Some? && mode.TimestampedSynthetic?)
    }
  }

  datatype Candidate = Candidate(opportunity: Opportunity, outcome: Outcome)

  datatype FoldInput = FoldInput(fold: Fold, candidates: seq<Candidate>)

  /** What the identifier of a bet addresses. */
  datatype BetIdentity = SingleIdentity(strategy: string, fold: string, opportunity: string)
                       | CombinationIdentity(strategy: string, fold: string, combination: string)

  /** The fixed parameters of a run; the two functions are the content addresses. */
  datatype Context = Context(strategy: Strategy, bounds: B.Bounds, combinationId: C.Payload -> string,
                             betId: BetIdentity -> string) {
    predicate Valid() {
      strategy.Valid() && bounds.Valid()
    }
  }

  datatype BacktestError =
    | NoFolds | DuplicateFoldIds | FoldsNotAdvancing | OverlappingEvents | RepeatedOpportunity | OutsideTestWindow
    | TrainingReachesTest | CalibrationReachesTest | WrongEvaluationMode | QuoteTimeMissing | SearchFailed
    | SettlementFailed(error: SettlementError)

  /** The audit trail of the folds: what happened to every opportunity and to every leg set tried. */
  datatype Trail = Trail(decisions: seq<S.Decision>, rejected: seq<S.Rejected>, combinations: seq<C.Combination>,
                         combinationRejected: seq<B.Rejection>)
  {
    function Then(next: Trail): Trail {
      Trail(decisions + next.decisions, rejected + next.rejected, combinations + next.combinations,
            combinationRejected + next.combinationRejected)
    }
  }

  const NO_TRAIL := Trail([], [], [], [])

  datatype FoldRun = FoldRun(seen: set<string>, bets: seq<Bet>, trail: Trail)

  /** A completed run, up to its metrics. */
  datatype Settled = Settled(bets: seq<Bet>, trail: Trail)

  /* ---------- Fold ordering ---------- */

  predicate FoldLe(a: FoldInput, b: FoldInput) {
    if a.fold.testStart == b.fold.testStart then Ordering.StrLe(a.fold.id, b.fold.id)
    else a.fold.testStart < b.fold.testStart
  }

  lemma FoldLeIsTotalPreorder()
    ensures Ordering.TotalPreorder(FoldLe)
  {
    forall x: FoldInput, y: FoldInput ensures FoldLe(x, y) || FoldLe(y, x) {
      Ordering.StrLeTotal(x.fold.id, y.fold.id);
    }
    forall x: FoldInput, y: FoldInput, z: FoldInput | FoldLe(x, y) && FoldLe(y, z) ensures FoldLe(x, z) {
      if x.fold.testStart == y.fold.testStart == z.fold.testStart {
        Ordering.StrLeTransitive(x.fold.id, y.fold.id, z.fold.id);
      }
    }
  }

  function FoldIds(folds: seq<FoldInput>): (r: seq<string>)
    ensures |r| == |folds| && forall i :: 0 <= i < |folds| ==> r[i] == folds[i].fold.id
  {
    seq(|folds|, i requires 0 <= i < |folds| => folds[i].fold.id)
  }

  predicate Advancing(folds: seq<FoldInput>) {
    forall i :: 0 < i < |folds| ==> folds[i - 1].fold.testStart < folds[i].fold.testStart
  }

  function EventsOf(f: FoldInput): set<string> {
    set c | c in f.candidates :: c.opportunity.eventId
  }

  predicate Overlap(a: FoldInput, b: FoldInput) {
    EventsOf(a) * EventsOf(b) != {}
  }

  predicate Disjoint(folds: seq<FoldInput>) {
    forall i, j :: 0 <= i < j < |folds| ==> !Overlap(folds[i], folds[j])
  }

  /* ---------- One fold ---------- */

  /** The chronological conditions on a candidate of a fold. */
  predicate Clean(o: Opportunity, f: Fold) {
    f.testStart <= DateOf(o.eventStart) <= f.testEnd && o.trainedThrough < f.testStart &&
    o.calibratedThrough < f.testStart
  }

  function ModeError(o: Opportunity, mode: Mode): Option<BacktestError> {
    if mode.ClosingLineHistorical? then
      if !o.evaluationMode.ClosingLineBenchmark? then Some(WrongEvaluationMode) else None
    else if !o.evaluationMode.LiveSafe? then Some(WrongEvaluationMode)
    else if o.quotedAt.None? then Some(QuoteTimeMissing)
    else None
  }

  function CandidateError(c: Candidate, f: Fold, mode: Mode, seen: set<string>): Option<BacktestError> {
    var o := c.opportunity;
    if o.id in seen then Some(RepeatedOpportunity)
    else if !(f.testStart <= DateOf(o.eventStart) <= f.testEnd) then Some(OutsideTestWindow)
    else if o.trainedThrough >= f.testStart then Some(TrainingReachesTest)
    else if o.calibratedThrough >= f.testStart then Some(CalibrationReachesTest)
    else ModeError(o, mode)
  }

  function ScanError(candidates: seq<Candidate>, f: Fold, mode: Mode, seen: set<string>): Option<BacktestError> {
    if candidates == [] then None
    else if CandidateError(candidates[0], f, mode, seen).Some? then CandidateError(candidates[0], f, mode, seen)
    else ScanError(candidates[1..], f, mode, seen + {candidates[0].opportunity.id})
  }

  function CandidateIds(candidates: seq<Candidate>): set<string> {
    set c | c in candidates :: c.opportunity.id
  }

  function OpportunitiesOf(candidates: seq<Candidate>): (r: seq<Opportunity>)
    ensures |r| == |candidates| && forall i :: 0 <= i < |r| ==> r[i] == candidates[i].opportunity
  {
    seq(|candidates|, i requires 0 <= i < |candidates| => candidates[i].opportunity)
  }

  /** The settlements by opportunity identifier. */
  function Settlements(candidates: seq<Candidate>): map<string, Outcome> {
    if candidates == [] then map[]
    else
      var last := candidates[|candidates| - 1];
      Settlements(candidates[..|candidates| - 1])[last.opportunity.id := last.outcome]
  }

  /** A lookup; every identifier that is looked up is present. */
  function Lookup(settlements: map<string, Outcome>, id: string): Outcome {
    if id in settlements then settlements[id] else Void
  }

  function SingleBet(o: Opportunity, settlements: map<string, Outcome>, f: Fold, x: Context)
      : Result<Bet, BacktestError>
  {
    var outcome := Lookup(settlements, o.id);
    match SettleSingle(o.odds, outcome)
    case Err(e) => Err(SettlementFailed(e))
    case Ok((_, profit)) =>
      Ok(Bet(x.betId(SingleIdentity(x.strategy.id, f.id, o.id)), f.id, Single, [o.id], o.odds, outcome, 1.0, profit,
             Some(o.eventStart),
             o.selection.market.sport, o.selection.market.key, o.providerId, o.probability, o.edge, o.expectedValue))
  }

  function SingleBets(accepted: seq<Opportunity>, settlements: map<string, Outcome>, f: Fold, x: Context)
      : Result<seq<Bet>, BacktestError>
  {
    if accepted == [] then Ok([])
    else
      match SingleBets(accepted[..|accepted| - 1], settlements, f, x)
      case Err(e) => Err(e)
      case Ok(bets) =>
        match SingleBet(accepted[|accepted| - 1], settlements, f, x)
        case Err(e) => Err(e)
        case Ok(bet) => Ok(bets + [bet])
  }

  function LegsOf(c: C.Combination, settlements: map<string, Outcome>): seq<Leg> {
    seq(|c.legs|, i requires 0 <= i < |c.legs| => Leg(c.legs[i].odds, Lookup(settlements, c.legs[i].id)))
  }

  /** The one value, or "multiple". */
  function SingleOrMultiple(values: set<string>): string {
    if |values| == 1 then Only(values) else "multiple"
  }

  function Only(values: set<string>): string
    requires |values| == 1
  {
    OnlyOne(values);
    var v :| v in values;
    v
  }

  lemma OnlyOne(values: set<string>)
    requires |values| == 1
    ensures exists v :: v in values
    ensures forall v, w :: v in values && w in values ==> v == w
  {
    var v :| v in values;
    assert |values - {v}| == 0;
    assert values == {v};
  }

  function EdgeOfLeg(o: Opportunity): real { o.edge }

  /** The bet of a settled combination. */
  function BetFrom(c: C.Combination, s: SettledCombination, f: Fold, x: Context): Bet {
    Bet(x.betId(CombinationIdentity(x.strategy.id, f.id, c.id)), f.id, Multiple, Ids(c.legs), s.odds, s.outcome, 1.0,
        s.profit,
        Some(c.earliestStart), SingleOrMultiple(set l | l in c.legs :: l.selection.market.sport),
        SingleOrMultiple(set l | l in c.legs :: l.selection.market.key),
        SingleOrMultiple(set l | l in c.legs :: l.providerId),
        c.joint, if c.legs == [] then 0.0 else SumBy(c.legs, EdgeOfLeg) / |c.legs| as real, c.expectedValue)
  }

  function CombinationBet(c: C.Combination, settlements: map<string, Outcome>, f: Fold, x: Context)
      : Result<Bet, BacktestError>
  {
    match CombinationSettlement(LegsOf(c, settlements))
    case Err(e) => Err(SettlementFailed(e))
    case Ok(s) => Ok(BetFrom(c, s, f, x))
  }

  function CombinationBets(combinations: seq<C.Combination>, settlements: map<string, Outcome>, f: Fold, x: Context)
    : Result<seq<Bet>, BacktestError>
  {
    if combinations == [] then Ok([])
    else
      match CombinationBets(combinations[..|combinations| - 1], settlements, f, x)
      case Err(e) => Err(e)
      case Ok(bets) =>
        match CombinationBet(combinations[|combinations| - 1], settlements, f, x)
        case Err(e) => Err(e)
        case Ok(bet) => Ok(bets + [bet])
  }

  /** The combinations the fold's strategy builds from the accepted opportunities, and the leg sets it rejects. */
  ghost function BuildFrom(accepted: seq<Opportunity>, x: Context): B.BuildResult
    requires x.Valid() && x.strategy.combinations
  {
    B.BuildOf(accepted, x.strategy.rules.value, x.bounds, B.SyntheticContract, x.combinationId)
  }

  ghost function Built(accepted: seq<Opportunity>, x: Context): seq<C.Combination>
    requires x.Valid() && x.strategy.combinations
  {
    BuildFrom(accepted, x).combinations
  }

  /** The bets of a fold whose candidates passed the checks: singles first, then combinations. */
  ghost function BetsOf(f: FoldInput, x: Context): Result<seq<Bet>, BacktestError>
    requires x.Valid()
  {
    var accepted := S.SearchOf(OpportunitiesOf(f.candidates), x.strategy.filter).accepted;
    var settlements := Settlements(f.candidates);
    var singles := if x.strategy.singles then SingleBets(accepted, settlements, f.fold, x) else Ok([]);
    if singles.Err? then singles
    else
      var combinations := if x.strategy.combinations then CombinationBets(Built(accepted, x), settlements, f.fold, x)
                          else Ok([]);
      if combinations.Err? then combinations else Ok(singles.value + combinations.value)
  }

  ghost function TrailOf(f: FoldInput, x: Context): Trail
    requires x.Valid()
  {
    var search := S.SearchOf(OpportunitiesOf(f.candidates), x.strategy.filter);
    if x.strategy.combinations then
      var build := BuildFrom(search.accepted, x);
      Trail(search.decisions, search.rejected, build.combinations, build.rejections)
    else Trail(search.decisions, search.rejected, [], [])
  }

  /** One fold of the run, after the folds before it. */
  ghost function FoldOf(f: FoldInput, x: Context, before: FoldRun): Result<FoldRun, BacktestError>
    requires x.Valid()
  {
    var error := ScanError(f.candidates, f.fold, x.strategy.mode, before.seen);
    if error.Some? then Err(error.value)
    else
      match BetsOf(f, x)
      case Err(e) => Err(e)
      case Ok(bets) => Ok(FoldRun(before.seen + CandidateIds(f.candidates), before.bets + bets,
                                  before.trail.Then(TrailOf(f, x))))
  }

  ghost function FoldsOf(folds: seq<FoldInput>, x: Context): Result<FoldRun, BacktestError>
    requires x.Valid()
  {
    if folds == [] then Ok(FoldRun({}, [], NO_TRAIL))
    else
      match FoldsOf(folds[..|folds| - 1], x)
      case Err(e) => Err(e)
      case Ok(before) => FoldOf(folds[|folds| - 1], x, before)
  }

  /**
   * The whole run, up to its metrics: the bets in chronological order and the trail fold by fold, or the first error.
   */
  ghost function RunOf(folds: seq<FoldInput>, x: Context): Result<Settled, BacktestError>
    requires x.Valid()
  {
    var ordered := Ordering.SortBy(folds, FoldLe);
    if folds == [] then Err(NoFolds)
    else if !Ordering.NoDuplicates(FoldIds(ordered)) then Err(DuplicateFoldIds)
    else if !Advancing(ordered) then Err(FoldsNotAdvancing)
    else if !Disjoint(ordered) then Err(OverlappingEvents)
    else
      match FoldsOf(ordered, x)
      case Err(e) => Err(e)
      case Ok(run) => Ok(Settled(Chronological(run.bets), run.trail))
  }

  /* ---------- The engine ---------- */

  /** _validate_non_overlapping_test_events */
  method CheckOverlaps(folds: seq<FoldInput>) returns (disjoint: bool)
    ensures disjoint == Disjoint(folds)
  {
    hide Overlap;
    for i := 0 to |folds|
      invariant Disjoint(folds[..i])
    {
      for j := 0 to i
        invariant forall k :: 0 <= k < j ==> !Overlap(folds[k], folds[i])
      {
        if Overlap(folds[j], folds[i]) {
          return false;
        }
      }
      DisjointStep(folds, i);
    }
    assert folds[..|folds|] == folds;
    disjoint := true;
  }

  lemma DisjointStep(folds: seq<FoldInput>, i: nat)
    requires i < |folds| && Disjoint(folds[..i]) && forall k :: 0 <= k < i ==> !Overlap(folds[k], folds[i])
    ensures Disjoint(folds[..i + 1])
  {
    hide Overlap;
    var more, fewer := folds[..i + 1], folds[..i];
    forall a, b | 0 <= a < b < |more| ensures !Overlap(more[a], more[b]) {
      assert b < i ==> more[a] == fewer[a] && more[b] == fewer[b];
    }
  }

  /** One candidate more. */
  lemma CandidateStep(candidates: seq<Candidate>, i: nat)
    requires i < |candidates|
    ensures CandidateIds(candidates[..i + 1]) == CandidateIds(candidates[..i]) + {candidates[i].opportunity.id}
    ensures Settlements(candidates[..i + 1]) ==
            Settlements(candidates[..i])[candidates[i].opportunity.id := candidates[i].outcome]
    ensures OpportunitiesOf(candidates[..i + 1]) == OpportunitiesOf(candidates[..i]) + [candidates[i].opportunity]
  {
    TakeStep(candidates, i);
    assert candidates[..i + 1] == candidates[..i] + [candidates[i]];
  }

  lemma ScanStep(candidates: seq<Candidate>, i: nat, f: Fold, mode: Mode, seen: set<string>)
    requires i < |candidates|
    ensures ScanError(candidates[i..], f, mode, seen) ==
            var error := CandidateError(candidates[i], f, mode, seen);
            if error.Some? then error
            else ScanError(candidates[i + 1..], f, mode, seen + {candidates[i].opportunity.id})
  {
    hide CandidateError;
    assert candidates[i..][1..] == candidates[i + 1..];
  }

  /** The candidate loop of a fold. */
  method ScanCandidates(f: FoldInput, mode: Mode, seen0: set<string>)
    returns (error: Option<BacktestError>, seen: set<string>, settlements: map<string, Outcome>,
             opportunities: seq<Opportunity>)
    ensures error == ScanError(f.candidates, f.fold, mode, seen0)
    ensures error.None? ==> seen == seen0 + CandidateIds(f.candidates)
    ensures error.None? ==> settlements == Settlements(f.candidates) && opportunities == OpportunitiesOf(f.candidates)
  {
    hide CandidateError, ScanError, Settlements, OpportunitiesOf, CandidateIds;
    seen, settlements, opportunities := seen0, map[], [];
    NoCandidates(f.candidates, f.fold, mode, seen);
    for i := 0 to |f.candidates|
      invariant ScanError(f.candidates, f.fold, mode, seen0) == ScanError(f.candidates[i..], f.fold, mode, seen)
      invariant seen == seen0 + CandidateIds(f.candidates[..i])
      invariant settlements == Settlements(f.candidates[..i]) && opportunities == OpportunitiesOf(f.candidates[..i])
    {
      var c := f.candidates[i];
      ScanStep(f.candidates, i, f.fold, mode, seen);
      error := CandidateError(c, f.fold, mode, seen);
      if error.Some? {
        return;
      }
      CandidateStep(f.candidates, i);
      seen := seen + {c.opportunity.id};
      settlements := settlements[c.opportunity.id := c.outcome];
      opportunities := opportunities + [c.opportunity];
    }
    NoCandidates(f.candidates, f.fold, mode, seen);
    error := None;
  }

  lemma NoCandidates(candidates: seq<Candidate>, f: Fold, mode: Mode, seen: set<string>)
    ensures candidates[0..] == candidates && candidates[..|candidates|] == candidates && candidates[..0] == []
    ensures CandidateIds([]) == {} && Settlements([]) == map[] && OpportunitiesOf([]) == []
    ensures ScanError(candidates[|candidates|..], f, mode, seen).None?
  {
  }

  method SettleSingles(accepted: seq<Opportunity>, settlements: map<string, Outcome>, f: Fold, x: Context)
    returns (r: Result<seq<Bet>, BacktestError>)
    ensures r == SingleBets(accepted, settlements, f, x)
  {
    hide SingleBet;
    var bets := [];
    for i := 0 to |accepted|
      invariant SingleBets(accepted[..i], settlements, f, x) == Ok(bets)
    {
      TakeStep(accepted, i);
      var bet := SingleBet(accepted[i], settlements, f, x);
      if bet.Err? {
        SinglesFail(accepted, i + 1, settlements, f, x);
        return Err(bet.error);
      }
      bets := bets + [bet.value];
    }
    assert accepted[..|accepted|] == accepted;
    r := Ok(bets);
  }

  /** The first failing bet decides the error of the whole loop. */
  lemma {:induction false} SinglesFail(accepted: seq<Opportunity>, n: nat, settlements: map<string, Outcome>, f: Fold,
                                       x: Context)
    requires n <= |accepted| && SingleBets(accepted[..n], settlements, f, x).Err?
    ensures SingleBets(accepted, settlements, f, x) == SingleBets(accepted[..n], settlements, f, x)
    decreases |accepted| - n
  {
    hide SingleBet;
    if n < |accepted| {
      TakeStep(accepted, n);
      SinglesFail(accepted, n + 1, settlements, f, x);
    } else {
      assert accepted[..n] == accepted;
    }
  }

  method SettleCombinations(combinations: seq<C.Combination>, settlements: map<string, Outcome>, f: Fold, x: Context)
    returns (r: Result<seq<Bet>, BacktestError>)
    ensures r == CombinationBets(combinations, settlements, f, x)
  {
    hide CombinationSettlement, LegsOf, BetFrom;
    var bets := [];
    for i := 0 to |combinations|
      invariant CombinationBets(combinations[..i], settlements, f, x) == Ok(bets)
    {
      TakeStep(combinations, i);
      var settled := SettleCombination(LegsOf(combinations[i], settlements));
      if settled.Err? {
        CombinationsFail(combinations, i + 1, settlements, f, x);
        return Err(SettlementFailed(settled.error));
      }
      bets := bets + [BetFrom(combinations[i], settled.value, f, x)];
    }
    assert combinations[..|combinations|] == combinations;
    r := Ok(bets);
  }

  lemma {:induction false} CombinationsFail(combinations: seq<C.Combination>, n: nat, settlements: map<string, Outcome>,
                                            f: Fold, x: Context)
    requires n <= |combinations| && CombinationBets(combinations[..n], settlements, f, x).Err?
    ensures CombinationBets(combinations, settlements, f, x) == CombinationBets(combinations[..n], settlements, f, x)
    decreases |combinations| - n
  {
    hide CombinationBet;
    if n < |combinations| {
      TakeStep(combinations, n);
      CombinationsFail(combinations, n + 1, settlements, f, x);
    } else {
      assert combinations[..n] == combinations;
    }
  }

  /** A scan without error sees every identifier for the first time. */
  lemma {:induction false} ScannedAreClean(candidates: seq<Candidate>, f: Fold, mode: Mode, seen: set<string>)
    requires ScanError(candidates, f, mode, seen).None?
    ensures forall c <- candidates :: Clean(c.opportunity, f)
    ensures CandidateIds(candidates) !! seen
    ensures DistinctIds(OpportunitiesOf(candidates))
  {
    hide DistinctIds, OpportunitiesOf;
    if candidates == [] {
      NothingRepeated();
    } else {
      var first, rest := candidates[0], candidates[1..];
      ScannedAreClean(rest, f, mode, seen + {first.opportunity.id});
      assert candidates == [first] + rest;
      assert CandidateIds(candidates) == {first.opportunity.id} + CandidateIds(rest);
      FirstIsNew(candidates);
    }
  }

  lemma NothingRepeated()
    ensures DistinctIds(OpportunitiesOf([]))
  {
  }

  lemma FirstIsNew(candidates: seq<Candidate>)
    requires candidates != [] && DistinctIds(OpportunitiesOf(candidates[1..]))
    requires candidates[0].opportunity.id !in CandidateIds(candidates[1..])
    ensures DistinctIds(OpportunitiesOf(candidates))
  {
    var rest := candidates[1..];
    var ids, tail := Ids(OpportunitiesOf(candidates)), Ids(OpportunitiesOf(rest));
    forall i, j | 0 <= i < j < |ids| ensures ids[i] != ids[j] {
      assert ids[j] == tail[j - 1] && rest[j - 1] in rest;
      assert i > 0 ==> ids[i] == tail[i - 1];
    }
  }

  method RunFold(f: FoldInput, x: Context, before: FoldRun) returns (r: Result<FoldRun, BacktestError>)
    requires x.Valid()
    ensures r == FoldOf(f, x, before)
  {
    hide ScanError, SingleBets, CombinationBets, S.SearchOf, B.BuildOf, Settlements, CandidateIds;
    var combinations: seq<C.Combination>, combinationRejected: seq<B.Rejection> := [], [];
    var error, seen, settlements, opportunities := ScanCandidates(f, x.strategy.mode, before.seen);
    if error.Some? {
      return Err(error.value);
    }
    ScannedAreClean(f.candidates, f.fold, x.strategy.mode, before.seen);
    var search := S.FilterAndRank(opportunities, x.strategy.filter);
    var singles: seq<Bet>, multiples: seq<Bet> := [], [];
    if x.strategy.singles {
      var settled := SettleSingles(search.value.accepted, settlements, f.fold, x);
      if settled.Err? {
        return Err(settled.error);
      }
      singles := settled.value;
    }
    if x.strategy.combinations {
      S.AcceptedIdsDistinct(opportunities, x.strategy.filter);
      var build := B.BuildCombinations(search.value.accepted, x.strategy.rules.value, x.bounds, B.SyntheticContract,
                                       x.combinationId);
      var settled := SettleCombinations(build.value.combinations, settlements, f.fold, x);
      if settled.Err? {
        return Err(settled.error);
      }
      multiples := settled.value;
      combinations, combinationRejected := build.value.combinations, build.value.rejections;
    }
    var trail := Trail(search.value.decisions, search.value.rejected, combinations, combinationRejected);
    r := Ok(FoldRun(seen, before.bets + (singles + multiples), before.trail.Then(trail)));
  }

  lemma {:induction false} FoldsFail(folds: seq<FoldInput>, n: nat, x: Context)
    requires x.Valid() && n <= |folds| && FoldsOf(folds[..n], x).Err?
    ensures FoldsOf(folds, x) == FoldsOf(folds[..n], x)
    decreases |folds| - n
  {
    hide FoldOf;
    if n < |folds| {
      TakeStep(folds, n);
      FoldsFail(folds, n + 1, x);
    } else {
      assert folds[..n] == folds;
    }
  }

  /** run_backtest: the settled bets, the trail and the metrics */
  method RunBacktest(folds: seq<FoldInput>, x: Context) returns (r: Result<(Settled, Metrics), BacktestError>)
    requires x.Valid()
    ensures r.Err? <==> RunOf(folds, x).Err?
    ensures r.Err? ==> r.error == RunOf(folds, x).error
    ensures r.Ok? ==> r.value.0 == RunOf(folds, x).value && MetricsOf(r.value.0.bets, r.value.1)
  {
    hide FoldOf, Disjoint, Ordering.SortBy, MetricsOf, Chronological;
    if folds == [] {
      return Err(NoFolds);
    }
    var ordered := Ordering.SortBy(folds, FoldLe);
    Ordering.SetSize(FoldIds(ordered));
    if |set i | i in FoldIds(ordered)| != |ordered| {
      return Err(DuplicateFoldIds);
    }
    for i := 1 to |ordered|
      invariant Advancing(ordered[..i])
    {
      if ordered[i].fold.testStart <= ordered[i - 1].fold.testStart {
        return Err(FoldsNotAdvancing);
      }
    }
    assert ordered[..|ordered|] == ordered;
    var disjoint := CheckOverlaps(ordered);
    if !disjoint {
      return Err(OverlappingEvents);
    }
    var run := FoldRun({}, [], NO_TRAIL);
    for i := 0 to |ordered|
      invariant FoldsOf(ordered[..i], x) == Ok(run)
    {
      TakeStep(ordered, i);
      var step := RunFold(ordered[i], x, run);
      if step.Err? {
        FoldsFail(ordered, i + 1, x);
        return Err(step.error);
      }
      run := step.value;
    }
    var bets := Chronological(run.bets);
    var metrics := CalculateMetrics(bets);
    r := Ok((Settled(bets, run.trail), metrics));
  }
}
