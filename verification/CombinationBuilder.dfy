/** Bounded combination construction with early pruning (combinations/builder.py). */
module CombinationBuilder {
  import opened Wrappers
  import Ordering
  import opened Subsets
  import opened Aggregates
  import opened Opportunities
  import opened CombinationContracts

  datatype EvidenceMode = SyntheticContract | TrustedVerified

  /** Hard limits on the work of one build. */
  datatype Bounds = Bounds(maxCandidates: int, maxEvaluated: int, maxResults: int) {
    predicate Valid() {
      maxCandidates >= 1 && maxEvaluated >= 1 && maxResults >= 1
    }
  }

  datatype Rejection = Rejection(ids: seq<string>, reason: CombinationError)

  datatype BuildResult = BuildResult(combinations: seq<Combination>, rejections: seq<Rejection>,
                                     candidatesConsidered: nat, evaluated: nat, truncated: bool)

  datatype BuildError = DuplicateOpportunity(id: string)

  function Min(a: int, b: int): int {
    if a <= b then a else b
  }

  /** The leg loop of the early check, from running odds `odds` on. */
  function EarlyLegReason(legs: seq<Opportunity>, odds: real, rules: Rules, mode: EvidenceMode)
    : Option<CombinationError>
  {
    if legs == [] then None
    else if mode.TrustedVerified? && !legs[0].qualityPassed then Some(FailedPredictionQuality)
    else if legs[0].evaluationMode != LiveSafe then Some(BenchmarkLeg)
    else if !(rules.legMinOdds <= legs[0].odds <= rules.legMaxOdds) then Some(LegOddsOutOfRange)
    else if Times(odds, legs[0].odds) > rules.maxOdds then Some(CombinedOddsOutOfRange)
    else EarlyLegReason(legs[1..], Times(odds, legs[0].odds), rules, mode)
  }

  function EarlyReason(legs: seq<Opportunity>, rules: Rules, mode: EvidenceMode): Option<CombinationError>
    requires legs != []
  {
    if EarlyLegReason(legs, 1.0, rules, mode).Some? then EarlyLegReason(legs, 1.0, rules, mode)
    else if MaxBy(legs, StartOf) - MinBy(legs, StartOf) > rules.maxHorizon then Some(HorizonExceeded)
    else FirstPairError(PairsOf(legs))
  }

  method EarlyRejectionReason(legs: seq<Opportunity>, rules: Rules, mode: EvidenceMode)
    returns (r: Option<CombinationError>)
    requires legs != []
    ensures r == EarlyReason(legs, rules, mode)
  {
    hide MinBy, MaxBy, PairsOf, FirstPairError, Times;
    var odds := 1.0;
    for i := 0 to |legs|
      invariant EarlyLegReason(legs, 1.0, rules, mode) == EarlyLegReason(legs[i..], odds, rules, mode)
    {
      var leg := legs[i];
      assert legs[i..][0] == leg && legs[i..][1..] == legs[i + 1..];
      if mode.TrustedVerified? && !leg.qualityPassed {
        return Some(FailedPredictionQuality);
      }
      if leg.evaluationMode != LiveSafe {
        return Some(BenchmarkLeg);
      }
      if !(rules.legMinOdds <= leg.odds <= rules.legMaxOdds) {
        return Some(LegOddsOutOfRange);
      }
      odds := Times(odds, leg.odds);
      if odds > rules.maxOdds {
        return Some(CombinedOddsOutOfRange);
      }
    }
    if MaxBy(legs, StartOf) - MinBy(legs, StartOf) > rules.maxHorizon {
      return Some(HorizonExceeded);
    }
    var pairs;
    pairs, r := ClassifyPairs(legs);
  }

  /* ---------- Pruning loses nothing ---------- */

  /** Trusted construction refuses legs whose prediction failed its quality check. */
  ghost predicate Admissible(legs: seq<Opportunity>, mode: EvidenceMode) {
    mode.TrustedVerified? ==> forall x :: x in legs ==> x.qualityPassed
  }

  lemma {:induction false} EarlyLegReasonSound(legs: seq<Opportunity>, i: nat, rules: Rules, mode: EvidenceMode)
    requires rules.Valid() && i <= |legs|
    requires AllEligible(legs, rules) && Admissible(legs, mode)
    requires ProductBy(legs, OddsOf) <= rules.maxOdds
    ensures EarlyLegReason(legs[i..], ProductBy(legs[..i], OddsOf), rules, mode).None?
    decreases |legs| - i
  {
    hide Times;
    if i < |legs| {
      assert legs[i..][0] == legs[i] && legs[i..][1..] == legs[i + 1..] && legs[i] in legs;
      TakeStep(legs, i);
      assert ProductBy(legs[..i + 1], OddsOf) == Times(ProductBy(legs[..i], OddsOf), legs[i].odds);
      assert forall x :: x in legs ==> OddsOf(x) >= 1.0;
      PrefixProduct(legs, i + 1, OddsOf);
      EarlyLegReasonSound(legs, i + 1, rules, mode);
    }
  }

  lemma {:induction false} EarlyCatchesInadmissible(legs: seq<Opportunity>, odds: real, rules: Rules,
                                                    mode: EvidenceMode)
    requires !Admissible(legs, mode)
    ensures EarlyLegReason(legs, odds, rules, mode).Some?
  {
    hide Times;
    if legs[0].qualityPassed {
      assert legs == [legs[0]] + legs[1..];
      EarlyCatchesInadmissible(legs[1..], Times(odds, legs[0].odds), rules, mode);
    }
  }

  /** A leg set the early check rejects is one that full validation, or the trusted mode, rejects. */
  lemma PruningIsLossless(legs: seq<Opportunity>, rules: Rules, mode: EvidenceMode)
    requires rules.Valid() && legs != []
    ensures EarlyReason(legs, rules, mode).Some? ==> !(Acceptable(legs, rules) && Admissible(legs, mode))
    ensures !Admissible(legs, mode) ==> EarlyReason(legs, rules, mode).Some?
  {
    hide MinBy, MaxBy, PairsOf, FirstPairError, Times, EarlyLegReason, AllEligible, PairwiseSeparate, DistinctIds;
    if !Admissible(legs, mode) {
      EarlyCatchesInadmissible(legs, 1.0, rules, mode);
    } else if Acceptable(legs, rules) {
      assert legs[0..] == legs && ProductBy(legs[..0], OddsOf) == 1.0;
      EarlyLegReasonSound(legs, 0, rules, mode);
      TimesMeaning(legs, rules.maxHorizon);
      PairsOfSeparate(legs);
    }
  }

  /* ---------- The build ---------- */

  function SortedIds(legs: seq<Opportunity>): seq<string> {
    Ordering.SortBy(Ids(legs), Ordering.StrLe)
  }

  /** What the builder decides for one leg tuple: early check first, then validation. */
  ghost function Outcome(legs: seq<Opportunity>, rules: Rules, mode: EvidenceMode, digest: Payload -> string)
    : Result<Combination, CombinationError>
    requires rules.Valid() && legs != []
  {
    if EarlyReason(legs, rules, mode).Some? then Err(EarlyReason(legs, rules, mode).value)
    else Validated(legs, rules, digest)
  }

  /** What a builder without early checks would decide: validate every admissible tuple. */
  ghost function NaiveOutcome(legs: seq<Opportunity>, rules: Rules, mode: EvidenceMode, digest: Payload -> string)
    : Result<Combination, CombinationError>
    requires rules.Valid() && legs != []
  {
    if !Admissible(legs, mode) then Err(FailedPredictionQuality) else Validated(legs, rules, digest)
  }

  /** Both builders agree on which tuples become combinations, and on the combinations. */
  lemma OutcomeIsNaive(legs: seq<Opportunity>, rules: Rules, mode: EvidenceMode, digest: Payload -> string)
    requires rules.Valid() && legs != []
    ensures var fast, naive := Outcome(legs, rules, mode, digest), NaiveOutcome(legs, rules, mode, digest);
            (fast.Ok? || naive.Ok?) ==> fast == naive
  {
    hide Validated, EarlyReason, Acceptable, Admissible;
    PruningIsLossless(legs, rules, mode);
    ValidationMeaning(legs, rules, digest);
  }

  ghost predicate NonEmptyTuples(ts: seq<seq<Opportunity>>) {
    forall t :: t in ts ==> t != []
  }

  lemma TakeNonEmpty(ts: seq<seq<Opportunity>>, n: nat)
    requires NonEmptyTuples(ts) && n <= |ts|
    ensures NonEmptyTuples(ts[..n])
    ensures n < |ts| ==> ts[n] != []
  {
    if n < |ts| { assert ts[n] in ts; }
    assert forall t :: t in ts[..n] ==> t in ts;
  }

  /** The combinations a builder without early checks collects, in visiting order. */
  ghost function NaiveBuilt(ts: seq<seq<Opportunity>>, rules: Rules, mode: EvidenceMode, digest: Payload -> string)
    : (r: seq<Combination>)
    requires rules.Valid() && NonEmptyTuples(ts)
    ensures |r| <= |ts|
  {
    if ts == [] then []
    else
      var n := |ts| - 1;
      TakeNonEmpty(ts, n);
      var before := NaiveBuilt(ts[..n], rules, mode, digest);
      match NaiveOutcome(ts[n], rules, mode, digest)
      case Ok(c) => before + [c]
      case Err(_) => before
  }

  ghost function RejectionsOf(ts: seq<seq<Opportunity>>, rules: Rules, mode: EvidenceMode, digest: Payload -> string)
    : seq<Rejection>
    requires rules.Valid() && NonEmptyTuples(ts)
  {
    if ts == [] then []
    else
      var n := |ts| - 1;
      TakeNonEmpty(ts, n);
      var before := RejectionsOf(ts[..n], rules, mode, digest);
      match Outcome(ts[n], rules, mode, digest)
      case Ok(_) => before
      case Err(reason) => before + [Rejection(SortedIds(ts[n]), reason)]
  }

  lemma ExtendVisited(ts: seq<seq<Opportunity>>, t: seq<Opportunity>, rules: Rules, mode: EvidenceMode,
                      digest: Payload -> string)
    requires rules.Valid() && NonEmptyTuples(ts) && t != []
    ensures NonEmptyTuples(ts + [t])
    ensures var outcome := Outcome(t, rules, mode, digest);
            && NaiveBuilt(ts + [t], rules, mode, digest) ==
               NaiveBuilt(ts, rules, mode, digest) + (if outcome.Ok? then [outcome.value] else [])
            && RejectionsOf(ts + [t], rules, mode, digest) ==
               RejectionsOf(ts, rules, mode, digest) + (if outcome.Err? then [Rejection(SortedIds(t), outcome.error)]
                                                        else [])
  {
    hide Outcome, NaiveOutcome, SortedIds;
    var extended := ts + [t];
    assert extended[..|extended| - 1] == ts && extended[|extended| - 1] == t;
    OutcomeIsNaive(t, rules, mode, digest);
  }

  /** _combination_rank_key: greater expected value first, then identifier. */
  predicate CombinationLe(a: Combination, b: Combination) {
    a.expectedValue > b.expectedValue || (a.expectedValue == b.expectedValue && Ordering.StrLe(a.id, b.id))
  }

  function CandidatesOf(opportunities: seq<Opportunity>, rules: Rules, bounds: Bounds): (r: seq<Opportunity>)
    requires rules.Valid() && bounds.Valid()
  {
    var ranked := Ordering.SortBy(opportunities, RankOrder(ByExpectedValue));
    ranked[..Min(Min(bounds.maxCandidates, rules.maxCandidates), |opportunities|)]
  }

  function TuplesOf(candidates: seq<Opportunity>, rules: Rules): seq<seq<Opportunity>>
    requires rules.Valid()
  {
    AllCombos(candidates, rules.minLegs, rules.maxLegs)
  }

  lemma TuplesNonEmpty(candidates: seq<Opportunity>, lo: nat, hi: int)
    requires lo >= 1
    ensures NonEmptyTuples(AllCombos(candidates, lo, hi))
  {
    forall t | t in AllCombos(candidates, lo, hi) ensures t != [] {
      AllCombosComplete(candidates, lo, hi, t);
    }
  }

  /** The tuples visited before the evaluation limit stops the enumeration. */
  ghost function VisitedOf(candidates: seq<Opportunity>, rules: Rules, bounds: Bounds): (r: seq<seq<Opportunity>>)
    requires rules.Valid() && bounds.Valid()
    ensures NonEmptyTuples(r)
  {
    var all := TuplesOf(candidates, rules);
    TuplesNonEmpty(candidates, rules.minLegs, rules.maxLegs);
    TakeNonEmpty(all, Min(Min(bounds.maxEvaluated, rules.maxEvaluated), |all|));
    all[..Min(Min(bounds.maxEvaluated, rules.maxEvaluated), |all|)]
  }

  /** The result, stated with the naive builder. */
  ghost function BuildOf(opportunities: seq<Opportunity>, rules: Rules, bounds: Bounds, mode: EvidenceMode,
                         digest: Payload -> string): BuildResult
    requires rules.Valid() && bounds.Valid()
  {
    var candidates := CandidatesOf(opportunities, rules, bounds);
    var visited := VisitedOf(candidates, rules, bounds);
    var built := NaiveBuilt(visited, rules, mode, digest);
    var limit := Min(bounds.maxResults, rules.maxOutputs);
    BuildResult(
      Ordering.SortBy(built, CombinationLe)[..Min(limit, |built|)],
      RejectionsOf(visited, rules, mode, digest),
      |candidates|,
      |visited|,
      |candidates| < |opportunities| || |visited| < |TuplesOf(candidates, rules)| || |built| > limit)
  }

  method BuildCombinations(opportunities: seq<Opportunity>, rules: Rules, bounds: Bounds, mode: EvidenceMode,
                           digest: Payload -> string) returns (r: Result<BuildResult, BuildError>)
    requires rules.Valid() && bounds.Valid()
    ensures r.Ok? <==> DistinctIds(opportunities)
    ensures r.Err? ==> exists i :: FirstRepeat(opportunities, i) && opportunities[i].id == r.error.id
    ensures r.Ok? ==> r.value == BuildOf(opportunities, rules, bounds, mode, digest)
  {
    hide Outcome, NaiveOutcome, Ordering.SortBy, SortedIds, Validated, EarlyReason, RankOrder, FirstRepeat;
    var seen: set<string> := {};
    for i := 0 to |opportunities|
      invariant seen == set o | o in opportunities[..i] :: o.id
      invariant DistinctIds(opportunities[..i])
    {
      TakeStep(opportunities, i);
      if opportunities[i].id in seen {
        RepeatedId(opportunities, i);
        RepeatFound(opportunities, i);
        return Err(DuplicateOpportunity(opportunities[i].id));
      }
      NewId(opportunities, i);
      seen := seen + {opportunities[i].id};
    }
    assert opportunities[..|opportunities|] == opportunities;
    var evaluatedLimit := Min(bounds.maxEvaluated, rules.maxEvaluated);
    var resultLimit := Min(bounds.maxResults, rules.maxOutputs);
    var candidates := CandidatesOf(opportunities, rules, bounds);
    var built, rejected, evaluated, truncated :=
      EvaluateTuples(candidates, rules, evaluatedLimit, mode, digest);
    truncated := truncated || |opportunities| > |candidates|;
    built := Ordering.SortBy(built, CombinationLe);
    if |built| > resultLimit {
      truncated := true;
      built := built[..resultLimit];
    }
    return Ok(BuildResult(built, rejected, |candidates|, evaluated, truncated));
  }

  lemma NextLegCount(candidates: seq<Opportunity>, legCount: nat, most: int)
    requires legCount >= 1
    ensures legCount <= most ==>
              AllCombos(candidates, legCount, most) ==
              Combos(candidates, legCount) + AllCombos(candidates, legCount + 1, most)
    ensures legCount > most ==> AllCombos(candidates, legCount, most) == []
    ensures NonEmptyTuples(Combos(candidates, legCount))
  {
    TuplesNonEmpty(candidates, legCount, legCount);
    assert AllCombos(candidates, legCount + 1, legCount) == [];
    assert AllCombos(candidates, legCount, legCount) == Combos(candidates, legCount);
  }

  lemma FirstLegCount(candidates: seq<Opportunity>, rules: Rules)
    requires rules.Valid()
    ensures TuplesOf(candidates, rules) == [] + AllCombos(candidates, rules.minLegs, rules.maxLegs)
  {
  }

  lemma NothingVisited(rules: Rules, mode: EvidenceMode, digest: Payload -> string)
    requires rules.Valid()
    ensures NonEmptyTuples([])
    ensures NaiveBuilt([], rules, mode, digest) == [] && RejectionsOf([], rules, mode, digest) == []
  {
  }

  /** The inner enumeration loop, over the tuples of one leg count; it stops at the evaluation limit. */
  method EvaluateLegCount(tuples: seq<seq<Opportunity>>, built0: seq<Combination>, rejected0: seq<Rejection>,
                          evaluated0: nat, limit: int, rules: Rules, mode: EvidenceMode, digest: Payload -> string,
                          ghost before: seq<seq<Opportunity>>)
    returns (built: seq<Combination>, rejected: seq<Rejection>, evaluated: nat, stop: bool)
    requires rules.Valid() && NonEmptyTuples(before) && NonEmptyTuples(tuples) && evaluated0 == |before| <= limit
    requires built0 == NaiveBuilt(before, rules, mode, digest)
    requires rejected0 == RejectionsOf(before, rules, mode, digest)
    ensures evaluated == Min(limit, |before + tuples|) && stop == (limit < |before + tuples|)
    ensures NonEmptyTuples((before + tuples)[..evaluated])
    ensures built == NaiveBuilt((before + tuples)[..evaluated], rules, mode, digest)
    ensures rejected == RejectionsOf((before + tuples)[..evaluated], rules, mode, digest)
  {
    hide Outcome, SortedIds, NaiveBuilt, RejectionsOf;
    built, rejected, evaluated := built0, rejected0, evaluated0;
    ghost var all := before + tuples;
    assert all[..|before|] == before;
    for t := 0 to |tuples|
      invariant evaluated == |before| + t <= limit
      invariant NonEmptyTuples(all[..evaluated])
      invariant built == NaiveBuilt(all[..evaluated], rules, mode, digest)
      invariant rejected == RejectionsOf(all[..evaluated], rules, mode, digest)
    {
      if evaluated >= limit {
        stop := true;
        return;
      }
      assert tuples[t] in tuples && all[..evaluated + 1] == all[..evaluated] + [tuples[t]];
      ExtendVisited(all[..evaluated], tuples[t], rules, mode, digest);
      evaluated := evaluated + 1;
      var outcome := EvaluateTuple(tuples[t], rules, mode, digest);
      match outcome {
        case Ok(combination) => built := built + [combination];
        case Err(reason) => rejected := rejected + [Rejection(SortedIds(tuples[t]), reason)];
      }
    }
    stop := false;
  }

  /** The enumeration over leg counts; `truncated` reports that the evaluation limit stopped it. */
  method EvaluateTuples(candidates: seq<Opportunity>, rules: Rules, limit: int, mode: EvidenceMode,
                        digest: Payload -> string)
    returns (built: seq<Combination>, rejected: seq<Rejection>, evaluated: nat, truncated: bool)
    requires rules.Valid() && limit >= 1
    ensures var all := TuplesOf(candidates, rules);
            && evaluated == Min(limit, |all|)
            && truncated == (limit < |all|)
            && NonEmptyTuples(all[..evaluated])
            && built == NaiveBuilt(all[..evaluated], rules, mode, digest)
            && rejected == RejectionsOf(all[..evaluated], rules, mode, digest)
  {
    hide Outcome, SortedIds, Combos, AllCombos, NaiveBuilt, RejectionsOf, NonEmptyTuples;
    built, rejected, evaluated, truncated := [], [], 0, false;
    NothingVisited(rules, mode, digest);
    hide TuplesOf;
    ghost var all, visited := TuplesOf(candidates, rules), [];
    FirstLegCount(candidates, rules);
    var legCount := rules.minLegs;
    while legCount <= rules.maxLegs && !truncated
      invariant rules.minLegs <= legCount <= rules.maxLegs + 1
      invariant all == visited + AllCombos(candidates, legCount, rules.maxLegs)
      invariant evaluated == Min(limit, |visited|) && truncated == (limit < |visited|)
      invariant NonEmptyTuples(visited[..evaluated])
      invariant built == NaiveBuilt(visited[..evaluated], rules, mode, digest)
      invariant rejected == RejectionsOf(visited[..evaluated], rules, mode, digest)
    {
      var tuples := Combos(candidates, legCount);
      NextLegCount(candidates, legCount, rules.maxLegs);
      assert visited[..evaluated] == visited;
      ghost var later := AllCombos(candidates, legCount + 1, rules.maxLegs);
      assert all == (visited + tuples) + later by { assert visited + (tuples + later) == (visited + tuples) + later; }
      built, rejected, evaluated, truncated :=
        EvaluateLegCount(tuples, built, rejected, evaluated, limit, rules, mode, digest, visited);
      visited := visited + tuples;
      legCount := legCount + 1;
    }
    ghost var unvisited := AllCombos(candidates, legCount, rules.maxLegs);
    if !truncated {
      NextLegCount(candidates, legCount, rules.maxLegs);
    }
    assert (visited + unvisited)[..evaluated] == visited[..evaluated];
  }

  method EvaluateTuple(legs: seq<Opportunity>, rules: Rules, mode: EvidenceMode, digest: Payload -> string)
    returns (r: Result<Combination, CombinationError>)
    requires rules.Valid() && legs != []
    ensures r == Outcome(legs, rules, mode, digest)
  {
    hide EarlyReason, Validated;
    var early := EarlyRejectionReason(legs, rules, mode);
    if early.Some? {
      return Err(early.value);
    }
    r := ValidateCombination(legs, rules, digest);
  }
}
