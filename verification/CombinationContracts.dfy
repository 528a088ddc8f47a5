/** Validation of exact leg sets as combinations (combinations/contracts.py). */
module CombinationContracts {
  import opened Wrappers
  import Ordering
  import opened Aggregates
  import opened Opportunities
  import opened Dependencies

  /** Independent per-leg and total-price bounds.  `policyId` is the content address of the policy. */
  datatype Rules = Rules(
    minLegs: int, maxLegs: int, legMinOdds: real, legMaxOdds: real, minOdds: real, maxOdds: real,
    policyId: string, allowedSports: set<string>, allowedMarkets: set<string>,
    minJointProbability: real, minExpectedValue: real,
    maxCandidates: int, maxEvaluated: int, maxOutputs: int, maxHorizon: int,
    allowMultipleSports: bool, allowMultipleDates: bool)
  {
    /** What constructing CombinationRules enforces. */
    predicate Valid() {
      && 2 <= minLegs <= maxLegs
      && 1.0 < legMinOdds <= legMaxOdds && 1.0 < minOdds <= maxOdds
      && policyId != "" && maxCandidates >= 1 && maxEvaluated >= 1 && maxOutputs >= 1
      && 0.0 <= minJointProbability <= 1.0 && minExpectedValue >= -1.0 && maxHorizon >= 0
    }
  }

  datatype CombinationError =
    | LegCountOutOfBounds
    | DuplicateIds
    | BenchmarkLeg
    | LegOddsOutOfRange
    | MissingQuoteTime
    | SportNotAllowed
    | MarketNotAllowed
    | ConflictingLegs(conflict: DependencyReason)
    | UnknownDependency(unknown: DependencyReason)
    | DecisionNotBeforeStart
    | CombinedOddsOutOfRange
    | MultipleSportsDisabled
    | MultipleDatesDisabled
    | HorizonExceeded
    | JointProbabilityTooLow
    | ExpectedValueTooLow
    | FailedPredictionQuality

  /** The content a combination identifier addresses. */
  datatype Payload = Payload(ids: seq<string>, odds: real, joint: real, expectedValue: real,
                             informationTime: int, policyId: string)

  datatype Combination = Combination(
    id: string, legs: seq<Opportunity>, dependencies: seq<LegDependency>, odds: real, joint: real,
    expectedValue: real, earliestStart: int, latestStart: int, informationTime: int, policyId: string)

  function OddsOf(o: Opportunity): real { o.odds }
  function ProbabilityOf(o: Opportunity): real { o.probability }
  function StartOf(o: Opportunity): int { o.eventStart }
  function DecisionOf(o: Opportunity): int { o.decisionAsOf }

  function LegError(leg: Opportunity, rules: Rules): Option<CombinationError> {
    if leg.evaluationMode != LiveSafe then Some(BenchmarkLeg)
    else if !(rules.legMinOdds <= leg.odds <= rules.legMaxOdds) then Some(LegOddsOutOfRange)
    else if leg.quotedAt.None? then Some(MissingQuoteTime)
    else if rules.allowedSports != {} && leg.selection.market.sport !in rules.allowedSports then Some(SportNotAllowed)
    else if rules.allowedMarkets != {} && leg.selection.market.key !in rules.allowedMarkets then Some(MarketNotAllowed)
    else None
  }

  function FirstLegError(legs: seq<Opportunity>, rules: Rules): Option<CombinationError> {
    if legs == [] then None
    else if LegError(legs[0], rules).Some? then LegError(legs[0], rules)
    else FirstLegError(legs[1..], rules)
  }

  function ClassifyLegs(l: Opportunity, r: Opportunity): LegDependency {
    ClassifyPair(FactsOf(l), FactsOf(r))
  }

  function PairsWith(left: Opportunity, rest: seq<Opportunity>): (r: seq<LegDependency>)
    ensures |r| == |rest| && forall j :: 0 <= j < |rest| ==> r[j] == ClassifyLegs(left, rest[j])
  {
    seq(|rest|, j requires 0 <= j < |rest| => ClassifyLegs(left, rest[j]))
  }

  /** Every unordered pair once, row by row. */
  function PairsOf(legs: seq<Opportunity>): seq<LegDependency> {
    if legs == [] then [] else PairsWith(legs[0], legs[1..]) + PairsOf(legs[1..])
  }

  function PairError(d: LegDependency): Option<CombinationError> {
    match d.classification
    case CONFLICT => Some(ConflictingLegs(d.reason))
    case UNKNOWN => Some(UnknownDependency(d.reason))
    case STRUCTURALLY_SEPARATE => None
  }

  function FirstPairError(pairs: seq<LegDependency>): Option<CombinationError> {
    if pairs == [] then None
    else if PairError(pairs[0]).Some? then PairError(pairs[0])
    else FirstPairError(pairs[1..])
  }

  function SportsOf(legs: seq<Opportunity>): set<string> {
    set x | x in legs :: x.selection.market.sport
  }

  function DatesOf(legs: seq<Opportunity>): set<int> {
    set x | x in legs :: DateOf(x.eventStart)
  }

  function CombinationOf(ordered: seq<Opportunity>, rules: Rules, digest: Payload -> string): Combination
    requires ordered != []
  {
    var odds := ProductBy(ordered, OddsOf);
    var joint := ProductBy(ordered, ProbabilityOf);
    var information := MaxBy(ordered, DecisionOf);
    Combination(digest(Payload(Ids(ordered), odds, joint, Times(joint, odds) - 1.0, information, rules.policyId)),
                ordered, PairsOf(ordered), odds, joint, Times(joint, odds) - 1.0,
                MinBy(ordered, StartOf), MaxBy(ordered, StartOf), information, rules.policyId)
  }

  function WholeError(ordered: seq<Opportunity>, rules: Rules): Option<CombinationError>
    requires ordered != []
  {
    var odds := ProductBy(ordered, OddsOf);
    var joint := ProductBy(ordered, ProbabilityOf);
    if MaxBy(ordered, DecisionOf) >= MinBy(ordered, StartOf) then Some(DecisionNotBeforeStart)
    else if !(rules.minOdds <= odds <= rules.maxOdds) then Some(CombinedOddsOutOfRange)
    else if !rules.allowMultipleSports && |SportsOf(ordered)| > 1 then Some(MultipleSportsDisabled)
    else if !rules.allowMultipleDates && |DatesOf(ordered)| > 1 then Some(MultipleDatesDisabled)
    else if MaxBy(ordered, StartOf) - MinBy(ordered, StartOf) > rules.maxHorizon then Some(HorizonExceeded)
    else if joint < rules.minJointProbability then Some(JointProbabilityTooLow)
    else if Times(joint, odds) - 1.0 < rules.minExpectedValue then Some(ExpectedValueTooLow)
    else None
  }

  /** validate_combination: the first failing check decides the error. */
  ghost function Validated(legs: seq<Opportunity>, rules: Rules, digest: Payload -> string)
    : Result<Combination, CombinationError>
    requires rules.Valid()
  {
    var ordered := Ordering.SortBy(legs, IdLe);
    if !(rules.minLegs <= |legs| <= rules.maxLegs) then Err(LegCountOutOfBounds)
    else if !DistinctIds(ordered) then Err(DuplicateIds)
    else if FirstLegError(ordered, rules).Some? then Err(FirstLegError(ordered, rules).value)
    else if FirstPairError(PairsOf(ordered)).Some? then Err(FirstPairError(PairsOf(ordered)).value)
    else if WholeError(ordered, rules).Some? then Err(WholeError(ordered, rules).value)
    else Ok(CombinationOf(ordered, rules, digest))
  }

  lemma {:induction false} FirstPairErrorAppend(a: seq<LegDependency>, b: seq<LegDependency>)
    ensures FirstPairError(a + b) == if FirstPairError(a).Some? then FirstPairError(a) else FirstPairError(b)
  {
    if a == [] {
      assert a + b == b;
    } else {
      assert (a + b)[1..] == a[1..] + b;
      FirstPairErrorAppend(a[1..], b);
    }
  }

  lemma {:induction false} NoPairError(pairs: seq<LegDependency>)
    ensures FirstPairError(pairs).None? <==> forall x :: x in pairs ==> PairError(x).None?
  {
    if pairs != [] {
      NoPairError(pairs[1..]);
      assert pairs == [pairs[0]] + pairs[1..];
    }
  }

  method CheckLegs(ordered: seq<Opportunity>, rules: Rules) returns (r: Option<CombinationError>)
    ensures r == FirstLegError(ordered, rules)
  {
    for i := 0 to |ordered|
      invariant FirstLegError(ordered, rules) == FirstLegError(ordered[i..], rules)
    {
      if LegError(ordered[i], rules).Some? {
        return LegError(ordered[i], rules);
      }
      assert ordered[i..][1..] == ordered[i + 1..];
    }
    return None;
  }

  method ClassifyRow(left: Opportunity, rest: seq<Opportunity>)
    returns (dependencies: seq<LegDependency>, r: Option<CombinationError>)
    ensures r == FirstPairError(PairsWith(left, rest))
    ensures r.None? ==> dependencies == PairsWith(left, rest)
  {
    dependencies := [];
    ghost var pairs := PairsWith(left, rest);
    for j := 0 to |rest|
      invariant dependencies == pairs[..j]
      invariant FirstPairError(pairs) == FirstPairError(pairs[j..])
    {
      hide PairError, ClassifyLegs;
      var relation := ClassifyLegs(left, rest[j]);
      if PairError(relation).Some? {
        return dependencies, PairError(relation);
      }
      assert pairs[j..][1..] == pairs[j + 1..];
      dependencies := dependencies + [relation];
    }
    r := None;
  }

  method ClassifyPairs(ordered: seq<Opportunity>)
    returns (dependencies: seq<LegDependency>, r: Option<CombinationError>)
    ensures r == FirstPairError(PairsOf(ordered))
    ensures r.None? ==> dependencies == PairsOf(ordered)
  {
    hide ClassifyLegs, PairError;
    dependencies := [];
    for i := 0 to |ordered|
      invariant dependencies + PairsOf(ordered[i..]) == PairsOf(ordered)
      invariant FirstPairError(PairsOf(ordered)) == FirstPairError(PairsOf(ordered[i..]))
    {
      var rest := ordered[i + 1..];
      assert ordered[i..][1..] == rest && ordered[i..][0] == ordered[i];
      var row;
      row, r := ClassifyRow(ordered[i], rest);
      FirstPairErrorAppend(PairsWith(ordered[i], rest), PairsOf(rest));
      if r.Some? {
        return;
      }
      dependencies := dependencies + row;
    }
    r := None;
  }

  method CombinedOdds(ordered: seq<Opportunity>) returns (odds: real)
    ensures odds == ProductBy(ordered, OddsOf)
  {
    odds := 1.0;
    for i := 0 to |ordered|
      invariant odds == ProductBy(ordered[..i], OddsOf)
    {
      TakeStep(ordered, i);
      odds := Times(odds, ordered[i].odds);
    }
    assert ordered[..|ordered|] == ordered;
  }

  method ValidateCombination(legs: seq<Opportunity>, rules: Rules, digest: Payload -> string)
    returns (r: Result<Combination, CombinationError>)
    requires rules.Valid()
    ensures r == Validated(legs, rules, digest)
  {
    hide Ordering.SortBy, ProductBy, Times, MinBy, MaxBy, PairsOf, FirstPairError, FirstLegError, LegError, SportsOf,
         DatesOf, DistinctIds;
    if !(rules.minLegs <= |legs| <= rules.maxLegs) {
      return Err(LegCountOutOfBounds);
    }
    var ordered := Ordering.SortBy(legs, IdLe);
    DistinctIdsBySet(ordered);
    if |set x | x in ordered :: x.id| != |ordered| {
      return Err(DuplicateIds);
    }
    var failure := CheckLegs(ordered, rules);
    if failure.Some? {
      return Err(failure.value);
    }
    var dependencies;
    dependencies, failure := ClassifyPairs(ordered);
    if failure.Some? {
      return Err(failure.value);
    }
    var earliest, latest, information := MinBy(ordered, StartOf), MaxBy(ordered, StartOf), MaxBy(ordered, DecisionOf);
    if information >= earliest {
      return Err(DecisionNotBeforeStart);
    }
    var odds := CombinedOdds(ordered);
    if !(rules.minOdds <= odds <= rules.maxOdds) {
      return Err(CombinedOddsOutOfRange);
    }
    if !rules.allowMultipleSports && |SportsOf(ordered)| > 1 {
      return Err(MultipleSportsDisabled);
    }
    if !rules.allowMultipleDates && |DatesOf(ordered)| > 1 {
      return Err(MultipleDatesDisabled);
    }
    if latest - earliest > rules.maxHorizon {
      return Err(HorizonExceeded);
    }
    var joint := ProductBy(ordered, ProbabilityOf);
    var expectedValue := Times(joint, odds) - 1.0;
    if joint < rules.minJointProbability {
      return Err(JointProbabilityTooLow);
    }
    if expectedValue < rules.minExpectedValue {
      return Err(ExpectedValueTooLow);
    }
    var id := digest(Payload(Ids(ordered), odds, joint, expectedValue, information, rules.policyId));
    return Ok(Combination(id, ordered, dependencies, odds, joint, expectedValue, earliest, latest, information,
                          rules.policyId));
  }

  /* ---------- What acceptance means, independently of any order ---------- */

  ghost predicate Separate(l: Opportunity, r: Opportunity) {
    ClassifyLegs(l, r).classification == STRUCTURALLY_SEPARATE
  }

  ghost predicate PairwiseSeparate(legs: seq<Opportunity>) {
    forall x, y :: x in legs && y in legs && x != y ==> Separate(x, y)
  }

  ghost predicate AllEligible(legs: seq<Opportunity>, rules: Rules) {
    forall x :: x in legs ==> LegError(x, rules).None?
  }

  /** Every decision was taken before any of the events starts. */
  ghost predicate DecisionsFirst(legs: seq<Opportunity>) {
    forall x, y :: x in legs && y in legs ==> x.decisionAsOf < y.eventStart
  }

  ghost predicate WithinHorizon(legs: seq<Opportunity>, horizon: int) {
    forall x, y :: x in legs && y in legs ==> x.eventStart - y.eventStart <= horizon
  }

  ghost predicate OneSport(legs: seq<Opportunity>) {
    forall x, y :: x in legs && y in legs ==> x.selection.market.sport == y.selection.market.sport
  }

  ghost predicate OneDate(legs: seq<Opportunity>) {
    forall x, y :: x in legs && y in legs ==> DateOf(x.eventStart) == DateOf(y.eventStart)
  }

  ghost predicate Acceptable(legs: seq<Opportunity>, rules: Rules) {
    var odds, joint := ProductBy(legs, OddsOf), ProductBy(legs, ProbabilityOf);
    && rules.minLegs <= |legs| <= rules.maxLegs
    && DistinctIds(legs)
    && AllEligible(legs, rules)
    && PairwiseSeparate(legs)
    && DecisionsFirst(legs)
    && WithinHorizon(legs, rules.maxHorizon)
    && (rules.allowMultipleSports || OneSport(legs))
    && (rules.allowMultipleDates || OneDate(legs))
    && rules.minOdds <= odds <= rules.maxOdds
    && rules.minJointProbability <= joint
    && rules.minExpectedValue <= Times(joint, odds) - 1.0
  }

  lemma {:induction false} NoLegError(legs: seq<Opportunity>, rules: Rules)
    ensures FirstLegError(legs, rules).None? <==> AllEligible(legs, rules)
  {
    if legs != [] {
      NoLegError(legs[1..], rules);
      assert legs == [legs[0]] + legs[1..];
    }
  }

  lemma {:induction false} PairsOfSeparate(legs: seq<Opportunity>)
    requires DistinctIds(legs)
    ensures FirstPairError(PairsOf(legs)).None? <==> PairwiseSeparate(legs)
  {
    NoPairError(PairsOf(legs));
    if legs != [] {
      var rest := legs[1..];
      assert DistinctIds(rest) by {
        forall i, j | 0 <= i < j < |rest| ensures Ids(rest)[i] != Ids(rest)[j] {
          DistinctIdsSeparate(legs, i + 1, j + 1);
        }
      }
      PairsOfSeparate(rest);
      NoPairError(PairsOf(rest));
      var first := PairsWith(legs[0], rest);
      assert (forall x :: x in PairsOf(legs) ==> PairError(x).None?) <==>
             (forall x :: x in first ==> PairError(x).None?) && (forall x :: x in PairsOf(rest) ==> PairError(x).None?);
      HeadSeparate(legs);
    }
  }

  lemma SeparateMeaning(l: Opportunity, r: Opportunity)
    ensures Separate(l, r) <==> PairError(ClassifyLegs(l, r)).None?
    ensures Separate(l, r) <==> Separate(r, l)
  {
    ClassifyPairSymmetric(FactsOf(l), FactsOf(r));
  }

  lemma HeadSeparate(legs: seq<Opportunity>)
    requires legs != [] && DistinctIds(legs)
    ensures PairwiseSeparate(legs) <==>
            (forall x :: x in PairsWith(legs[0], legs[1..]) ==> PairError(x).None?) && PairwiseSeparate(legs[1..])
  {
    hide ClassifyLegs, Separate, PairError, DistinctIds;
    var head, rest := legs[0], legs[1..];
    var first := PairsWith(head, rest);
    assert legs == [head] + rest;
    assert head !in rest by {
      if k :| 0 <= k < |rest| && rest[k] == head { DistinctIdsSeparate(legs, 0, k + 1); }
    }
    forall y { SeparateMeaning(head, y); }
    assert (forall x :: x in first ==> PairError(x).None?) <==> (forall y :: y in rest ==> Separate(head, y)) by {
      forall y | y in rest && forall x :: x in first ==> PairError(x).None? ensures Separate(head, y) {
        var k :| 0 <= k < |rest| && rest[k] == y;
        assert first[k] in first;
      }
      forall x | x in first && forall y :: y in rest ==> Separate(head, y) ensures PairError(x).None? {
        var k :| 0 <= k < |rest| && first[k] == x;
        assert rest[k] in rest;
      }
    }
  }

  lemma AtMostOne<T>(s: set<T>)
    ensures |s| <= 1 <==> forall x, y :: x in s && y in s ==> x == y
  {
    if s != {} {
      var x :| x in s;
      if forall a, b :: a in s && b in s ==> a == b {
        assert s == {x};
      } else {
        var a, b :| a in s && b in s && a != b;
        assert {a, b} <= s;
        assert |{a, b}| == 2;
        assert |s| == |s - {a, b}| + |{a, b}|;
      }
    }
  }

  lemma SportsMeaning(legs: seq<Opportunity>)
    ensures |SportsOf(legs)| <= 1 <==> OneSport(legs)
  {
    AtMostOne(SportsOf(legs));
    forall x, y | |SportsOf(legs)| <= 1 && x in legs && y in legs
      ensures x.selection.market.sport == y.selection.market.sport
    {
      assert x.selection.market.sport in SportsOf(legs) && y.selection.market.sport in SportsOf(legs);
    }
  }

  lemma DatesMeaning(legs: seq<Opportunity>)
    ensures |DatesOf(legs)| <= 1 <==> OneDate(legs)
  {
    AtMostOne(DatesOf(legs));
    forall x, y | |DatesOf(legs)| <= 1 && x in legs && y in legs
      ensures DateOf(x.eventStart) == DateOf(y.eventStart)
    {
      assert DateOf(x.eventStart) in DatesOf(legs) && DateOf(y.eventStart) in DatesOf(legs);
    }
  }

  lemma TimesMeaning(legs: seq<Opportunity>, horizon: int)
    requires legs != []
    ensures MaxBy(legs, DecisionOf) < MinBy(legs, StartOf) <==> DecisionsFirst(legs)
    ensures MaxBy(legs, StartOf) - MinBy(legs, StartOf) <= horizon <==> WithinHorizon(legs, horizon)
  {
    hide MinBy, MaxBy;
    SpreadBy(legs, DecisionOf, StartOf, -1);
    SpreadBy(legs, StartOf, StartOf, horizon);
    assert forall x, y :: x in legs && y in legs ==>
             (DecisionOf(x) - StartOf(y) <= -1 <==> x.decisionAsOf < y.eventStart);
    assert forall x, y :: x in legs && y in legs ==> StartOf(x) - StartOf(y) == x.eventStart - y.eventStart;
  }

  lemma WholeErrorMeaning(legs: seq<Opportunity>, rules: Rules)
    requires rules.Valid() && rules.minLegs <= |legs| <= rules.maxLegs && DistinctIds(legs)
    requires AllEligible(legs, rules) && PairwiseSeparate(legs)
    ensures WholeError(legs, rules).None? <==> Acceptable(legs, rules)
  {
    hide ProductBy, Times, MinBy, MaxBy, SportsOf, DatesOf, DistinctIds, AllEligible, PairwiseSeparate,
         DecisionsFirst, WithinHorizon, OneSport, OneDate;
    SportsMeaning(legs);
    DatesMeaning(legs);
    TimesMeaning(legs, rules.maxHorizon);
  }

  lemma AcceptablePermutation(a: seq<Opportunity>, b: seq<Opportunity>, rules: Rules)
    requires multiset(a) == multiset(b)
    ensures Acceptable(a, rules) <==> Acceptable(b, rules)
    ensures ProductBy(a, OddsOf) == ProductBy(b, OddsOf)
    ensures ProductBy(a, ProbabilityOf) == ProductBy(b, ProbabilityOf)
  {
    hide ProductBy, Times, LegError, Separate;
    Ordering.SameElements(a, b);
    DistinctIdsPermutation(a, b);
    ProductPermutation(a, b, OddsOf);
    ProductPermutation(a, b, ProbabilityOf);
  }

  /** Validation succeeds exactly on the acceptable leg sets, whatever order the legs come in. */
  lemma ValidationMeaning(legs: seq<Opportunity>, rules: Rules, digest: Payload -> string)
    requires rules.Valid()
    ensures Validated(legs, rules, digest).Ok? <==> Acceptable(legs, rules)
  {
    hide Ordering.SortBy, ProductBy, Times, MinBy, MaxBy, PairsOf, FirstPairError, FirstLegError, LegError, SportsOf,
         DatesOf, DistinctIds, WholeError, CombinationOf, AllEligible, PairwiseSeparate,
         DecisionsFirst, WithinHorizon, OneSport, OneDate;
    var ordered := Ordering.SortBy(legs, IdLe);
    AcceptablePermutation(legs, ordered, rules);
    DistinctIdsPermutation(legs, ordered);
    if rules.minLegs <= |legs| <= rules.maxLegs && DistinctIds(ordered) {
      NoLegError(ordered, rules);
      PairsOfSeparate(ordered);
      if FirstLegError(ordered, rules).None? && FirstPairError(PairsOf(ordered)).None? {
        WholeErrorMeaning(ordered, rules);
      }
    }
  }

  /** The outcome, error included, does not depend on the order the legs were given. */
  lemma ValidationIgnoresLegOrder(a: seq<Opportunity>, b: seq<Opportunity>, rules: Rules, digest: Payload -> string)
    requires rules.Valid() && multiset(a) == multiset(b)
    ensures Validated(a, rules, digest) == Validated(b, rules, digest)
  {
    hide Ordering.SortBy, ProductBy, Times, MinBy, MaxBy, PairsOf, FirstPairError, FirstLegError, LegError, SportsOf,
         DatesOf, DistinctIds, WholeError, CombinationOf, IdLe;
    Ordering.SameElements(a, b);
    DistinctIdsPermutation(a, b);
    DistinctIdsPermutation(a, Ordering.SortBy(a, IdLe));
    DistinctIdsPermutation(b, Ordering.SortBy(b, IdLe));
    if DistinctIds(a) {
      DistinctIdsNoTies(a);
      IdLeIsTotalPreorder();
      Ordering.SortByPermutationInvariant(a, b, IdLe);
    }
  }
}
