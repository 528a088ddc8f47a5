/** Persisted combination rows and their re-verification (artifact_serializers.py, artifact_schemas.py). */
module CombinationArtifacts {
  import opened Wrappers
  import Ordering
  import opened Aggregates
  import opened Opportunities
  import opened Dependencies
  import opened CombinationContracts

  datatype CombinationRow = CombinationRow(
    combinationId: string, policyId: string, opportunityIds: seq<string>, dependencies: seq<LegDependency>,
    totalOdds: real, joint: real, expectedValue: real, commonDecision: int, earliestStart: int, latestStart: int)

  datatype OpportunityRow = OpportunityRow(
    id: string, eventId: string, selection: Selection, odds: real, probability: real,
    eventStart: int, decisionAsOf: int, dependencyKeys: seq<string>, participantIds: seq<string>,
    metadataComplete: bool)

  datatype ArtifactError =
    | ProbabilityOutOfRange
    | OddsNotAboveOne
    | ExpectedValueInconsistent
    | IdsNotOrderedUnique
    | EmptyIdentifier
    | DependencyPairDuplicated
    | UndeclaredLeg
    | PairCountMismatch
    | DecisionNotBeforeStart
    | IdMismatch
    | MissingOpportunity
    | NoLegs
    | OddsInconsistent
    | JointInconsistent
    | TimesInconsistent
    | NotSeparate
    | ClassificationMismatch

  const TOLERANCE: real := 0.000000001

  predicate Near(a: real, b: real) {
    -TOLERANCE <= a - b <= TOLERANCE
  }

  function SerializeCombination(c: Combination): CombinationRow {
    CombinationRow(c.id, c.policyId, Ids(c.legs), c.dependencies, c.odds, c.joint, c.expectedValue,
                   c.informationTime, c.earliestStart, c.latestStart)
  }

  function SerializeOpportunity(o: Opportunity): OpportunityRow {
    OpportunityRow(o.id, o.eventId, o.selection, o.odds, o.probability, o.eventStart, o.decisionAsOf,
                   Ordering.SortBy(o.dependencyKeys, Ordering.StrLe),
                   Ordering.SortBy(o.participantIds, Ordering.StrLe), o.metadataComplete)
  }

  /** Rebuilding a frozenset from a list yields its elements once each, in some order of its own. */
  ghost predicate IterationOrder(order: seq<string> -> seq<string>) {
    forall keys :: Ordering.NoDuplicates(order(keys)) && forall k :: k in order(keys) <==> k in keys
  }

  function RowFacts(row: OpportunityRow, order: seq<string> -> seq<string>): LegFacts {
    LegFacts(row.id, row.eventId, row.selection, order(row.dependencyKeys),
             (set p | p in row.participantIds), row.metadataComplete)
  }

  function PairKey(d: LegDependency): (string, string) {
    if Ordering.StrLe(d.leftId, d.rightId) then (d.leftId, d.rightId) else (d.rightId, d.leftId)
  }

  function PairKeys(ds: seq<LegDependency>): set<(string, string)> {
    set d | d in ds :: PairKey(d)
  }

  ghost predicate DistinctPairs(ds: seq<LegDependency>) {
    forall i, j :: 0 <= i < j < |ds| ==> PairKey(ds[i]) != PairKey(ds[j])
  }

  /** ids == sorted(set(ids)) */
  ghost predicate OrderedUnique(ids: seq<string>) {
    forall i, j :: 0 <= i < j < |ids| ==> Ordering.StrLe(ids[i], ids[j]) && ids[i] != ids[j]
  }

  function PairCount(n: nat): nat {
    n * (n - 1) / 2
  }

  /** What the check of a single combination row accepts. */
  ghost predicate RowAccepted(row: CombinationRow, digest: Payload -> string) {
    && 0.0 <= row.joint <= 1.0 && row.totalOdds > 1.0
    && Near(Times(row.joint, row.totalOdds) - 1.0, row.expectedValue)
    && "" !in row.opportunityIds && OrderedUnique(row.opportunityIds)
    && DependenciesDeclared(row)
    && row.commonDecision < row.earliestStart && row.policyId != ""
    && row.combinationId == digest(Payload(row.opportunityIds, row.totalOdds, row.joint, row.expectedValue,
                                           row.commonDecision, row.policyId))
  }

  ghost predicate DependenciesDeclared(row: CombinationRow) {
    && (forall d :: d in row.dependencies ==> d.leftId != "" && d.rightId != "")
    && DistinctPairs(row.dependencies)
    && (forall d :: d in row.dependencies ==> d.leftId in row.opportunityIds && d.rightId in row.opportunityIds)
    && |row.dependencies| == PairCount(|row.opportunityIds|)
  }

  /** What the dependency check against the opportunity rows accepts. */
  ghost predicate DependenciesAccepted(row: CombinationRow, rows: map<string, OpportunityRow>,
                                       order: seq<string> -> seq<string>) {
    && DistinctPairs(row.dependencies)
    && (forall d :: d in row.dependencies ==> DependencyAccepted(d, rows, order))
    && |row.dependencies| == PairCount(|row.opportunityIds|)
  }

  predicate DependencyAccepted(d: LegDependency, rows: map<string, OpportunityRow>,
                               order: seq<string> -> seq<string>) {
    && d.leftId != "" && d.rightId != "" && d.leftId in rows && d.rightId in rows
    && var recomputed := ClassifyPair(RowFacts(rows[d.leftId], order), RowFacts(rows[d.rightId], order));
       recomputed.classification == STRUCTURALLY_SEPARATE && d == recomputed
  }

  function LegRows(ids: seq<string>, rows: map<string, OpportunityRow>): (r: seq<OpportunityRow>)
    requires forall id :: id in ids ==> id in rows
    ensures |r| == |ids| && forall i :: 0 <= i < |ids| ==> r[i] == rows[ids[i]]
  {
    seq(|ids|, i requires 0 <= i < |ids| => assert ids[i] in ids; rows[ids[i]])
  }

  function RowOdds(r: OpportunityRow): real { r.odds }
  function RowProbability(r: OpportunityRow): real { r.probability }
  function RowStart(r: OpportunityRow): int { r.eventStart }
  function RowDecision(r: OpportunityRow): int { r.decisionAsOf }

  ghost predicate LegsAccepted(row: CombinationRow, rows: map<string, OpportunityRow>, digest: Payload -> string) {
    && (forall id :: id in row.opportunityIds ==> id in rows)
    && row.opportunityIds != []
    && var legs := LegRows(row.opportunityIds, rows);
       var odds, joint := ProductBy(legs, RowOdds), ProductBy(legs, RowProbability);
       && (forall l :: l in legs ==> 0.0 <= l.probability <= 1.0)
       && MaxBy(legs, RowDecision) < MinBy(legs, RowStart)
       && row.totalOdds == odds
       && 0.0 <= row.joint <= 1.0 && Near(row.joint, joint)
       && Near(row.expectedValue, Times(joint, odds) - 1.0)
       && row.earliestStart == MinBy(legs, RowStart) && row.latestStart == MaxBy(legs, RowStart)
       && row.commonDecision == MaxBy(legs, RowDecision) && row.policyId != ""
       && row.combinationId == digest(Payload(row.opportunityIds, odds, joint, Times(joint, odds) - 1.0,
                                              MaxBy(legs, RowDecision), row.policyId))
  }

  /* ---------- The verifiers ---------- */

  method CheckPairs(dependencies: seq<LegDependency>, ids: seq<string>) returns (r: Option<ArtifactError>)
    ensures r.None? <==>
      && (forall d :: d in dependencies ==> d.leftId != "" && d.rightId != "")
      && DistinctPairs(dependencies)
      && (forall d :: d in dependencies ==> d.leftId in ids && d.rightId in ids)
      && |dependencies| == PairCount(|ids|)
  {
    hide PairKey, PairCount;
    var pairsSeen: set<(string, string)> := {};
    for i := 0 to |dependencies|
      invariant pairsSeen == PairKeys(dependencies[..i]) && |pairsSeen| == i && DistinctPairs(dependencies[..i])
      invariant forall d :: d in dependencies[..i] ==> d.leftId != "" && d.rightId != ""
      invariant forall d :: d in dependencies[..i] ==> d.leftId in ids && d.rightId in ids
    {
      var d := dependencies[i];
      assert d in dependencies;
      if d.leftId == "" || d.rightId == "" {
        return Some(EmptyIdentifier);
      }
      NextPair(dependencies, i);
      if PairKey(d) in pairsSeen {
        return Some(DependencyPairDuplicated);
      }
      if d.leftId !in ids || d.rightId !in ids {
        return Some(UndeclaredLeg);
      }
      pairsSeen := pairsSeen + {PairKey(d)};
    }
    assert dependencies[..|dependencies|] == dependencies;
    if |pairsSeen| != PairCount(|ids|) {
      return Some(PairCountMismatch);
    }
    return None;
  }

  lemma NextPair(ds: seq<LegDependency>, i: nat)
    requires i < |ds| && DistinctPairs(ds[..i])
    ensures PairKeys(ds[..i + 1]) == PairKeys(ds[..i]) + {PairKey(ds[i])}
    ensures PairKey(ds[i]) in PairKeys(ds[..i]) ==> !DistinctPairs(ds)
    ensures PairKey(ds[i]) !in PairKeys(ds[..i]) ==> DistinctPairs(ds[..i + 1])
    ensures forall d :: d in ds[..i + 1] <==> d in ds[..i] || d == ds[i]
  {
    hide PairKey;
    var t := ds[..i + 1];
    assert t == ds[..i] + [ds[i]];
    if PairKey(ds[i]) in PairKeys(ds[..i]) {
      var d :| d in ds[..i] && PairKey(d) == PairKey(ds[i]);
      var k :| 0 <= k < i && ds[..i][k] == d;
      assert PairKey(ds[k]) == PairKey(ds[i]);
    } else {
      forall a, b | 0 <= a < b < |t| ensures PairKey(t[a]) != PairKey(t[b]) {
        assert t[a] == ds[..i][a] && ds[..i][a] in ds[..i];
        if b < i { assert t[b] == ds[..i][b]; }
      }
    }
  }

  method CheckOrderedUnique(ids: seq<string>) returns (ok: bool)
    ensures ok <==> OrderedUnique(ids)
  {
    if ids == [] {
      return true;
    }
    for i := 1 to |ids|
      invariant OrderedUnique(ids[..i])
    {
      if !Ordering.StrLe(ids[i - 1], ids[i]) || ids[i - 1] == ids[i] {
        return false;
      }
      NextId(ids, i);
    }
    assert ids[..|ids|] == ids;
    return true;
  }

  lemma NextId(ids: seq<string>, i: nat)
    requires 1 <= i < |ids| && OrderedUnique(ids[..i])
    requires Ordering.StrLe(ids[i - 1], ids[i]) && ids[i - 1] != ids[i]
    ensures OrderedUnique(ids[..i + 1])
  {
    forall a, b | 0 <= a < b < i + 1 ensures Ordering.StrLe(ids[a], ids[b]) && ids[a] != ids[b] {
      if b < i {
        assert ids[..i][a] == ids[a] && ids[..i][b] == ids[b];
      } else if a < i - 1 {
        assert ids[..i][a] == ids[a] && ids[..i][i - 1] == ids[i - 1];
        Ordering.StrLeTransitive(ids[a], ids[i - 1], ids[i]);
        if ids[a] == ids[i] { Ordering.StrLeAntisymmetric(ids[i - 1], ids[i]); }
      }
    }
  }

  /** _validate_combination_row */
  method VerifyRow(row: CombinationRow, digest: Payload -> string) returns (r: Option<ArtifactError>)
    ensures r.None? <==> RowAccepted(row, digest)
  {
    hide OrderedUnique, DistinctPairs, PairCount, Times;
    if !(0.0 <= row.joint <= 1.0) {
      return Some(ProbabilityOutOfRange);
    }
    if row.totalOdds <= 1.0 {
      return Some(OddsNotAboveOne);
    }
    if !Near(Times(row.joint, row.totalOdds) - 1.0, row.expectedValue) {
      return Some(ExpectedValueInconsistent);
    }
    if "" in row.opportunityIds || row.policyId == "" {
      return Some(EmptyIdentifier);
    }
    var ordered := CheckOrderedUnique(row.opportunityIds);
    if !ordered {
      return Some(IdsNotOrderedUnique);
    }
    var pairs := CheckPairs(row.dependencies, row.opportunityIds);
    if pairs.Some? {
      return pairs;
    }
    if row.commonDecision >= row.earliestStart {
      return Some(ArtifactError.DecisionNotBeforeStart);
    }
    if row.combinationId != digest(Payload(row.opportunityIds, row.totalOdds, row.joint, row.expectedValue,
                                           row.commonDecision, row.policyId)) {
      return Some(IdMismatch);
    }
    return None;
  }

  /** _validate_combination_dependencies */
  method VerifyDependencies(row: CombinationRow, rows: map<string, OpportunityRow>, order: seq<string> -> seq<string>)
    returns (r: Option<ArtifactError>)
    ensures r.None? <==> DependenciesAccepted(row, rows, order)
  {
    hide PairKey, PairCount, ClassifyPair, RowFacts;
    var dependencies := row.dependencies;
    var pairsSeen: set<(string, string)> := {};
    for i := 0 to |dependencies|
      invariant pairsSeen == PairKeys(dependencies[..i]) && |pairsSeen| == i && DistinctPairs(dependencies[..i])
      invariant forall d :: d in dependencies[..i] ==> DependencyAccepted(d, rows, order)
    {
      var d := dependencies[i];
      assert d in dependencies;
      if d.leftId == "" || d.rightId == "" {
        return Some(EmptyIdentifier);
      }
      NextPair(dependencies, i);
      if PairKey(d) in pairsSeen {
        return Some(DependencyPairDuplicated);
      }
      pairsSeen := pairsSeen + {PairKey(d)};
      if d.leftId !in rows || d.rightId !in rows {
        return Some(MissingOpportunity);
      }
      var recomputed := ClassifyPair(RowFacts(rows[d.leftId], order), RowFacts(rows[d.rightId], order));
      if recomputed.classification != STRUCTURALLY_SEPARATE {
        return Some(NotSeparate);
      }
      if d != recomputed {
        return Some(ClassificationMismatch);
      }
    }
    assert dependencies[..|dependencies|] == dependencies;
    if |pairsSeen| != PairCount(|row.opportunityIds|) {
      return Some(PairCountMismatch);
    }
    return None;
  }

  lemma NextRow(legs: seq<OpportunityRow>, i: nat)
    requires i < |legs|
    ensures legs[i] in legs && forall l :: l in legs[..i + 1] <==> l in legs[..i] || l == legs[i]
    ensures ProductBy(legs[..i + 1], RowOdds) == Times(ProductBy(legs[..i], RowOdds), legs[i].odds)
    ensures ProductBy(legs[..i + 1], RowProbability) == Times(ProductBy(legs[..i], RowProbability), legs[i].probability)
    ensures MinBy(legs[..i + 1], RowStart) ==
            if i == 0 || legs[i].eventStart < MinBy(legs[..i], RowStart) then legs[i].eventStart
            else MinBy(legs[..i], RowStart)
    ensures MaxBy(legs[..i + 1], RowStart) ==
            if i == 0 || MaxBy(legs[..i], RowStart) < legs[i].eventStart then legs[i].eventStart
            else MaxBy(legs[..i], RowStart)
    ensures MaxBy(legs[..i + 1], RowDecision) ==
            if i == 0 || MaxBy(legs[..i], RowDecision) < legs[i].decisionAsOf then legs[i].decisionAsOf
            else MaxBy(legs[..i], RowDecision)
  {
    hide Times;
    TakeStep(legs, i);
    assert legs[..i + 1] == legs[..i] + [legs[i]];
  }

  lemma NoRows(legs: seq<OpportunityRow>)
    ensures ProductBy(legs[..0], RowOdds) == 1.0 && ProductBy(legs[..0], RowProbability) == 1.0
  {
  }

  method RecomputeLegs(legs: seq<OpportunityRow>)
    returns (ok: bool, odds: real, joint: real, earliest: int, latest: int, common: int)
    requires legs != []
    ensures ok <==> forall l :: l in legs ==> 0.0 <= l.probability <= 1.0
    ensures ok ==> odds == ProductBy(legs, RowOdds) && joint == ProductBy(legs, RowProbability)
    ensures ok ==>
              earliest == MinBy(legs, RowStart) && latest == MaxBy(legs, RowStart) && common == MaxBy(legs, RowDecision)
  {
    hide Times, ProductBy, MinBy, MaxBy;
    NoRows(legs);
    odds, joint, earliest, latest, common := 1.0, 1.0, 0, 0, 0;
    for i := 0 to |legs|
      invariant forall l :: l in legs[..i] ==> 0.0 <= l.probability <= 1.0
      invariant odds == ProductBy(legs[..i], RowOdds) && joint == ProductBy(legs[..i], RowProbability)
      invariant i > 0 ==> earliest == MinBy(legs[..i], RowStart) && latest == MaxBy(legs[..i], RowStart)
                          && common == MaxBy(legs[..i], RowDecision)
    {
      var leg := legs[i];
      NextRow(legs, i);
      if !(0.0 <= leg.probability <= 1.0) {
        ok := false;
        return;
      }
      odds, joint := Times(odds, leg.odds), Times(joint, leg.probability);
      earliest := if i == 0 || leg.eventStart < earliest then leg.eventStart else earliest;
      latest := if i == 0 || latest < leg.eventStart then leg.eventStart else latest;
      common := if i == 0 || common < leg.decisionAsOf then leg.decisionAsOf else common;
    }
    assert legs[..|legs|] == legs;
    ok := true;
  }

  /** _validate_combination_against_opportunities */
  method VerifyAgainstOpportunities(row: CombinationRow, rows: map<string, OpportunityRow>,
                                    order: seq<string> -> seq<string>, digest: Payload -> string)
    returns (r: Option<ArtifactError>)
    ensures r.None? <==> LegsAccepted(row, rows, digest) && DependenciesAccepted(row, rows, order)
  {
    hide ProductBy, Times, MinBy, MaxBy, DependenciesAccepted;
    if exists id :: id in row.opportunityIds && id !in rows {
      return Some(MissingOpportunity);
    }
    if row.opportunityIds == [] {
      return Some(NoLegs);
    }
    var legs := LegRows(row.opportunityIds, rows);
    var ok, odds, joint, earliest, latest, common := RecomputeLegs(legs);
    if !ok || !(0.0 <= row.joint <= 1.0) {
      return Some(ProbabilityOutOfRange);
    }
    if common >= earliest {
      return Some(ArtifactError.DecisionNotBeforeStart);
    }
    if row.totalOdds != odds {
      return Some(OddsInconsistent);
    }
    if !Near(row.joint, joint) {
      return Some(JointInconsistent);
    }
    var expectedValue := Times(joint, odds) - 1.0;
    if !Near(row.expectedValue, expectedValue) {
      return Some(ExpectedValueInconsistent);
    }
    if row.earliestStart != earliest || row.latestStart != latest || row.commonDecision != common {
      return Some(TimesInconsistent);
    }
    if row.policyId == "" {
      return Some(EmptyIdentifier);
    }
    if row.combinationId != digest(Payload(row.opportunityIds, odds, joint, expectedValue, common, row.policyId)) {
      return Some(IdMismatch);
    }
    r := VerifyDependencies(row, rows, order);
  }
}
