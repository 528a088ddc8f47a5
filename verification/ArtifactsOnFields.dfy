/** What the checks of persisted combinations accept, read off the fields of the rows (artifact_schemas.py). */
module ArtifactsOnFields {
  import opened Wrappers
  import Ordering
  import opened Aggregates
  import opened Opportunities
  import opened Dependencies
  import opened CombinationContracts
  import opened CombinationArtifacts
  import CombinationsOnFields

  /* ---------- Pairs of identifiers ---------- */

  lemma PairKeyMeaning(d: LegDependency, e: LegDependency)
    ensures PairKey(d) == PairKey(e) <==> {d.leftId, d.rightId} == {e.leftId, e.rightId}
  {
    Ordering.StrLeTotal(d.leftId, d.rightId);
    Ordering.StrLeTotal(e.leftId, e.rightId);
    if {d.leftId, d.rightId} == {e.leftId, e.rightId} {
      SameTwo(d.leftId, d.rightId, e.leftId, e.rightId);
      if Ordering.StrLe(d.leftId, d.rightId) && Ordering.StrLe(d.rightId, d.leftId) {
        Ordering.StrLeAntisymmetric(d.leftId, d.rightId);
      }
    } else {
      assert {d.leftId, d.rightId} == {PairKey(d).0, PairKey(d).1};
      assert {e.leftId, e.rightId} == {PairKey(e).0, PairKey(e).1};
    }
  }

  lemma SameTwo(a: string, b: string, c: string, d: string)
    requires {a, b} == {c, d}
    ensures (a == c && b == d) || (a == d && b == c)
  {
    assert a in {c, d} && b in {c, d} && c in {a, b} && d in {a, b};
  }

  lemma DistinctPairsMeaning(ds: seq<LegDependency>)
    ensures DistinctPairs(ds) <==>
            forall i, j :: 0 <= i < j < |ds| ==> {ds[i].leftId, ds[i].rightId} != {ds[j].leftId, ds[j].rightId}
  {
    hide PairKey;
    forall i, j | 0 <= i < j < |ds|
      ensures PairKey(ds[i]) == PairKey(ds[j]) <==>
              {ds[i].leftId, ds[i].rightId} == {ds[j].leftId, ds[j].rightId}
    {
      PairKeyMeaning(ds[i], ds[j]);
    }
  }

  lemma PairCountMeaning(n: nat, pairs: nat)
    ensures pairs == PairCount(n) <==> 2 * pairs == n * (n - 1)
  {
    EvenProduct(n);
  }

  lemma {:induction false} EvenProduct(n: nat)
    ensures n * (n - 1) % 2 == 0
  {
    if n > 0 {
      EvenProduct(n - 1);
      assert n * (n - 1) == (n - 1) * (n - 2) + 2 * (n - 1);
    }
  }

  /* ---------- The single row ---------- */

  /**
   * A single row passes if and only if its numbers are in range and agree to 1e-9, its identifiers ascend strictly, its
   * dependencies are n(n - 1)/2 different pairs of declared identifiers, the decision precedes the first start, and the
   * identifier addresses the declared content.
   */
  lemma RowOnFields(row: CombinationRow, digest: Payload -> string)
    ensures RowAccepted(row, digest) <==>
            var (ids, ds) := (row.opportunityIds, row.dependencies);
            && 0.0 <= row.joint <= 1.0 && row.totalOdds > 1.0
            && -0.000000001 <= row.joint * row.totalOdds - 1.0 - row.expectedValue <= 0.000000001
            && (forall i :: 0 <= i < |ids| ==> ids[i] != "")
            && (forall i, j :: 0 <= i < j < |ids| ==> Ordering.StrLe(ids[i], ids[j]) && ids[i] != ids[j])
            && (forall d <- ds :: d.leftId != "" && d.rightId != "" && d.leftId in ids && d.rightId in ids)
            && (forall i, j :: 0 <= i < j < |ds| ==> {ds[i].leftId, ds[i].rightId} != {ds[j].leftId, ds[j].rightId})
            && 2 * |ds| == |ids| * (|ids| - 1)
            && row.commonDecision < row.earliestStart && row.policyId != ""
            && row.combinationId == digest(Payload(ids, row.totalOdds, row.joint, row.expectedValue,
                                                   row.commonDecision, row.policyId))
  {
    hide PairCount, DistinctPairs;
    DistinctPairsMeaning(row.dependencies);
    PairCountMeaning(|row.opportunityIds|, |row.dependencies|);
  }

  /* ---------- Against the rows of the legs ---------- */

  /**
   * The legs of a row pass if and only if every probability is in range, every decision precedes every start, the
   * product of the odds is the declared one, the product of the probabilities and the expected value agree with the
   * declared ones to 1e-9, the declared times are those of the legs, and the identifier addresses the recomputed
   * content.
   */
  lemma LegsOnFields(row: CombinationRow, rows: map<string, OpportunityRow>, digest: Payload -> string,
                     legs: seq<OpportunityRow>, odds: real, joint: real)
    requires |legs| == |row.opportunityIds| > 0
    requires forall i :: 0 <= i < |legs| ==> row.opportunityIds[i] in rows && rows[row.opportunityIds[i]] == legs[i]
    requires odds == ProductBy(legs, (l: OpportunityRow) => l.odds)
    requires joint == ProductBy(legs, (l: OpportunityRow) => l.probability)
    ensures LegsAccepted(row, rows, digest) <==>
            && (forall l <- legs :: 0.0 <= l.probability <= 1.0)
            && (forall l <- legs, r <- legs :: l.decisionAsOf < r.eventStart)
            && row.totalOdds == odds && 0.0 <= row.joint <= 1.0
            && -0.000000001 <= row.joint - joint <= 0.000000001
            && -0.000000001 <= row.expectedValue - (joint * odds - 1.0) <= 0.000000001
            && (forall l <- legs :: row.earliestStart <= l.eventStart <= row.latestStart)
            && (forall l <- legs :: l.decisionAsOf <= row.commonDecision)
            && (exists l <- legs :: l.eventStart == row.earliestStart)
            && (exists l <- legs :: l.eventStart == row.latestStart)
            && (exists l <- legs :: l.decisionAsOf == row.commonDecision)
            && row.policyId != ""
            && row.combinationId == digest(Payload(row.opportunityIds, odds, joint, joint * odds - 1.0,
                                                   row.commonDecision, row.policyId))
  {
    hide ProductBy, MinBy, MaxBy, Times, LegsAccepted, LegRows;
    CombinationsOnFields.TimesIs(joint, odds);
    CombinationsOnFields.SameProducts(legs, RowOdds, (l: OpportunityRow) => l.odds);
    CombinationsOnFields.SameProducts(legs, RowProbability, (l: OpportunityRow) => l.probability);
    RowsOfLegs(row, rows, legs);
    LegTimes(legs, row.earliestStart, row.latestStart, row.commonDecision);
    LegsByAggregates(row, rows, digest, odds, joint);
  }

  lemma RowsOfLegs(row: CombinationRow, rows: map<string, OpportunityRow>, legs: seq<OpportunityRow>)
    requires |legs| == |row.opportunityIds| > 0
    requires forall i :: 0 <= i < |legs| ==> row.opportunityIds[i] in rows && rows[row.opportunityIds[i]] == legs[i]
    ensures forall id <- row.opportunityIds :: id in rows
    ensures LegRows(row.opportunityIds, rows) == legs
  {
    forall id <- row.opportunityIds ensures id in rows {
      var i :| 0 <= i < |row.opportunityIds| && row.opportunityIds[i] == id;
    }
  }

  lemma LegsByAggregates(row: CombinationRow, rows: map<string, OpportunityRow>, digest: Payload -> string, odds: real,
                         joint: real)
    requires row.opportunityIds != [] && forall id <- row.opportunityIds :: id in rows
    requires odds == ProductBy(LegRows(row.opportunityIds, rows), RowOdds)
    requires joint == ProductBy(LegRows(row.opportunityIds, rows), RowProbability)
    ensures LegsAccepted(row, rows, digest) <==>
            var legs := LegRows(row.opportunityIds, rows);
            && (forall l <- legs :: 0.0 <= l.probability <= 1.0)
            && MaxBy(legs, RowDecision) < MinBy(legs, RowStart)
            && row.totalOdds == odds && 0.0 <= row.joint <= 1.0
            && -0.000000001 <= row.joint - joint <= 0.000000001
            && -0.000000001 <= row.expectedValue - (Times(joint, odds) - 1.0) <= 0.000000001
            && row.earliestStart == MinBy(legs, RowStart) && row.latestStart == MaxBy(legs, RowStart)
            && row.commonDecision == MaxBy(legs, RowDecision) && row.policyId != ""
            && row.combinationId == digest(Payload(row.opportunityIds, odds, joint, Times(joint, odds) - 1.0,
                                                   row.commonDecision, row.policyId))
  {
    hide ProductBy, MinBy, MaxBy, Times;
  }

  /** The extreme times, each one leg's own. */
  lemma LegTimes(legs: seq<OpportunityRow>, earliest: int, latest: int, common: int)
    requires legs != []
    ensures earliest == MinBy(legs, RowStart) && latest == MaxBy(legs, RowStart) <==>
            && (forall l <- legs :: earliest <= l.eventStart <= latest)
            && (exists l <- legs :: l.eventStart == earliest) && exists l <- legs :: l.eventStart == latest
    ensures common == MaxBy(legs, RowDecision) <==>
            (forall l <- legs :: l.decisionAsOf <= common) && exists l <- legs :: l.decisionAsOf == common
    ensures MaxBy(legs, RowDecision) < MinBy(legs, RowStart) <==>
            forall l <- legs, r <- legs :: l.decisionAsOf < r.eventStart
  {
    hide MinBy, MaxBy;
    var first := MinByMeaning(legs, RowStart);
    var last := MaxByMeaning(legs, RowStart);
    var newest := MaxByMeaning(legs, RowDecision);
    assert forall l <- legs :: RowStart(first) <= RowStart(l) <= RowStart(last);
    assert forall l <- legs :: RowDecision(l) <= RowDecision(newest);
  }

  /** Without a row for every leg, or without a leg, a combination row is refused. */
  lemma MissingLegsRefused(row: CombinationRow, rows: map<string, OpportunityRow>, digest: Payload -> string)
    requires row.opportunityIds == [] || exists i :: 0 <= i < |row.opportunityIds| && row.opportunityIds[i] !in rows
    ensures !LegsAccepted(row, rows, digest)
  {
  }

  /**
   * The dependencies of a row pass if and only if they are n(n - 1)/2 different pairs, and each one is what classifying
   * the rows of its legs yields, and that is structural separation.
   */
  lemma DependenciesOnFields(row: CombinationRow, rows: map<string, OpportunityRow>, order: seq<string> -> seq<string>)
    ensures DependenciesAccepted(row, rows, order) <==>
            var ds := row.dependencies;
            && (forall i, j :: 0 <= i < j < |ds| ==> {ds[i].leftId, ds[i].rightId} != {ds[j].leftId, ds[j].rightId})
            && 2 * |ds| == |row.opportunityIds| * (|row.opportunityIds| - 1)
            && forall d <- ds ::
                 && d.leftId != "" && d.rightId != "" && d.leftId in rows && d.rightId in rows
                 && d.classification == STRUCTURALLY_SEPARATE
                 && d == ClassifyPair(RowFacts(rows[d.leftId], order), RowFacts(rows[d.rightId], order))
  {
    hide PairCount, DistinctPairs, ClassifyPair, RowFacts;
    DistinctPairsMeaning(row.dependencies);
    PairCountMeaning(|row.opportunityIds|, |row.dependencies|);
  }
}
