/** Which tuples a build tries, in which order, and why it rejects one, read off fields (combinations/builder.py). */
module BuilderOnFields {
  import opened Wrappers
  import Ordering
  import opened Aggregates
  import opened Subsets
  import opened Opportunities
  import opened Dependencies
  import opened CombinationContracts
  import opened CombinationBuilder
  import opened CombinationSearch
  import Fields = CombinationsOnFields

  /* ---------- The early check ---------- */

  /** What the leg at the position says on its own, and with the odds of the legs up to it multiplied. */
  function LegReason(legs: seq<Opportunity>, k: nat, rules: Rules, mode: EvidenceMode): Option<CombinationError>
    requires k < |legs|
  {
    if mode == TrustedVerified && !legs[k].qualityPassed then Some(FailedPredictionQuality)
    else if legs[k].evaluationMode == ClosingLineBenchmark then Some(BenchmarkLeg)
    else if legs[k].odds < rules.legMinOdds || rules.legMaxOdds < legs[k].odds then Some(LegOddsOutOfRange)
    else if rules.maxOdds < ProductBy(legs[..k + 1], OddsOf) then Some(CombinedOddsOutOfRange)
    else None
  }

  lemma {:induction false} LegLoop(legs: seq<Opportunity>, i: nat, rules: Rules, mode: EvidenceMode) returns (k: nat)
    requires i <= |legs|
    ensures i <= k <= |legs| && forall n :: i <= n < k ==> LegReason(legs, n, rules, mode).None?
    ensures EarlyLegReason(legs[i..], ProductBy(legs[..i], OddsOf), rules, mode) ==
            if k < |legs| then LegReason(legs, k, rules, mode) else None
    ensures k < |legs| ==> LegReason(legs, k, rules, mode).Some?
    decreases |legs| - i
  {
    hide Times;
    k := i;
    if i < |legs| {
      assert legs[i..][0] == legs[i] && legs[i..][1..] == legs[i + 1..];
      TakeStep(legs, i);
      assert ProductBy(legs[..i + 1], OddsOf) == Times(ProductBy(legs[..i], OddsOf), legs[i].odds);
      if LegReason(legs, i, rules, mode).None? {
        k := LegLoop(legs, i + 1, rules, mode);
      }
    }
  }

  /**
   * The early check of a tuple names the first leg, in rank order, that fails its quality, its evaluation mode or its
   * odds, or takes the product of the odds above the maximum; then a horizon exceeded; then the first pair, row by row,
   * that is not structurally separate.
   */
  lemma EarlyOnFields(legs: seq<Opportunity>, rules: Rules, mode: EvidenceMode) returns (k: nat, i: nat, j: nat)
    requires legs != []
    ensures k <= |legs| && forall n :: 0 <= n < k ==> LegReason(legs, n, rules, mode).None?
    ensures k < |legs| ==> EarlyReason(legs, rules, mode) == LegReason(legs, k, rules, mode) != None
    ensures k == |legs| && (exists x <- legs, y <- legs :: x.eventStart - y.eventStart > rules.maxHorizon) ==>
              EarlyReason(legs, rules, mode) == Some(HorizonExceeded)
    ensures k == |legs| && (forall x <- legs, y <- legs :: x.eventStart - y.eventStart <= rules.maxHorizon) ==>
              if i < j < |legs| then
                && EarlyReason(legs, rules, mode) ==
                   (if ClassifyLegs(legs[i], legs[j]).classification == CONFLICT
                    then Some(ConflictingLegs(ClassifyLegs(legs[i], legs[j]).reason))
                    else Some(UnknownDependency(ClassifyLegs(legs[i], legs[j]).reason)))
                && ClassifyLegs(legs[i], legs[j]).classification != STRUCTURALLY_SEPARATE
                && (forall a, b :: 0 <= a < b < |legs| && (a < i || (a == i && b < j)) ==>
                      ClassifyLegs(legs[a], legs[b]).classification == STRUCTURALLY_SEPARATE)
              else EarlyReason(legs, rules, mode).None?
  {
    hide MinBy, MaxBy, PairsOf, FirstPairError, Times, EarlyLegReason, ClassifyLegs, LegReason;
    assert legs[0..] == legs && ProductBy(legs[..0], OddsOf) == 1.0;
    k := LegLoop(legs, 0, rules, mode);
    TimesMeaning(legs, rules.maxHorizon);
    i, j := 0, 0;
    if FirstPairError(PairsOf(legs)).Some? {
      i, j := Fields.FirstBadPair(legs);
    }
  }

  /* ---------- The tuples ---------- */

  /** The tuples tried are subsequences of the candidates with an allowed number of legs, smaller ones first. */
  lemma TriedOnFields(candidates: seq<Opportunity>, rules: Rules, bounds: Bounds, i: nat, j: nat)
    requires rules.Valid() && bounds.Valid() && i < j < |VisitedOf(candidates, rules, bounds)|
    ensures var (t, u) := (VisitedOf(candidates, rules, bounds)[i], VisitedOf(candidates, rules, bounds)[j]);
            && rules.minLegs <= |t| <= |u| <= rules.maxLegs
            && IsSubsequence(t, candidates) && IsSubsequence(u, candidates)
            && (|t| == |u| ==> exists p, a, b :: FirstDifference(candidates, t, u, p, a, b))
  {
    hide AllCombos, IsSubsequence;
    var all := AllCombos(candidates, rules.minLegs, rules.maxLegs);
    var visited := VisitedOf(candidates, rules, bounds);
    assert all[i] in all && all[j] in all && visited[i] == all[i] && visited[j] == all[j];
    AllCombosComplete(candidates, rules.minLegs, rules.maxLegs, all[i]);
    AllCombosComplete(candidates, rules.minLegs, rules.maxLegs, all[j]);
    SmallerFirst(candidates, rules.minLegs, rules.maxLegs, i, j);
    if |all[i]| == |all[j]| {
      SameSizeInOrder(candidates, rules.minLegs, rules.maxLegs, i, j);
    }
  }

  /* ---------- The rejections ---------- */

  /** Every rejection names, in order, the identifiers of a tuple that was tried, and the error it met. */
  lemma {:induction false} RejectionMeaning(ts: seq<seq<Opportunity>>, rules: Rules, mode: EvidenceMode,
                                            digest: Payload -> string, r: Rejection)
    requires rules.Valid() && NonEmptyTuples(ts)
    ensures r in RejectionsOf(ts, rules, mode, digest) <==>
            exists t <- ts :: Outcome(t, rules, mode, digest) == Err(r.reason) && SortedIds(t) == r.ids
  {
    hide Outcome, SortedIds;
    if ts != [] {
      var n := |ts| - 1;
      TakeNonEmpty(ts, n);
      RejectionMeaning(ts[..n], rules, mode, digest, r);
      assert ts == ts[..n] + [ts[n]];
    }
  }

  lemma IdsInOrder(t: seq<Opportunity>)
    ensures multiset(SortedIds(t)) == multiset(Ids(t))
    ensures forall i, j :: 0 <= i < j < |SortedIds(t)| ==> Ordering.StrLe(SortedIds(t)[i], SortedIds(t)[j])
  {
    Ordering.StrLeIsTotalPreorder();
    Ordering.SortBySorted(Ids(t), Ordering.StrLe);
  }

  /**
   * A rejection of a build carries the identifiers of a tuple that was tried, in order, and as its reason what the
   * early check says, or what full validation says of a tuple that passes it.
   */
  lemma RejectedOnFields(opportunities: seq<Opportunity>, rules: Rules, bounds: Bounds, mode: EvidenceMode,
                         digest: Payload -> string, r: Rejection) returns (t: seq<Opportunity>)
    requires rules.Valid() && bounds.Valid()
    requires r in BuildOf(opportunities, rules, bounds, mode, digest).rejections
    ensures t != [] && t in VisitedOf(CandidatesOf(opportunities, rules, bounds), rules, bounds)
    ensures multiset(r.ids) == multiset(Ids(t))
    ensures forall i, j :: 0 <= i < j < |r.ids| ==> Ordering.StrLe(r.ids[i], r.ids[j])
    ensures EarlyReason(t, rules, mode) == Some(r.reason) ||
            (EarlyReason(t, rules, mode).None? && Validated(t, rules, digest) == Err(r.reason))
  {
    hide EarlyReason, Validated, VisitedOf, CandidatesOf, RejectionsOf, NaiveBuilt, SortedIds;
    var visited := VisitedOf(CandidatesOf(opportunities, rules, bounds), rules, bounds);
    RejectionMeaning(visited, rules, mode, digest, r);
    t :| t in visited && Outcome(t, rules, mode, digest) == Err(r.reason) && SortedIds(t) == r.ids;
    IdsInOrder(t);
  }
}
