/** What one build guarantees about its result, over all inputs. */
module CombinationSearch {
  import opened Wrappers
  import Ordering
  import opened Subsets
  import opened Opportunities
  import opened CombinationContracts
  import opened CombinationBuilder

  lemma {:induction false} BuiltPlusRejected(ts: seq<seq<Opportunity>>, rules: Rules, mode: EvidenceMode,
                                             digest: Payload -> string)
    requires rules.Valid() && NonEmptyTuples(ts)
    ensures |NaiveBuilt(ts, rules, mode, digest)| + |RejectionsOf(ts, rules, mode, digest)| == |ts|
  {
    hide Outcome, NaiveOutcome, SortedIds;
    if ts != [] {
      var n := |ts| - 1;
      TakeNonEmpty(ts, n);
      BuiltPlusRejected(ts[..n], rules, mode, digest);
      OutcomeIsNaive(ts[n], rules, mode, digest);
    }
  }

  lemma {:induction false} BuiltMeaning(ts: seq<seq<Opportunity>>, rules: Rules, mode: EvidenceMode,
                                        digest: Payload -> string, c: Combination)
    requires rules.Valid() && NonEmptyTuples(ts)
    ensures c in NaiveBuilt(ts, rules, mode, digest) <==>
            exists t :: t in ts && NaiveOutcome(t, rules, mode, digest) == Ok(c)
  {
    hide NaiveOutcome;
    if ts != [] {
      var n := |ts| - 1;
      TakeNonEmpty(ts, n);
      BuiltMeaning(ts[..n], rules, mode, digest, c);
      assert ts == ts[..n] + [ts[n]];
    }
  }

  /** The result's own numbers: how much was considered, evaluated, built and dropped. */
  lemma BuildCounts(opportunities: seq<Opportunity>, rules: Rules, bounds: Bounds, mode: EvidenceMode,
                    digest: Payload -> string)
    requires rules.Valid() && bounds.Valid()
    ensures
      var r := BuildOf(opportunities, rules, bounds, mode, digest);
      var subsets := ChooseSum(r.candidatesConsidered, rules.minLegs, rules.maxLegs);
      var built := r.evaluated - |r.rejections|;
      && r.candidatesConsidered == Min(Min(bounds.maxCandidates, rules.maxCandidates), |opportunities|)
      && r.evaluated == Min(Min(bounds.maxEvaluated, rules.maxEvaluated), subsets)
      && |r.combinations| == Min(Min(bounds.maxResults, rules.maxOutputs), built)
      && (r.truncated <==>
          r.candidatesConsidered < |opportunities| || r.evaluated < subsets || |r.combinations| < built)
  {
    hide NaiveBuilt, RejectionsOf, Ordering.SortBy, RankOrder, ChooseSum, AllCombos;
    var candidates := CandidatesOf(opportunities, rules, bounds);
    AllCombosCount(candidates, rules.minLegs, rules.maxLegs);
    BuiltPlusRejected(VisitedOf(candidates, rules, bounds), rules, mode, digest);
  }

  lemma CombinationLeIsTotalPreorder()
    ensures Ordering.TotalPreorder(CombinationLe)
  {
    forall a: Combination, b: Combination ensures CombinationLe(a, b) || CombinationLe(b, a) {
      Ordering.StrLeTotal(a.id, b.id);
    }
    forall a: Combination, b: Combination, c: Combination | CombinationLe(a, b) && CombinationLe(b, c)
      ensures CombinationLe(a, c)
    {
      if Ordering.StrLe(a.id, b.id) && Ordering.StrLe(b.id, c.id) { Ordering.StrLeTransitive(a.id, b.id, c.id); }
    }
  }

  /** The combinations returned are the best ranked ones: what was cut off ranks after everything kept. */
  lemma ReturnedAreBest(opportunities: seq<Opportunity>, rules: Rules, bounds: Bounds, mode: EvidenceMode,
                        digest: Payload -> string) returns (dropped: seq<Combination>)
    requires rules.Valid() && bounds.Valid()
    ensures
      var kept := BuildOf(opportunities, rules, bounds, mode, digest).combinations;
      var visited := VisitedOf(CandidatesOf(opportunities, rules, bounds), rules, bounds);
      && multiset(kept) + multiset(dropped) == multiset(NaiveBuilt(visited, rules, mode, digest))
      && Ordering.Sorted(kept, CombinationLe)
      && (forall k, d :: k in kept && d in dropped ==> CombinationLe(k, d))
  {
    hide NaiveBuilt, RejectionsOf, RankOrder, AllCombos, CombinationLe, Ordering.Sorted, VisitedOf, CandidatesOf;
    var visited := VisitedOf(CandidatesOf(opportunities, rules, bounds), rules, bounds);
    var built := NaiveBuilt(visited, rules, mode, digest);
    CombinationLeIsTotalPreorder();
    Ordering.SortBySorted(built, CombinationLe);
    dropped := SplitSorted(Ordering.SortBy(built, CombinationLe),
                           Min(Min(bounds.maxResults, rules.maxOutputs), |built|));
  }

  lemma SplitSorted(s: seq<Combination>, n: nat) returns (rest: seq<Combination>)
    requires Ordering.Sorted(s, CombinationLe) && n <= |s|
    ensures multiset(s[..n]) + multiset(rest) == multiset(s)
    ensures Ordering.Sorted(s[..n], CombinationLe)
    ensures forall k, d :: k in s[..n] && d in rest ==> CombinationLe(k, d)
  {
    hide CombinationLe;
    rest := s[n..];
    assert s == s[..n] + rest;
    forall k, d | k in s[..n] && d in rest ensures CombinationLe(k, d) {
      var i :| 0 <= i < n && s[i] == k;
      var j :| 0 <= j < |rest| && rest[j] == d;
      assert s[n + j] == d;
    }
  }

  /** Every returned combination is the validation of legs drawn from the input. */
  lemma ReturnedAreValid(opportunities: seq<Opportunity>, rules: Rules, bounds: Bounds, mode: EvidenceMode,
                         digest: Payload -> string, c: Combination)
    requires rules.Valid() && bounds.Valid()
    requires c in BuildOf(opportunities, rules, bounds, mode, digest).combinations
    ensures Validated(c.legs, rules, digest) == Ok(c)
    ensures Admissible(c.legs, mode) && forall leg :: leg in c.legs ==> leg in opportunities
  {
    hide NaiveBuilt, RejectionsOf, RankOrder, AllCombos, VisitedOf, CandidatesOf, NaiveOutcome, Validated;
    var visited := VisitedOf(CandidatesOf(opportunities, rules, bounds), rules, bounds);
    var built := NaiveBuilt(visited, rules, mode, digest);
    Ordering.SameElements(Ordering.SortBy(built, CombinationLe), built);
    BuiltMeaning(visited, rules, mode, digest, c);
    var t :| t in visited && NaiveOutcome(t, rules, mode, digest) == Ok(c);
    VisitedFromInput(opportunities, rules, bounds, t);
    NaiveOutcomeLegs(t, rules, mode, digest);
  }

  lemma VisitedFromInput(opportunities: seq<Opportunity>, rules: Rules, bounds: Bounds, t: seq<Opportunity>)
    requires rules.Valid() && bounds.Valid()
    requires t in VisitedOf(CandidatesOf(opportunities, rules, bounds), rules, bounds)
    ensures forall x :: x in t ==> x in opportunities
  {
    hide AllCombos, RankOrder;
    var candidates := CandidatesOf(opportunities, rules, bounds);
    assert t in TuplesOf(candidates, rules);
    AllCombosComplete(candidates, rules.minLegs, rules.maxLegs, t);
    ShorterSubsequence(t, candidates);
    Ordering.SameElements(Ordering.SortBy(opportunities, RankOrder(ByExpectedValue)), opportunities);
  }

  lemma NaiveOutcomeLegs(t: seq<Opportunity>, rules: Rules, mode: EvidenceMode, digest: Payload -> string)
    requires rules.Valid() && t != [] && NaiveOutcome(t, rules, mode, digest).Ok?
    ensures var c := NaiveOutcome(t, rules, mode, digest).value;
            && Validated(c.legs, rules, digest) == Ok(c) && Admissible(c.legs, mode)
            && forall x :: x in c.legs <==> x in t
  {
    hide Validated, Ordering.SortBy, IdLe;
    var ordered := Ordering.SortBy(t, IdLe);
    Ordering.SameElements(t, ordered);
    ValidationIgnoresLegOrder(t, ordered, rules, digest);
    LegsAreSorted(t, rules, digest);
  }

  lemma LegsAreSorted(t: seq<Opportunity>, rules: Rules, digest: Payload -> string)
    requires rules.Valid() && Validated(t, rules, digest).Ok?
    ensures Validated(t, rules, digest).value.legs == Ordering.SortBy(t, IdLe)
  {
    hide FirstLegError, FirstPairError, PairsOf, WholeError, DistinctIds, Ordering.SortBy;
  }

  /** Some subsequence of s holds exactly the elements of s that are in `wanted`. */
  lemma {:induction false} Selecting<T>(s: seq<T>, wanted: seq<T>) returns (t: seq<T>)
    ensures IsSubsequence(t, s)
    ensures forall x :: x in t <==> x in s && x in wanted
    decreases s
  {
    if s == [] {
      t := [];
    } else {
      var rest := Selecting(s[1..], wanted);
      assert s == [s[0]] + s[1..];
      t := if s[0] in wanted then [s[0]] + rest else rest;
      assert t != [] && s[0] in wanted ==> t[1..] == rest;
    }
  }

  lemma {:induction false} SubsequenceDistinct<T>(t: seq<T>, s: seq<T>)
    requires IsSubsequence(t, s) && Ordering.NoDuplicates(s)
    ensures Ordering.NoDuplicates(t)
    decreases s
  {
    if t != [] {
      var rest := s[1..];
      forall i, j | 0 <= i < j < |rest| ensures rest[i] != rest[j] { assert s[i + 1] != s[j + 1]; }
      if t[0] == s[0] && IsSubsequence(t[1..], rest) {
        SubsequenceDistinct(t[1..], rest);
        ShorterSubsequence(t[1..], rest);
        assert s[0] !in rest;
        forall i, j | 0 <= i < j < |t| ensures t[i] != t[j] {
          assert t[j] == t[1..][j - 1] && t[j] in t[1..];
          if i > 0 { assert t[i] == t[1..][i - 1]; }
        }
      } else {
        SubsequenceDistinct(t, rest);
      }
    }
  }

  /** When nothing was truncated, every acceptable leg set of the input is among the results. */
  lemma UntruncatedIsComplete(opportunities: seq<Opportunity>, rules: Rules, bounds: Bounds, mode: EvidenceMode,
                              digest: Payload -> string, legs: seq<Opportunity>)
    requires rules.Valid() && bounds.Valid() && DistinctIds(opportunities)
    requires !BuildOf(opportunities, rules, bounds, mode, digest).truncated
    requires forall leg :: leg in legs ==> leg in opportunities
    requires Acceptable(legs, rules) && Admissible(legs, mode)
    ensures Validated(legs, rules, digest).Ok?
    ensures Validated(legs, rules, digest).value in BuildOf(opportunities, rules, bounds, mode, digest).combinations
  {
    hide NaiveBuilt, RejectionsOf, RankOrder, AllCombos, Acceptable, Validated, Ordering.SortBy, DistinctIds;
    var candidates := CandidatesOf(opportunities, rules, bounds);
    assert candidates == Ordering.SortBy(opportunities, RankOrder(ByExpectedValue));
    Ordering.SameElements(candidates, opportunities);
    DistinctIdsPermutation(candidates, opportunities);
    DistinctIdsNoDuplicates(candidates);
    var t := Selecting(candidates, legs);
    SubsequenceDistinct(t, candidates);
    LegsDistinct(legs, rules);
    Ordering.DistinctMultiset(t);
    Ordering.DistinctMultiset(legs);
    assert (set x | x in t) == (set x | x in legs);
    Ordering.SameElements(t, legs);
    ValidationIgnoresLegOrder(t, legs, rules, digest);
    ValidationMeaning(legs, rules, digest);
    var c := Validated(legs, rules, digest).value;
    var visited := VisitedOf(candidates, rules, bounds);
    AllCombosComplete(candidates, rules.minLegs, rules.maxLegs, t);
    assert visited == TuplesOf(candidates, rules);
    LegCountInBounds(legs, rules);
    assert t in visited;
    assert NaiveOutcome(t, rules, mode, digest) == Ok(c);
    BuiltMeaning(visited, rules, mode, digest, c);
    var built := NaiveBuilt(visited, rules, mode, digest);
    Ordering.SameElements(Ordering.SortBy(built, CombinationLe), built);
    assert Ordering.SortBy(built, CombinationLe)[..|built|] == Ordering.SortBy(built, CombinationLe);
  }

  lemma LegsDistinct(legs: seq<Opportunity>, rules: Rules)
    requires Acceptable(legs, rules)
    ensures Ordering.NoDuplicates(legs)
  {
    DistinctIdsNoDuplicates(legs);
  }

  lemma LegCountInBounds(legs: seq<Opportunity>, rules: Rules)
    requires Acceptable(legs, rules)
    ensures rules.minLegs <= |legs| <= rules.maxLegs
  {
  }

  /** With no ranking ties, the order in which opportunities are supplied does not matter. */
  lemma BuildIgnoresInputOrder(a: seq<Opportunity>, b: seq<Opportunity>, rules: Rules, bounds: Bounds,
                               mode: EvidenceMode, digest: Payload -> string)
    requires rules.Valid() && bounds.Valid() && multiset(a) == multiset(b)
    requires Ordering.NoTies(a, RankOrder(ByExpectedValue))
    ensures BuildOf(a, rules, bounds, mode, digest) == BuildOf(b, rules, bounds, mode, digest)
  {
    hide NaiveBuilt, RejectionsOf, AllCombos, RankLe;
    RankOrderIsTotalPreorder(ByExpectedValue);
    Ordering.SameElements(a, b);
    Ordering.SortByPermutationInvariant(a, b, RankOrder(ByExpectedValue));
  }

  /** So with at most one opportunity a selection the order of the input never matters. */
  lemma BuildOfDistinctSelections(a: seq<Opportunity>, b: seq<Opportunity>, rules: Rules, bounds: Bounds,
                                  mode: EvidenceMode, digest: Payload -> string)
    requires rules.Valid() && bounds.Valid() && multiset(a) == multiset(b)
    requires forall i, j :: 0 <= i < j < |a| ==> a[i].eventId != a[j].eventId || a[i].selectionId != a[j].selectionId
    ensures BuildOf(a, rules, bounds, mode, digest) == BuildOf(b, rules, bounds, mode, digest)
  {
    DistinctSelectionsDoNotTie(a, ByExpectedValue);
    BuildIgnoresInputOrder(a, b, rules, bounds, mode, digest);
  }

  /* ---------- The order of the results, on their fields ---------- */

  /**
   * The combinations returned have the greatest expected values of all that were built: they come in descending order,
   * equal ones by identifier, and nothing that was cut off would come before any of them.
   */
  lemma ReturnedByValue(opportunities: seq<Opportunity>, rules: Rules, bounds: Bounds, mode: EvidenceMode,
                        digest: Payload -> string) returns (dropped: seq<Combination>)
    requires rules.Valid() && bounds.Valid()
    ensures var kept := BuildOf(opportunities, rules, bounds, mode, digest).combinations;
            var visited := VisitedOf(CandidatesOf(opportunities, rules, bounds), rules, bounds);
            multiset(kept) + multiset(dropped) == multiset(NaiveBuilt(visited, rules, mode, digest))
    ensures var kept := BuildOf(opportunities, rules, bounds, mode, digest).combinations;
            forall i, j :: 0 <= i < j < |kept| ==>
              kept[i].expectedValue >= kept[j].expectedValue
              && (kept[i].expectedValue == kept[j].expectedValue ==> Ordering.StrLe(kept[i].id, kept[j].id))
    ensures var kept := BuildOf(opportunities, rules, bounds, mode, digest).combinations;
            forall c, d :: c in kept && d in dropped ==>
              c.expectedValue >= d.expectedValue && (c.expectedValue == d.expectedValue ==> Ordering.StrLe(c.id, d.id))
  {
    hide BuildOf, NaiveBuilt, VisitedOf, CandidatesOf, Ordering.StrLe;
    dropped := ReturnedAreBest(opportunities, rules, bounds, mode, digest);
    var kept := BuildOf(opportunities, rules, bounds, mode, digest).combinations;
    forall i, j | 0 <= i < j < |kept|
      ensures kept[i].expectedValue >= kept[j].expectedValue
      ensures kept[i].expectedValue == kept[j].expectedValue ==> Ordering.StrLe(kept[i].id, kept[j].id)
    {
      assert CombinationLe(kept[i], kept[j]);
    }
    forall c, d | c in kept && d in dropped
      ensures c.expectedValue >= d.expectedValue
      ensures c.expectedValue == d.expectedValue ==> Ordering.StrLe(c.id, d.id)
    {
      assert CombinationLe(c, d);
    }
  }

  /** A ranked opportunity has the greater expected value, or the same one and the greater probability, and so on. */
  predicate RankedByValue(a: Opportunity, b: Opportunity) {
    || a.expectedValue > b.expectedValue
    || (a.expectedValue == b.expectedValue && a.probability > b.probability)
    || (a.expectedValue == b.expectedValue && a.probability == b.probability && a.eventId != b.eventId &&
        Ordering.StrLe(a.eventId, b.eventId))
    || (a.expectedValue == b.expectedValue && a.probability == b.probability && a.eventId == b.eventId &&
        Ordering.StrLe(a.selectionId, b.selectionId))
  }

  lemma ValueFirst(a: Opportunity, b: Opportunity)
    ensures RankOrder(ByExpectedValue)(a, b) <==> RankedByValue(a, b)
  {
  }

  /** The candidates considered rank so among each other, and before everything that is left out. */
  lemma CandidatesByValue(opportunities: seq<Opportunity>, rules: Rules, bounds: Bounds)
    returns (left: seq<Opportunity>)
    requires rules.Valid() && bounds.Valid()
    ensures multiset(CandidatesOf(opportunities, rules, bounds)) + multiset(left) == multiset(opportunities)
    ensures |CandidatesOf(opportunities, rules, bounds)| ==
            Min(|opportunities|, Min(bounds.maxCandidates, rules.maxCandidates))
    ensures var candidates := CandidatesOf(opportunities, rules, bounds);
            && (forall i, j :: 0 <= i < j < |candidates| ==> RankedByValue(candidates[i], candidates[j]))
            && forall c <- candidates, o <- left :: RankedByValue(c, o)
  {
    hide RankOrder, RankedByValue, Ordering.SortBy;
    var ranked := Ordering.SortBy(opportunities, RankOrder(ByExpectedValue));
    var n := Min(Min(bounds.maxCandidates, rules.maxCandidates), |opportunities|);
    RankOrderIsTotalPreorder(ByExpectedValue);
    Ordering.SortBySorted(opportunities, RankOrder(ByExpectedValue));
    left := ranked[n..];
    assert ranked == ranked[..n] + left;
    forall i, j | 0 <= i < j < |ranked| ensures RankedByValue(ranked[i], ranked[j]) {
      ValueFirst(ranked[i], ranked[j]);
    }
    forall c <- ranked[..n], o <- left ensures RankedByValue(c, o) {
      var i :| 0 <= i < n && ranked[i] == c;
      var j :| 0 <= j < |left| && left[j] == o;
      assert ranked[n + j] == o;
    }
  }
}
