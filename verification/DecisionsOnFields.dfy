/** What the rank check accepts and what manual validation lists, on fields (artifact_schemas.py, contracts.py). */
module DecisionsOnFields {
  import opened Wrappers
  import Ordering
  import opened Aggregates
  import opened Partitions
  import opened Opportunities
  import opened OpportunitySearch
  import opened Dependencies
  import opened CombinationContracts
  import CombinationsOnFields
  import MetricsOnBets
  import opened DecisionRanks
  import opened ManualValidation

  /* ---------- Pairs of rows of one group ---------- */

  /** What holds of all ordered pairs of a group holds of all ordered pairs of its members in the whole sequence. */
  lemma {:induction false} PairsOfMembers<T(!new), K>(s: seq<T>, f: T -> K, k: K, holds: (T, T) -> bool)
    ensures (forall i, j :: 0 <= i < j < |Members(s, f, k)| ==> holds(Members(s, f, k)[i], Members(s, f, k)[j])) <==>
            forall i, j :: 0 <= i < j < |s| && f(s[i]) == k && f(s[j]) == k ==> holds(s[i], s[j])
  {
    if s != [] {
      var front, last := s[..|s| - 1], s[|s| - 1];
      assert s == front + [last];
      var group := Members(front, f, k);
      PairsOfMembers(front, f, k, holds);
      if f(last) == k {
        assert Members(s, f, k) == group + [last];
        LastPairs(group, last, holds);
        LastOfGroup(front, last, f, k, holds);
      } else {
        assert Members(s, f, k) == group;
      }
    }
  }

  lemma LastPairs<T(!new)>(group: seq<T>, last: T, holds: (T, T) -> bool)
    ensures var all := group + [last];
            (forall i, j :: 0 <= i < j < |all| ==> holds(all[i], all[j])) <==>
            && (forall i, j :: 0 <= i < j < |group| ==> holds(group[i], group[j]))
            && forall x <- group :: holds(x, last)
  {
    var all := group + [last];
    if forall i, j :: 0 <= i < j < |all| ==> holds(all[i], all[j]) {
      forall i, j | 0 <= i < j < |group| ensures holds(group[i], group[j]) {
        assert holds(all[i], all[j]);
      }
      forall x <- group ensures holds(x, last) {
        var i :| 0 <= i < |group| && group[i] == x;
        assert holds(all[i], all[|group|]);
      }
    }
  }

  lemma LastOfGroup<T(!new), K>(front: seq<T>, last: T, f: T -> K, k: K, holds: (T, T) -> bool)
    requires f(last) == k
    ensures var s := front + [last];
            (forall i, j :: 0 <= i < j < |s| && f(s[i]) == k && f(s[j]) == k ==> holds(s[i], s[j])) <==>
            && (forall i, j :: 0 <= i < j < |front| && f(front[i]) == k && f(front[j]) == k ==>
                  holds(front[i], front[j]))
            && forall x <- Members(front, f, k) :: holds(x, last)
  {
    hide Members;
    var s := front + [last];
    if forall i, j :: 0 <= i < j < |s| && f(s[i]) == k && f(s[j]) == k ==> holds(s[i], s[j]) {
      forall i, j | 0 <= i < j < |front| && f(front[i]) == k && f(front[j]) == k ensures holds(front[i], front[j]) {
        assert holds(s[i], s[j]);
      }
      forall x <- Members(front, f, k) ensures holds(x, last) {
        var i :| 0 <= i < |front| && front[i] == x;
        assert holds(s[i], s[|front|]);
      }
    }
  }

  /* ---------- The ranks of one group ---------- */

  predicate Differ(d: Decision, e: Decision) { d.opportunityId != e.opportunityId }

  /** Two eligible rows have different ranks. */
  predicate RankedApart(d: Decision, e: Decision) { d.eligible && e.eligible ==> d.rank != e.rank }

  predicate EligibleRow(d: Decision) { d.eligible }

  lemma RanksStep(front: seq<Decision>, last: Decision)
    requires last.eligible ==> last.rank.Some?
    ensures RanksOf(front + [last]) == RanksOf(front) + if last.eligible then [last.rank.value] else []
    ensures CountBy(front + [last], EligibleRow) == CountBy(front, EligibleRow) + if last.eligible then 1 else 0
  {
    assert (front + [last])[..|front|] == front;
  }

  lemma NoRows()
    ensures RanksOf([]) == [] && CountBy([], EligibleRow) == 0
  {
  }

  lemma {:induction false} RankListedOnce(rows: seq<Decision>)
    requires RanksPresent(rows)
    ensures Ordering.NoDuplicates(RanksOf(rows)) <==>
            forall i, j :: 0 <= i < j < |rows| ==> RankedApart(rows[i], rows[j])
    ensures forall k :: k in RanksOf(rows) <==> exists d <- rows :: d.eligible && d.rank == Some(k)
    ensures |RanksOf(rows)| == CountBy(rows, EligibleRow)
  {
    hide RanksOf, CountBy, Ordering.NoDuplicates;
    if rows == [] {
      NoRows();
      assert Ordering.NoDuplicates<int>([]) by { NothingTwice(); }
    } else {
      var front, last := rows[..|rows| - 1], rows[|rows| - 1];
      assert rows == front + [last];
      assert last in rows;
      RankListedOnce(front);
      RanksStep(front, last);
      LastPairs(front, last, RankedApart);
      if last.eligible {
        LastDistinct(RanksOf(front), last.rank.value);
      } else {
        assert RanksOf(rows) == RanksOf(front);
      }
    }
  }

  lemma NothingTwice()
    ensures Ordering.NoDuplicates<int>([])
  {
  }

  lemma LastDistinct(ranks: seq<int>, k: int)
    ensures Ordering.NoDuplicates(ranks + [k]) <==> Ordering.NoDuplicates(ranks) && k !in ranks
  {
    var all := ranks + [k];
    if Ordering.NoDuplicates(all) {
      forall i, j | 0 <= i < j < |ranks| ensures ranks[i] != ranks[j] {
        assert all[i] != all[j];
      }
      forall i | 0 <= i < |ranks| ensures ranks[i] != k {
        assert all[i] != all[|ranks|];
      }
    }
  }

  /** Numbers are 1..n in some order if and only if they are n different ones within 1..n. */
  lemma ExactlyUpTo(ranks: seq<int>)
    ensures multiset(ranks) == multiset(UpTo(|ranks|)) <==>
            Ordering.NoDuplicates(ranks) && forall k <- ranks :: 1 <= k <= |ranks|
  {
    var n := |ranks|;
    Ordering.DistinctMultiset(UpTo(n));
    if multiset(ranks) == multiset(UpTo(n)) {
      Ordering.SameElements(ranks, UpTo(n));
      Ordering.SetSize(ranks);
      Ordering.SetSize(UpTo(n));
      assert (set k | k in ranks) == (set k | k in UpTo(n));
    }
    if Ordering.NoDuplicates(ranks) && forall k <- ranks :: 1 <= k <= n {
      Ordering.SetSize(ranks);
      Ordering.SetSize(UpTo(n));
      Ordering.DistinctMultiset(ranks);
      forall k <- ranks ensures k in UpTo(n) {
        assert UpTo(n)[k - 1] == k;
      }
      Subset((set k | k in ranks), (set k | k in UpTo(n)));
    }
  }

  lemma Subset(a: set<int>, b: set<int>)
    requires a <= b && |a| == |b|
    ensures a == b
  {
    assert b == a + (b - a);
    assert |b| == |a| + |b - a|;
  }

  lemma GroupOnFields(rows: seq<Decision>)
    ensures GroupAccepted(rows) <==>
            && (forall i, j :: 0 <= i < j < |rows| ==> Differ(rows[i], rows[j]))
            && (forall i, j :: 0 <= i < j < |rows| ==> RankedApart(rows[i], rows[j]))
            && forall d <- rows :: d.eligible ==>
                 d.rank.Some? && 1 <= d.rank.value <= CountBy(rows, (e: Decision) => e.eligible)
  {
    hide RanksOf, CountBy;
    IdsDiffer(rows);
    if RanksPresent(rows) {
      RankListedOnce(rows);
      MetricsOnBets.SameCounts(rows, EligibleRow, (e: Decision) => e.eligible);
      ExactlyUpTo(RanksOf(rows));
      var n := CountBy(rows, (e: Decision) => e.eligible);
      forall d <- rows ensures d.eligible ==> d.rank.value in RanksOf(rows) {
        assert d.eligible ==> d.rank == Some(d.rank.value);
      }
      assert (forall k <- RanksOf(rows) :: 1 <= k <= n) <==>
             forall d <- rows :: d.eligible ==> 1 <= d.rank.value <= n;
    }
  }

  lemma IdsDiffer(rows: seq<Decision>)
    ensures Ordering.NoDuplicates(DecisionIds(rows)) <==>
            forall i, j :: 0 <= i < j < |rows| ==> Differ(rows[i], rows[j])
  {
    if Ordering.NoDuplicates(DecisionIds(rows)) {
      forall i, j | 0 <= i < j < |rows| ensures Differ(rows[i], rows[j]) {
        assert DecisionIds(rows)[i] != DecisionIds(rows)[j];
      }
    }
  }

  /**
   * The check accepts decisions if and only if under one filter no opportunity is decided twice, every eligible one is
   * ranked, no two of them alike, and each rank lies between one and the number of eligible decisions under the filter.
   */
  lemma RanksOnFields(rows: seq<Decision>)
    ensures RanksAccepted(rows) <==>
            && (forall i, j :: 0 <= i < j < |rows| && rows[i].filterId == rows[j].filterId ==>
                  rows[i].opportunityId != rows[j].opportunityId)
            && (forall i, j :: 0 <= i < j < |rows| && rows[i].filterId == rows[j].filterId ==>
                  !rows[i].eligible || !rows[j].eligible || rows[i].rank != rows[j].rank)
            && forall d <- rows :: d.eligible ==>
                 && d.rank.Some?
                 && 1 <= d.rank.value <= CountBy(rows, (e: Decision) => e.eligible && e.filterId == d.filterId)
  {
    hide GroupAccepted, Members, CountBy;
    forall id: string
      ensures GroupAccepted(Members(rows, FilterOf, id)) <==> GroupPasses(rows, id)
    {
      MembersPass(rows, id);
    }
    if RanksAccepted(rows) {
      forall i, j | 0 <= i < j < |rows| && rows[i].filterId == rows[j].filterId
        ensures rows[i].opportunityId != rows[j].opportunityId
        ensures rows[i].eligible && rows[j].eligible ==> rows[i].rank != rows[j].rank
      {
        assert GroupPasses(rows, rows[i].filterId);
      }
      forall d <- rows
        ensures d.eligible ==>
                  && d.rank.Some?
                  && 1 <= d.rank.value <= CountBy(rows, (e: Decision) => e.eligible && e.filterId == d.filterId)
      {
        assert GroupPasses(rows, d.filterId);
      }
    }
  }

  predicate GroupPasses(rows: seq<Decision>, id: string) {
    && (forall i, j :: 0 <= i < j < |rows| && rows[i].filterId == id && rows[j].filterId == id ==>
          rows[i].opportunityId != rows[j].opportunityId)
    && (forall i, j :: 0 <= i < j < |rows| && rows[i].filterId == id && rows[j].filterId == id ==>
          !rows[i].eligible || !rows[j].eligible || rows[i].rank != rows[j].rank)
    && forall d <- rows :: d.filterId == id && d.eligible ==>
         d.rank.Some? && 1 <= d.rank.value <= CountBy(rows, (e: Decision) => e.eligible && e.filterId == id)
  }

  lemma MembersPass(rows: seq<Decision>, id: string)
    ensures GroupAccepted(Members(rows, FilterOf, id)) <==> GroupPasses(rows, id)
  {
    hide GroupAccepted, Members, CountBy;
    var group := Members(rows, FilterOf, id);
    GroupOnFields(group);
    PairsOfMembers(rows, FilterOf, id, Differ);
    PairsOfMembers(rows, FilterOf, id, RankedApart);
    MetricsOnBets.CountMembers(rows, FilterOf, id, (e: Decision) => e.eligible,
                               (e: Decision) => e.eligible && e.filterId == id);
    assert forall d <- rows :: d in group <==> d.filterId == id;
  }

  /* ---------- Manual validation ---------- */

  predicate Bad(d: LegDependency) { d.classification != STRUCTURALLY_SEPARATE }

  /** The reasons list every bad pair at its place among the bad ones. */
  lemma {:induction false} ReasonsByPair(pairs: seq<LegDependency>, n: nat)
    requires n < |pairs|
    ensures |PairReasons(pairs)| == CountBy(pairs, Bad)
    ensures Bad(pairs[n]) ==>
              && CountBy(pairs[..n], Bad) < |PairReasons(pairs)|
              && PairReasons(pairs)[CountBy(pairs[..n], Bad)] ==
                 if pairs[n].classification == CONFLICT then ConflictingLegs(pairs[n].reason)
                 else UnknownDependency(pairs[n].reason)
  {
    var front, last := pairs[..|pairs| - 1], pairs[|pairs| - 1];
    if |pairs| > 1 {
      ReasonsByPair(front, if n < |front| then n else 0);
    } else {
      assert front == [];
    }
    if n < |front| {
      assert front[..n] == pairs[..n];
    } else {
      assert pairs[..n] == front;
    }
  }

  /**
   * A manual result lists the legs by identifier, the classification of each of their pairs and, in the order of the
   * pairs, a reason for each one that is not structurally separate; without such a pair, the error of full validation.
   */
  lemma ManualOnFields(legs: seq<Opportunity>, rules: Rules, digest: Payload -> string, n: nat)
    requires rules.Valid() && n < |Manual(legs, rules, digest).dependencies|
    ensures var r := Manual(legs, rules, digest); var d := r.dependencies[n];
            && multiset(r.legs) == multiset(legs) && 2 * |r.dependencies| == |legs| * (|legs| - 1)
            && (forall i, j :: 0 <= i < j < |r.legs| ==>
                  && Ordering.StrLe(r.legs[i].id, r.legs[j].id)
                  && ClassifyLegs(r.legs[i], r.legs[j]) in r.dependencies)
            && (if exists e <- r.dependencies :: Bad(e) then
                  && |r.reasons| == CountBy(r.dependencies, Bad)
                  && (Bad(d) ==>
                        && CountBy(r.dependencies[..n], Bad) < |r.reasons|
                        && r.reasons[CountBy(r.dependencies[..n], Bad)] ==
                           if d.classification == CONFLICT then ConflictingLegs(d.reason)
                           else UnknownDependency(d.reason))
                else r.reasons == match Validated(legs, rules, digest) case Ok(_) => [] case Err(e) => [e])
  {
    hide Ordering.SortBy, PairsOf, PairReasons, Validated, ClassifyLegs, CountBy;
    var ordered := Ordering.SortBy(legs, IdLe);
    CombinationsOnFields.InIdOrder(legs);
    CombinationsOnFields.PairCount(ordered);
    forall i, j | 0 <= i < j < |ordered| ensures ClassifyLegs(ordered[i], ordered[j]) in PairsOf(ordered) {
      CombinationsOnFields.PairByIndex(ordered, i, j);
    }
    ReasonsByPair(PairsOf(ordered), n);
    CountNone(PairsOf(ordered), Bad);
    Ordering.SameElements(ordered, legs);
    ValidationIgnoresLegOrder(ordered, legs, rules, digest);
  }
}
