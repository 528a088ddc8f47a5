/** Accepted ranks, and the check of persisted ranks (opportunities/contracts.py, artifact_schemas.py). */
module DecisionRanks {
  import opened Wrappers
  import Ordering
  import opened Aggregates
  import opened Partitions
  import opened Opportunities
  import opened OpportunitySearch

  /*
   * One filter call numbers its accepted opportunities 1..n, and the check demands that of all decisions under a
   * filter together.
   */

  function FilterOf(d: Decision): string { d.filterId }

  function DecisionIds(rows: seq<Decision>): (r: seq<string>)
    ensures |r| == |rows| && forall i :: 0 <= i < |rows| ==> r[i] == rows[i].opportunityId
  {
    seq(|rows|, i requires 0 <= i < |rows| => rows[i].opportunityId)
  }

  /** The ranks of the eligible rows, in row order. */
  function RanksOf(rows: seq<Decision>): seq<int> {
    if rows == [] then []
    else
      var last := rows[|rows| - 1];
      RanksOf(rows[..|rows| - 1]) + if last.eligible && last.rank.Some? then [last.rank.value] else []
  }

  predicate RanksPresent(rows: seq<Decision>) {
    forall d <- rows :: d.eligible ==> d.rank.Some? && d.rank.value >= 1
  }

  /** 1, 2, ..., n */
  function UpTo(n: nat): (r: seq<int>)
    ensures |r| == n && forall i :: 0 <= i < n ==> r[i] == i + 1
  {
    seq(n, i => i + 1)
  }

  predicate IntLe(a: int, b: int) { a <= b }

  /** What the check accepts for the decisions under one filter configuration. */
  ghost predicate GroupAccepted(rows: seq<Decision>) {
    && Ordering.NoDuplicates(DecisionIds(rows)) && RanksPresent(rows)
    && multiset(RanksOf(rows)) == multiset(UpTo(|RanksOf(rows)|))
  }

  /** What the check accepts: under every filter configuration, each opportunity once and the ranks 1..n. */
  ghost predicate RanksAccepted(rows: seq<Decision>) {
    forall id: string :: GroupAccepted(Members(rows, FilterOf, id))
  }

  /** _validate_decision_ranks */
  method VerifyRanks(rows: seq<Decision>) returns (ok: bool)
    ensures ok <==> RanksAccepted(rows)
  {
    hide GroupAccepted, Members, Grouped;
    var groups, filters := GroupBy(rows, FilterOf);
    for i := 0 to |filters|
      invariant forall j :: 0 <= j < i ==> GroupAccepted(Members(rows, FilterOf, filters[j]))
    {
      GroupAt(groups, filters, rows, FilterOf, i);
      var accepted := VerifyGroup(groups[filters[i]]);
      if !accepted {
        return false;
      }
    }
    forall id: string ensures GroupAccepted(Members(rows, FilterOf, id)) {
      if id !in filters {
        UnlistedGroup(groups, filters, rows, id);
      }
    }
    ok := true;
  }

  lemma UnlistedGroup(groups: map<string, seq<Decision>>, filters: seq<string>, rows: seq<Decision>, id: string)
    requires Grouped(groups, filters, rows, FilterOf) && id !in filters
    ensures GroupAccepted(Members(rows, FilterOf, id))
  {
    assert Listed(groups, id) == [];
  }

  /** Its checks for one filter configuration */
  method VerifyGroup(rows: seq<Decision>) returns (ok: bool)
    ensures ok <==> GroupAccepted(rows)
  {
    var ids := DecisionIds(rows);
    Ordering.SetSize(ids);
    if |set i | i in ids| != |ids| {
      return false;
    }
    var ranks: seq<int> := [];
    for i := 0 to |rows|
      invariant RanksPresent(rows[..i]) && ranks == RanksOf(rows[..i])
    {
      TakeStep(rows, i);
      assert rows[i] in rows && rows[..i + 1] == rows[..i] + [rows[i]];
      if rows[i].eligible {
        if rows[i].rank.None? || rows[i].rank.value < 1 {
          return false;
        }
        ranks := ranks + [rows[i].rank.value];
      }
    }
    assert rows[..|rows|] == rows;
    if ranks == [] {
      return true;
    }
    SortedRanks(ranks);
    ok := Ordering.SortBy(ranks, IntLe) == UpTo(|ranks|);
  }

  lemma SortedRanks(ranks: seq<int>)
    ensures Ordering.SortBy(ranks, IntLe) == UpTo(|ranks|) <==> multiset(ranks) == multiset(UpTo(|ranks|))
  {
    Ordering.SortBySorted(ranks, IntLe);
    if multiset(ranks) == multiset(UpTo(|ranks|)) {
      Ordering.SortedUnique(UpTo(|ranks|), Ordering.SortBy(ranks, IntLe), IntLe);
    }
  }

  /* ---------- The decisions of one filter call ---------- */

  lemma DecisionsStep(byId: seq<Opportunity>, f: Filter, accepted: seq<Opportunity>)
    requires byId != []
    ensures var front, last := byId[..|byId| - 1], byId[|byId| - 1];
            RanksOf(DecisionsFor(byId, f, accepted)) ==
            RanksOf(DecisionsFor(front, f, accepted)) + if last in accepted then [RankIn(last, accepted).value] else []
  {
    hide ReasonsFor, RankIn;
    var rows := DecisionsFor(byId, f, accepted);
    assert rows[..|rows| - 1] == DecisionsFor(byId[..|byId| - 1], f, accepted);
    assert rows[|rows| - 1] == DecisionOf(byId[|byId| - 1], f, accepted);
  }

  /** A rank is listed exactly for the accepted opportunities among the decided ones. */
  lemma {:induction false} RankListed(byId: seq<Opportunity>, f: Filter, accepted: seq<Opportunity>, k: int)
    ensures k in RanksOf(DecisionsFor(byId, f, accepted)) <==>
            1 <= k <= |accepted| && accepted[k - 1] in byId && RankIn(accepted[k - 1], accepted) == Some(k)
  {
    hide DecisionsFor, RanksOf, RankIn;
    if byId == [] {
      NothingDecided(f, accepted);
    } else {
      var front, last := byId[..|byId| - 1], byId[|byId| - 1];
      assert byId == front + [last];
      RankListed(front, f, accepted, k);
      DecisionsStep(byId, f, accepted);
    }
  }

  lemma NothingDecided(f: Filter, accepted: seq<Opportunity>)
    ensures RanksOf(DecisionsFor([], f, accepted)) == []
  {
  }

  lemma {:induction false} RanksDistinct(byId: seq<Opportunity>, f: Filter, accepted: seq<Opportunity>)
    requires DistinctIds(byId)
    ensures Ordering.NoDuplicates(RanksOf(DecisionsFor(byId, f, accepted)))
  {
    hide DecisionsFor, RanksOf, RankIn;
    if byId == [] {
      NothingDecided(f, accepted);
    } else {
      var front, last := byId[..|byId| - 1], byId[|byId| - 1];
      PrefixIdsDistinct(byId, |byId| - 1);
      DistinctIdsNoDuplicates(byId);
      RanksDistinct(front, f, accepted);
      DecisionsStep(byId, f, accepted);
      if last in accepted {
        RankListed(front, f, accepted, RankIn(last, accepted).value);
      }
    }
  }

  /** The decisions of one call number its accepted opportunities 1..n. */
  lemma OneCallRanks(opportunities: seq<Opportunity>, f: Filter)
    requires DistinctIds(opportunities)
    ensures var r := SearchOf(opportunities, f);
            && GroupAccepted(r.decisions) && multiset(RanksOf(r.decisions)) == multiset(UpTo(|r.accepted|))
            && forall d <- r.decisions :: d.filterId == f.id
  {
    hide Codes, IdLe, RankLe, SearchOf, DistinctIds, RanksOf, DecisionsFor, RankIn;
    var byId, accepted := Ordering.SortBy(opportunities, IdLe), SearchOf(opportunities, f).accepted;
    DistinctIdsPermutation(byId, opportunities);
    Ordering.SameElements(byId, opportunities);
    SearchPartitions(opportunities, f);
    AcceptedIdsDistinct(opportunities, f);
    RanksDistinct(byId, f, accepted);
    DecidedById(opportunities, f);
    var ranks := RanksOf(SearchOf(opportunities, f).decisions);
    forall k ensures k in ranks <==> 1 <= k <= |accepted| {
      RankListed(byId, f, accepted, k);
      if 1 <= k <= |accepted| {
        RankOfDistinct(accepted, k);
        assert accepted[k - 1] in accepted;
      }
    }
    ExactRanks(ranks, |accepted|);
    DecisionRowsSound(byId, f, accepted);
  }

  lemma DecidedById(opportunities: seq<Opportunity>, f: Filter)
    ensures SearchOf(opportunities, f).decisions ==
            DecisionsFor(Ordering.SortBy(opportunities, IdLe), f, SearchOf(opportunities, f).accepted)
  {
    hide DecisionsFor;
  }

  lemma ExactRanks(ranks: seq<int>, n: nat)
    requires Ordering.NoDuplicates(ranks) && forall k :: k in ranks <==> 1 <= k <= n
    ensures multiset(ranks) == multiset(UpTo(n)) && |ranks| == n
  {
    forall k | 1 <= k <= n ensures k in UpTo(n) {
      assert UpTo(n)[k - 1] == k;
    }
    Ordering.DistinctMultiset(ranks);
    Ordering.DistinctMultiset(UpTo(n));
    assert (set k | k in ranks) == (set k | k in UpTo(n));
    assert |multiset(ranks)| == |ranks| && |multiset(UpTo(n))| == n;
  }

  lemma DecisionRowsSound(byId: seq<Opportunity>, f: Filter, accepted: seq<Opportunity>)
    requires DistinctIds(byId)
    ensures var rows := DecisionsFor(byId, f, accepted);
            && Ordering.NoDuplicates(DecisionIds(rows)) && RanksPresent(rows)
            && forall d <- rows :: d.filterId == f.id
  {
    assert DecisionIds(DecisionsFor(byId, f, accepted)) == Ids(byId);
  }

  /** With all decisions under one filter configuration the check looks at all of them together. */
  lemma OneFilter(rows: seq<Decision>, id: string)
    requires forall d <- rows :: d.filterId == id
    ensures RanksAccepted(rows) <==> GroupAccepted(rows)
  {
    hide GroupAccepted, Members;
    AllMembers(rows, FilterOf, id);
    forall other: string | other != id ensures GroupAccepted(Members(rows, FilterOf, other)) {
      NoMembers(rows, FilterOf, other);
      NothingAccepted();
    }
  }

  lemma NothingAccepted()
    ensures GroupAccepted([])
  {
  }

  /** One filter call over distinct opportunities emits decisions that the check accepts. */
  lemma OneCallIsAccepted(opportunities: seq<Opportunity>, f: Filter)
    requires DistinctIds(opportunities)
    ensures RanksAccepted(SearchOf(opportunities, f).decisions)
  {
    hide SearchOf, DistinctIds, GroupAccepted, RanksAccepted;
    OneCallRanks(opportunities, f);
    OneFilter(SearchOf(opportunities, f).decisions, f.id);
  }

  /* ---------- The decisions of several calls together ---------- */

  /** The decisions of the calls of one filter configuration, as a backtest collects them fold by fold. */
  function AllDecisions(calls: seq<seq<Opportunity>>, f: Filter): seq<Decision> {
    if calls == [] then []
    else AllDecisions(calls[..|calls| - 1], f) + SearchOf(calls[|calls| - 1], f).decisions
  }

  /** The call accepts something. */
  function Accepting(f: Filter): seq<Opportunity> -> bool {
    (call: seq<Opportunity>) => SearchOf(call, f).accepted != []
  }

  lemma {:induction false} RanksAppend(a: seq<Decision>, b: seq<Decision>)
    ensures RanksOf(a + b) == RanksOf(a) + RanksOf(b)
  {
    if b == [] {
      assert a + b == a;
    } else {
      var front, last := b[..|b| - 1], b[|b| - 1];
      assert (a + b)[..|a + b| - 1] == a + front;
      RanksAppend(a, front);
    }
  }

  lemma OneInUpTo(n: nat)
    ensures multiset(UpTo(n))[1] == if n > 0 then 1 else 0
  {
    if n > 0 {
      assert UpTo(n) == [1] + UpTo(n)[1..];
      assert 1 !in UpTo(n)[1..];
    }
  }

  lemma CallRanks(call: seq<Opportunity>, f: Filter)
    requires DistinctIds(call)
    ensures var r := SearchOf(call, f); var ranks := RanksOf(r.decisions);
            && multiset(ranks)[1] == (if r.accepted != [] then 1 else 0)
            && |ranks| == |r.accepted| && multiset(ranks) == multiset(UpTo(|ranks|))
            && RanksPresent(r.decisions) && forall d <- r.decisions :: d.filterId == f.id
  {
    hide RanksOf, UpTo, SearchOf, DistinctIds;
    OneCallRanks(call, f);
    OneInUpTo(|SearchOf(call, f).accepted|);
    assert |multiset(RanksOf(SearchOf(call, f).decisions))| == |multiset(UpTo(|SearchOf(call, f).accepted|))|;
  }

  /** Rank 1 appears once for every call that accepted something. */
  lemma {:induction false} FirstRanks(calls: seq<seq<Opportunity>>, f: Filter)
    requires forall call <- calls :: DistinctIds(call)
    ensures multiset(RanksOf(AllDecisions(calls, f)))[1] == CountBy(calls, Accepting(f))
    ensures CountBy(calls, Accepting(f)) == 0 ==> RanksOf(AllDecisions(calls, f)) == []
    ensures RanksPresent(AllDecisions(calls, f))
    ensures forall d <- AllDecisions(calls, f) :: d.filterId == f.id
  {
    hide RanksOf, SearchOf, DistinctIds;
    if calls == [] {
      NoRanks();
    } else {
      var front, last := calls[..|calls| - 1], calls[|calls| - 1];
      assert last in calls;
      FirstRanks(front, f);
      RanksAppend(AllDecisions(front, f), SearchOf(last, f).decisions);
      CallRanks(last, f);
    }
  }

  lemma NoRanks()
    ensures RanksOf([]) == []
  {
  }

  lemma {:induction false} SingleCallRanks(calls: seq<seq<Opportunity>>, f: Filter)
    requires (forall call <- calls :: DistinctIds(call)) && CountBy(calls, Accepting(f)) <= 1
    ensures var ranks := RanksOf(AllDecisions(calls, f)); multiset(ranks) == multiset(UpTo(|ranks|))
  {
    hide RanksOf, UpTo, SearchOf, DistinctIds;
    if calls == [] {
      NoRanks();
    } else {
      var front, last := calls[..|calls| - 1], calls[|calls| - 1];
      assert last in calls;
      RanksAppend(AllDecisions(front, f), SearchOf(last, f).decisions);
      CallRanks(last, f);
      if Accepting(f)(last) {
        FirstRanks(front, f);
      } else {
        SingleCallRanks(front, f);
        assert RanksOf(AllDecisions(front, f)) + [] == RanksOf(AllDecisions(front, f));
      }
    }
  }

  /**
   * The ranks restart in every call, but the check looks at all decisions under the filter together: the decisions of
   * several calls are accepted exactly when no opportunity was decided twice and at most one call accepted anything.
   */
  lemma CallsAcceptedExactly(calls: seq<seq<Opportunity>>, f: Filter)
    requires forall call <- calls :: DistinctIds(call)
    ensures RanksAccepted(AllDecisions(calls, f)) <==>
            Ordering.NoDuplicates(DecisionIds(AllDecisions(calls, f))) && CountBy(calls, Accepting(f)) <= 1
  {
    hide RanksOf, AllDecisions, DistinctIds, RanksAccepted, CountBy;
    var rows := AllDecisions(calls, f);
    FirstRanks(calls, f);
    OneFilter(rows, f.id);
    OneInUpTo(|RanksOf(rows)|);
    if CountBy(calls, Accepting(f)) <= 1 {
      SingleCallRanks(calls, f);
    }
  }
}
