/** Filtering and ranking of opportunities (opportunities/contracts.py). */
module OpportunitySearch {
  import opened Wrappers
  import Ordering
  import opened Aggregates
  import opened Opportunities

  datatype Code =
    | HistoricalBenchmark | SportCode | MarketCode | ProviderCode | EventStart | Probability | Edge | ExpectedValue
    | SelectionOdds | PredictionQuality | RankCap

  datatype Filter = Filter(
    id: string, minProbability: real, minEdge: real, minExpectedValue: real, minOdds: real, maxOdds: real,
    sports: set<string>, markets: set<string>, providers: set<string>,
    startsAtOrAfter: Option<int>, startsBefore: Option<int>, includeHistorical: bool, ranking: RankingMode,
    cap: Option<int>)
  {
    predicate Valid() {
      && 0.0 <= minProbability <= 1.0 && 1.0 < minOdds <= maxOdds && (cap.Some? ==> cap.value >= 1)
      && (startsAtOrAfter.Some? && startsBefore.Some? ==> startsAtOrAfter.value < startsBefore.value)
    }
  }

  datatype Rejected = Rejected(opportunity: Opportunity, codes: seq<Code>)

  /** The persisted record of what happened to one opportunity under one filter configuration. */
  datatype Decision = Decision(
    opportunityId: string, filterId: string, decisionAsOf: int, eligible: bool, codes: seq<Code>, rank: Option<int>)

  datatype SearchResult = SearchResult(accepted: seq<Opportunity>, rejected: seq<Rejected>, decisions: seq<Decision>)

  datatype SearchError = DuplicateOpportunity(id: string)

  function If(condition: bool, code: Code): seq<Code> {
    if condition then [code] else []
  }

  /** Reasons that lie in what is bet on. */
  function ScopeCodes(o: Opportunity, f: Filter): seq<Code> {
    If(o.evaluationMode.ClosingLineBenchmark? && !f.includeHistorical, HistoricalBenchmark)
    + If(f.sports != {} && o.selection.market.sport !in f.sports, SportCode)
    + If(f.markets != {} && o.selection.market.key !in f.markets, MarketCode)
    + If(f.providers != {} && o.providerId !in f.providers, ProviderCode)
    + If(f.startsAtOrAfter.Some? && o.eventStart < f.startsAtOrAfter.value, EventStart)
    + If(f.startsBefore.Some? && o.eventStart >= f.startsBefore.value, EventStart)
  }

  /** Reasons that lie in its numbers. */
  function ValueCodes(o: Opportunity, f: Filter): seq<Code> {
    If(o.probability < f.minProbability, Probability)
    + If(o.edge < f.minEdge, Edge)
    + If(o.expectedValue < f.minExpectedValue, ExpectedValue)
    + If(!(f.minOdds <= o.odds <= f.maxOdds), SelectionOdds)
    + If(!o.qualityPassed && !(o.evaluationMode.ClosingLineBenchmark? && f.includeHistorical), PredictionQuality)
  }

  /** _rejection_codes */
  function Codes(o: Opportunity, f: Filter): seq<Code> {
    ScopeCodes(o, f) + ValueCodes(o, f)
  }

  predicate Eligible(o: Opportunity, f: Filter) {
    Codes(o, f) == []
  }

  function Kept(s: seq<Opportunity>, f: Filter): (r: seq<Opportunity>)
    ensures forall o <- r :: o in s && Eligible(o, f)
  {
    if s == [] then []
    else
      var last := s[|s| - 1];
      assert last in s && s == s[..|s| - 1] + [last];
      Kept(s[..|s| - 1], f) + if Eligible(last, f) then [last] else []
  }

  function Dropped(s: seq<Opportunity>, f: Filter): (r: seq<Rejected>)
    ensures forall d <- r :: d.opportunity in s && !Eligible(d.opportunity, f) && d.codes == Codes(d.opportunity, f)
  {
    if s == [] then []
    else
      var last := s[|s| - 1];
      assert last in s && s == s[..|s| - 1] + [last];
      Dropped(s[..|s| - 1], f) + if Eligible(last, f) then [] else [Rejected(last, Codes(last, f))]
  }

  function Overflow(s: seq<Opportunity>): (r: seq<Rejected>)
    ensures |r| == |s| && forall i :: 0 <= i < |s| ==> r[i] == Rejected(s[i], [RankCap])
  {
    seq(|s|, i requires 0 <= i < |s| => Rejected(s[i], [RankCap]))
  }

  function Capped(s: seq<Opportunity>, cap: Option<int>): (n: nat)
    ensures n <= |s|
  {
    if cap.None? || cap.value >= |s| then |s| else if cap.value < 0 then 0 else cap.value
  }

  predicate RejectedLe(a: Rejected, b: Rejected) {
    IdLe(a.opportunity, b.opportunity)
  }

  /** Position plus one in the accepted list. */
  function RankIn(o: Opportunity, accepted: seq<Opportunity>): (r: Option<int>)
    ensures r.Some? <==> o in accepted
    ensures r.Some? ==> 1 <= r.value <= |accepted| && accepted[r.value - 1] == o
  {
    if accepted == [] then None
    else if accepted[|accepted| - 1] == o then Some(|accepted|)
    else
      assert accepted == accepted[..|accepted| - 1] + [accepted[|accepted| - 1]];
      RankIn(o, accepted[..|accepted| - 1])
  }

  /** The reasons a rejection records: all that apply, or the cap alone. */
  function ReasonsFor(o: Opportunity, f: Filter): seq<Code> {
    if Eligible(o, f) then [RankCap] else Codes(o, f)
  }

  function DecisionOf(o: Opportunity, f: Filter, accepted: seq<Opportunity>): Decision {
    Decision(o.id, f.id, o.decisionAsOf, o in accepted, if o in accepted then []
                                                        else ReasonsFor(o, f), RankIn(o, accepted))
  }

  /** The decisions over the opportunities in identifier order. */
  function DecisionsFor(byId: seq<Opportunity>, f: Filter, accepted: seq<Opportunity>): (r: seq<Decision>)
    ensures |r| == |byId| && forall i :: 0 <= i < |r| ==> r[i] == DecisionOf(byId[i], f, accepted)
  {
    seq(|byId|, i requires 0 <= i < |byId| => DecisionOf(byId[i], f, accepted))
  }

  /** What the search returns when the identifiers are distinct. */
  function SearchOf(opportunities: seq<Opportunity>, f: Filter): SearchResult {
    var byId := Ordering.SortBy(opportunities, IdLe);
    var ranked := Ordering.SortBy(Kept(byId, f), RankOrder(f.ranking));
    var n := Capped(ranked, f.cap);
    SearchResult(ranked[..n], Ordering.SortBy(Dropped(byId, f) + Overflow(ranked[n..]), RejectedLe),
                 DecisionsFor(byId, f, ranked[..n]))
  }

  /** filter_and_rank_opportunities */
  method FilterAndRank(opportunities: seq<Opportunity>, f: Filter) returns (r: Result<SearchResult, SearchError>)
    requires f.Valid()
    ensures r.Ok? <==> DistinctIds(opportunities)
    ensures r.Err? ==> exists i :: FirstRepeat(Ordering.SortBy(opportunities, IdLe), i) &&
                         Ordering.SortBy(opportunities, IdLe)[i].id == r.error.id
    ensures r.Ok? ==> r.value == SearchOf(opportunities, f)
  {
    hide Codes, Ordering.SortBy, RankOrder, FirstRepeat, Overflow, RejectedLe, Kept, Dropped, DistinctIds, DecisionsFor;
    var byId := Ordering.SortBy(opportunities, IdLe);
    NothingScanned(f);
    DistinctIdsPermutation(byId, opportunities);
    var seen: set<string> := {};
    var accepted, rejected := [], [];
    for i := 0 to |byId|
      invariant seen == set o | o in byId[..i] :: o.id
      invariant DistinctIds(byId[..i])
      invariant accepted == Kept(byId[..i], f) && rejected == Dropped(byId[..i], f)
    {
      var o := byId[i];
      ScanStep(byId, i, f);
      if o.id in seen {
        RepeatedId(byId, i);
        RepeatFound(byId, i);
        assert FirstRepeat(Ordering.SortBy(opportunities, IdLe), i);
        return Err(DuplicateOpportunity(o.id));
      }
      NewId(byId, i);
      seen := seen + {o.id};
      var codes := Codes(o, f);
      if codes != [] {
        rejected := rejected + [Rejected(o, codes)];
      } else {
        accepted := accepted + [o];
      }
    }
    assert byId[..|byId|] == byId;
    accepted := Ordering.SortBy(accepted, RankOrder(f.ranking));
    var overflow := [];
    if f.cap.Some? && f.cap.value < |accepted| {
      overflow := accepted[f.cap.value..];
      accepted := accepted[..f.cap.value];
    } else {
      assert accepted[..|accepted|] == accepted && accepted[|accepted|..] == [];
    }
    rejected := Ordering.SortBy(rejected + Overflow(overflow), RejectedLe);
    var decisions := Decide(opportunities, byId, f, accepted, rejected);
    r := Ok(SearchResult(accepted, rejected, decisions));
  }

  /** The decision of every opportunity, looked up by its identifier among the rejected and the accepted ones. */
  method Decide(opportunities: seq<Opportunity>, byId: seq<Opportunity>, f: Filter, accepted: seq<Opportunity>,
                rejected: seq<Rejected>) returns (decisions: seq<Decision>)
    requires DistinctIds(opportunities) && byId == Ordering.SortBy(opportunities, IdLe)
    requires accepted == SearchOf(opportunities, f).accepted && rejected == SearchOf(opportunities, f).rejected
    ensures decisions == DecisionsFor(byId, f, accepted)
  {
    hide SearchOf, Codes, DistinctIds, IdLe, DecisionOf, RankIn, Ordering.SortBy;
    var reasons := ReasonsById(rejected);
    var ranks := RanksById(accepted);
    decisions := [];
    for i := 0 to |byId|
      invariant |decisions| == i && forall j :: 0 <= j < i ==> decisions[j] == DecisionOf(byId[j], f, accepted)
    {
      var o := byId[i];
      assert o in opportunities by { Ordering.SameElements(byId, opportunities); }
      LookedUp(opportunities, f, reasons, ranks, o);
      var codes := if o.id in reasons then reasons[o.id] else [];
      var rank := if o.id in ranks then Some(ranks[o.id]) else None;
      decisions := decisions + [Decision(o.id, f.id, o.decisionAsOf, o.id in ranks, codes, rank)];
    }
  }

  /** The codes of the rejected opportunities by identifier. */
  predicate ReasonsOf(rejected: seq<Rejected>, reasons: map<string, seq<Code>>) {
    && (forall d <- rejected :: d.opportunity.id in reasons)
    && (forall id <- reasons :: exists d <- rejected :: d.opportunity.id == id && d.codes == reasons[id])
  }

  /** The ranks of the first n accepted opportunities by identifier. */
  predicate RanksOfAccepted(accepted: seq<Opportunity>, ranks: map<string, int>, n: nat)
    requires n <= |accepted|
  {
    && (forall k :: 0 <= k < n ==> accepted[k].id in ranks)
    && (forall id <- ranks :: 1 <= ranks[id] <= n && accepted[ranks[id] - 1].id == id)
  }

  lemma RankNext(accepted: seq<Opportunity>, ranks: map<string, int>, n: nat)
    requires n < |accepted| && RanksOfAccepted(accepted, ranks, n)
    ensures RanksOfAccepted(accepted, ranks[accepted[n].id := n + 1], n + 1)
  {
    var more := ranks[accepted[n].id := n + 1];
    forall id <- more ensures 1 <= more[id] <= n + 1 && accepted[more[id] - 1].id == id {
      if id != accepted[n].id {
        assert id in ranks;
      }
    }
  }

  method ReasonsById(rejected: seq<Rejected>) returns (reasons: map<string, seq<Code>>)
    ensures ReasonsOf(rejected, reasons)
  {
    reasons := map[];
    for i := 0 to |rejected|
      invariant ReasonsOf(rejected[..i], reasons)
    {
      ghost var before := reasons;
      reasons := reasons[rejected[i].opportunity.id := rejected[i].codes];
      assert rejected[..i + 1] == rejected[..i] + [rejected[i]];
      forall id <- reasons ensures exists d <- rejected[..i + 1] :: d.opportunity.id == id && d.codes == reasons[id] {
        if id == rejected[i].opportunity.id {
          assert rejected[i] in rejected[..i + 1];
        } else {
          var d :| d in rejected[..i] && d.opportunity.id == id && d.codes == before[id];
          assert d in rejected[..i + 1];
        }
      }
    }
    assert rejected[..|rejected|] == rejected;
  }

  method RanksById(accepted: seq<Opportunity>) returns (ranks: map<string, int>)
    ensures RanksOfAccepted(accepted, ranks, |accepted|)
  {
    ranks := map[];
    assert RanksOfAccepted(accepted, ranks, 0);
    for i := 0 to |accepted|
      invariant RanksOfAccepted(accepted, ranks, i)
    {
      hide RanksOfAccepted;
      RankNext(accepted, ranks, i);
      ranks := ranks[accepted[i].id := i + 1];
    }
  }

  lemma SameId(opportunities: seq<Opportunity>, a: Opportunity, b: Opportunity)
    requires DistinctIds(opportunities) && a in opportunities && b in opportunities && a.id == b.id
    ensures a == b
  {
    var i :| 0 <= i < |opportunities| && opportunities[i] == a;
    var j :| 0 <= j < |opportunities| && opportunities[j] == b;
    assert Ids(opportunities)[i] == Ids(opportunities)[j];
  }

  /** Looking an opportunity up by its identifier finds its own decision. */
  lemma LookedUp(opportunities: seq<Opportunity>, f: Filter, reasons: map<string, seq<Code>>, ranks: map<string, int>,
                 o: Opportunity)
    requires DistinctIds(opportunities) && o in opportunities
    requires ReasonsOf(SearchOf(opportunities, f).rejected, reasons)
    requires var accepted := SearchOf(opportunities, f).accepted; RanksOfAccepted(accepted, ranks, |accepted|)
    ensures Decision(o.id, f.id, o.decisionAsOf, o.id in ranks, if o.id in reasons then reasons[o.id] else [],
                     if o.id in ranks then Some(ranks[o.id]) else None)
         == DecisionOf(o, f, SearchOf(opportunities, f).accepted)
  {
    hide SearchOf, Codes, DistinctIds, RankIn, ReasonsFor;
    var r := SearchOf(opportunities, f);
    SearchPartitions(opportunities, f);
    AcceptedIdsDistinct(opportunities, f);
    if o.id in ranks {
      var k := ranks[o.id] - 1;
      assert r.accepted[k] in r.accepted;
      SameId(opportunities, r.accepted[k], o);
      RankOfDistinct(r.accepted, k + 1);
    }
    if o.id in reasons {
      var d :| d in r.rejected && d.opportunity.id == o.id && d.codes == reasons[o.id];
      SameId(opportunities, d.opportunity, o);
      NeverBoth(opportunities, f, d);
    }
  }

  lemma RankOfDistinct(accepted: seq<Opportunity>, k: int)
    requires DistinctIds(accepted) && 1 <= k <= |accepted|
    ensures RankIn(accepted[k - 1], accepted) == Some(k)
  {
    hide RankIn;
    assert accepted[k - 1] in accepted;
    var i := RankIn(accepted[k - 1], accepted).value - 1;
    assert Ids(accepted)[i] == Ids(accepted)[k - 1];
  }

  lemma NothingScanned(f: Filter)
    ensures Kept([], f) == [] && Dropped([], f) == [] && DistinctIds([])
  {
  }

  /* ---------- What a search means ---------- */

  lemma {:induction false} KeptPlusDropped(s: seq<Opportunity>, f: Filter)
    ensures |Kept(s, f)| + |Dropped(s, f)| == |s|
  {
    hide Codes, Eligible;
    if s != [] {
      KeptPlusDropped(s[..|s| - 1], f);
    }
  }

  lemma {:induction false} KeptOrDropped(s: seq<Opportunity>, f: Filter, o: Opportunity)
    requires o in s
    ensures if Eligible(o, f) then o in Kept(s, f) else Rejected(o, Codes(o, f)) in Dropped(s, f)
  {
    hide Codes, Eligible;
    if o != s[|s| - 1] {
      assert s == s[..|s| - 1] + [s[|s| - 1]];
      KeptOrDropped(s[..|s| - 1], f, o);
    }
  }

  /** One opportunity more. */
  lemma ScanStep(s: seq<Opportunity>, i: nat, f: Filter)
    requires i < |s|
    ensures Kept(s[..i + 1], f) == if Codes(s[i], f) == [] then Kept(s[..i], f) + [s[i]] else Kept(s[..i], f)
    ensures Dropped(s[..i + 1], f) == if Codes(s[i], f) == [] then Dropped(s[..i], f)
                                      else Dropped(s[..i], f) + [Rejected(s[i], Codes(s[i], f))]
  {
    hide Codes;
    TakeStep(s, i);
  }

  lemma RejectedOf(opportunities: seq<Opportunity>, f: Filter, d: Rejected)
    ensures var byId := Ordering.SortBy(opportunities, IdLe);
            var ranked := Ordering.SortBy(Kept(byId, f), RankOrder(f.ranking));
            d in SearchOf(opportunities, f).rejected <==>
            d in Dropped(byId, f) || d in Overflow(ranked[Capped(ranked, f.cap)..])
  {
    hide Codes, IdLe, RankOrder, Dropped, Kept, Overflow, RejectedLe, Ordering.SortBy;
    var byId := Ordering.SortBy(opportunities, IdLe);
    var ranked := Ordering.SortBy(Kept(byId, f), RankOrder(f.ranking));
    var all := Dropped(byId, f) + Overflow(ranked[Capped(ranked, f.cap)..]);
    Ordering.SameElements(Ordering.SortBy(all, RejectedLe), all);
  }

  /**
   * Every opportunity is accepted or rejected, the two together number all of them, and every rejection gives its
   * reasons.
   */
  lemma SearchPartitions(opportunities: seq<Opportunity>, f: Filter)
    ensures var r := SearchOf(opportunities, f);
            && |r.accepted| + |r.rejected| == |opportunities|
            && (forall o <- opportunities :: o in r.accepted || Rejected(o, ReasonsFor(o, f)) in r.rejected)
            && (forall o <- r.accepted :: o in opportunities && Eligible(o, f))
            && (forall d <- r.rejected :: d.opportunity in opportunities && d.codes == ReasonsFor(d.opportunity, f))
  {
    hide Codes, IdLe, RankOrder, Eligible, RejectedLe, Ordering.SortBy, Dropped, Kept, Capped;
    var byId := Ordering.SortBy(opportunities, IdLe);
    var ranked := Ordering.SortBy(Kept(byId, f), RankOrder(f.ranking));
    var n := Capped(ranked, f.cap);
    KeptPlusDropped(byId, f);
    Ordering.SameElements(byId, opportunities);
    Ordering.SameElements(ranked, Kept(byId, f));
    SameLengths(opportunities, f);
    var r := SearchOf(opportunities, f);
    forall o <- opportunities ensures o in r.accepted || Rejected(o, ReasonsFor(o, f)) in r.rejected {
      RejectedOf(opportunities, f, Rejected(o, ReasonsFor(o, f)));
      KeptOrDropped(byId, f, o);
      if Eligible(o, f) {
        var i :| 0 <= i < |ranked| && ranked[i] == o;
        if i >= n {
          assert Overflow(ranked[n..])[i - n] == Rejected(o, [RankCap]);
        } else {
          assert r.accepted[i] == o;
        }
      }
    }
    forall d <- r.rejected ensures d.opportunity in opportunities && d.codes == ReasonsFor(d.opportunity, f) {
      RejectedOf(opportunities, f, d);
      if d in Overflow(ranked[n..]) {
        var i :| 0 <= i < |ranked| - n && Overflow(ranked[n..])[i] == d;
        assert ranked[n + i] in ranked;
      }
    }
  }

  lemma SameLengths(opportunities: seq<Opportunity>, f: Filter)
    ensures var r := SearchOf(opportunities, f); var byId := Ordering.SortBy(opportunities, IdLe);
            |r.accepted| + |r.rejected| == |Kept(byId, f)| + |Dropped(byId, f)| && |byId| == |opportunities|
  {
    hide Codes, IdLe, RankOrder, Eligible, RejectedLe, Ordering.SortBy, Dropped, Kept;
    var byId := Ordering.SortBy(opportunities, IdLe);
    var ranked := Ordering.SortBy(Kept(byId, f), RankOrder(f.ranking));
    var all := Dropped(byId, f) + Overflow(ranked[Capped(ranked, f.cap)..]);
    assert |multiset(byId)| == |multiset(opportunities)|;
    assert |multiset(ranked)| == |multiset(Kept(byId, f))|;
    assert |multiset(Ordering.SortBy(all, RejectedLe))| == |multiset(all)|;
  }

  lemma CutIsBehind<T>(ranked: seq<T>, n: nat, le: (T, T) -> bool, kept: T, cut: T)
    requires n <= |ranked| && Ordering.Sorted(ranked, le) && kept in ranked[..n] && cut in ranked && cut !in ranked[..n]
    ensures le(kept, cut)
  {
    var i :| 0 <= i < n && ranked[i] == kept;
    var j :| 0 <= j < |ranked| && ranked[j] == cut;
    assert cut in ranked[n..] by {
      assert ranked == ranked[..n] + ranked[n..];
    }
    var k :| 0 <= k < |ranked| - n && ranked[n..][k] == cut;
    assert ranked[n + k] == cut;
  }

  /** The accepted ones are ranked, and none of them ranks behind an eligible one that the cap cut off. */
  lemma AcceptedAreBest(opportunities: seq<Opportunity>, f: Filter, kept: Opportunity, cut: Opportunity)
    requires kept in SearchOf(opportunities, f).accepted && cut in opportunities && Eligible(cut, f)
    requires cut !in SearchOf(opportunities, f).accepted
    ensures RankLe(f.ranking, kept, cut)
    ensures Ordering.Sorted(SearchOf(opportunities, f).accepted, RankOrder(f.ranking))
  {
    hide Codes, IdLe, RankLe, Eligible, Dropped, Overflow, Ordering.SortBy;
    var byId := Ordering.SortBy(opportunities, IdLe);
    var eligible := Kept(byId, f);
    var ranked := Ordering.SortBy(eligible, RankOrder(f.ranking));
    RankOrderIsTotalPreorder(f.ranking);
    Ordering.SortBySorted(eligible, RankOrder(f.ranking));
    Ordering.SameElements(byId, opportunities);
    Ordering.SameElements(ranked, eligible);
    KeptOrDropped(byId, f, cut);
    CutIsBehind(ranked, Capped(ranked, f.cap), RankOrder(f.ranking), kept, cut);
  }

  /** The order in which distinct opportunities are supplied does not matter. */
  lemma SearchIgnoresOrder(a: seq<Opportunity>, b: seq<Opportunity>, f: Filter)
    requires multiset(a) == multiset(b) && DistinctIds(a)
    ensures SearchOf(a, f) == SearchOf(b, f)
  {
    hide Codes, RankLe, IdLe;
    IdLeIsTotalPreorder();
    DistinctIdsNoTies(a);
    Ordering.SortByPermutationInvariant(a, b, IdLe);
  }

  lemma AcceptedIdsDistinct(opportunities: seq<Opportunity>, filter: Filter)
    requires DistinctIds(opportunities)
    ensures DistinctIds(SearchOf(opportunities, filter).accepted)
  {
    hide Codes, IdLe, RankLe, Dropped, Overflow;
    var byId := Ordering.SortBy(opportunities, IdLe);
    var ranked := Ordering.SortBy(Kept(byId, filter), RankOrder(filter.ranking));
    DistinctIdsPermutation(byId, opportunities);
    KeptIdsDistinct(byId, filter);
    DistinctIdsPermutation(ranked, Kept(byId, filter));
    PrefixIdsDistinct(ranked, Capped(ranked, filter.cap));
  }

  lemma {:induction false} KeptIdsDistinct(s: seq<Opportunity>, filter: Filter)
    requires DistinctIds(s)
    ensures DistinctIds(Kept(s, filter))
  {
    hide Codes, Eligible;
    if s != [] {
      var front, last := s[..|s| - 1], s[|s| - 1];
      PrefixIdsDistinct(s, |s| - 1);
      KeptIdsDistinct(front, filter);
      if Eligible(last, filter) {
        var kept := Kept(s, filter);
        forall i, j | 0 <= i < j < |kept| ensures Ids(kept)[i] != Ids(kept)[j] {
          if j == |kept| - 1 {
            assert kept[i] in Kept(front, filter);
            var k :| 0 <= k < |front| && front[k] == kept[i];
            assert Ids(s)[k] != Ids(s)[|s| - 1];
          } else {
            assert Ids(Kept(front, filter))[i] != Ids(Kept(front, filter))[j];
          }
        }
      }
    }
  }

  /** No opportunity is both accepted and rejected. */
  lemma NeverBoth(opportunities: seq<Opportunity>, f: Filter, d: Rejected)
    requires DistinctIds(opportunities) && d in SearchOf(opportunities, f).rejected
    ensures d.opportunity !in SearchOf(opportunities, f).accepted
  {
    hide Codes, IdLe, RankLe, RankOrder, Dropped, Overflow, Kept, DistinctIds, Ordering.SortBy, DecisionsFor;
    var byId := Ordering.SortBy(opportunities, IdLe);
    var ranked := Ordering.SortBy(Kept(byId, f), RankOrder(f.ranking));
    var n := Capped(ranked, f.cap);
    RejectedOf(opportunities, f, d);
    Ordering.SameElements(ranked, Kept(byId, f));
    if d in Dropped(byId, f) {
      assert d.opportunity !in ranked;
      assert forall o <- ranked[..n] :: o in ranked;
    } else {
      DistinctIdsPermutation(byId, opportunities);
      KeptIdsDistinct(byId, f);
      DistinctIdsPermutation(ranked, Kept(byId, f));
      CutIsNotKept(ranked, n, d);
    }
  }

  lemma CutIsNotKept(ranked: seq<Opportunity>, n: nat, d: Rejected)
    requires DistinctIds(ranked) && n <= |ranked| && d in Overflow(ranked[n..])
    ensures d.opportunity !in ranked[..n]
  {
    var k :| 0 <= k < |ranked| - n && Overflow(ranked[n..])[k] == d;
    assert ranked[n + k] == d.opportunity;
    forall i | 0 <= i < n ensures ranked[i] != d.opportunity {
      DistinctIdsSeparate(ranked, i, n + k);
    }
  }

  /* ---------- Ranks and reasons on the fields ---------- */

  /** An accepted opportunity scores at least what the next ones score, in the ranking mode of the filter. */
  lemma AcceptedByScore(opportunities: seq<Opportunity>, f: Filter, i: nat, j: nat)
    requires i < j < |SearchOf(opportunities, f).accepted|
    ensures var a, b := SearchOf(opportunities, f).accepted[i], SearchOf(opportunities, f).accepted[j];
            match f.ranking
            case ByExpectedValue =>
              || a.expectedValue > b.expectedValue
              || (a.expectedValue == b.expectedValue && a.probability >= b.probability)
            case ByModelProbability =>
              a.probability > b.probability || (a.probability == b.probability && a.expectedValue >= b.expectedValue)
            case ByEdge =>
              a.edge > b.edge || (a.edge == b.edge && a.expectedValue >= b.expectedValue)
    ensures var a, b := SearchOf(opportunities, f).accepted[i], SearchOf(opportunities, f).accepted[j];
            a.expectedValue == b.expectedValue && a.probability == b.probability && a.edge == b.edge ==>
              Ordering.StrLe(a.eventId, b.eventId)
              && (a.eventId == b.eventId ==> Ordering.StrLe(a.selectionId, b.selectionId))
  {
    hide Codes, IdLe, RankLe, Eligible, Dropped, Overflow, DecisionsFor, Ordering.SortBy;
    var eligible := Kept(Ordering.SortBy(opportunities, IdLe), f);
    RankOrderIsTotalPreorder(f.ranking);
    Ordering.SortBySorted(eligible, RankOrder(f.ranking));
    RankedByScore(f.ranking, SearchOf(opportunities, f).accepted[i], SearchOf(opportunities, f).accepted[j]);
  }

  lemma RankedByScore(mode: RankingMode, a: Opportunity, b: Opportunity)
    requires RankLe(mode, a, b)
    ensures match mode
            case ByExpectedValue =>
              || a.expectedValue > b.expectedValue
              || (a.expectedValue == b.expectedValue && a.probability >= b.probability)
            case ByModelProbability =>
              a.probability > b.probability || (a.probability == b.probability && a.expectedValue >= b.expectedValue)
            case ByEdge =>
              a.edge > b.edge || (a.edge == b.edge && a.expectedValue >= b.expectedValue)
    ensures a.expectedValue == b.expectedValue && a.probability == b.probability && a.edge == b.edge ==>
              Ordering.StrLe(a.eventId, b.eventId)
              && (a.eventId == b.eventId ==> Ordering.StrLe(a.selectionId, b.selectionId))
  {
    Ordering.StrLeReflexive(a.eventId);
  }

  /** What the cap cuts off scores no more than anything that is accepted. */
  lemma CutScoresNoMore(opportunities: seq<Opportunity>, f: Filter, kept: Opportunity, cut: Opportunity)
    requires kept in SearchOf(opportunities, f).accepted
    requires Rejected(cut, [RankCap]) in SearchOf(opportunities, f).rejected
    requires cut !in SearchOf(opportunities, f).accepted
    ensures match f.ranking
            case ByExpectedValue =>
              kept.expectedValue > cut.expectedValue
              || (kept.expectedValue == cut.expectedValue && kept.probability >= cut.probability)
            case ByModelProbability =>
              kept.probability > cut.probability
              || (kept.probability == cut.probability && kept.expectedValue >= cut.expectedValue)
            case ByEdge => kept.edge > cut.edge || (kept.edge == cut.edge && kept.expectedValue >= cut.expectedValue)
  {
    hide SearchOf, Codes, RankLe;
    SearchPartitions(opportunities, f);
    CapIsNoCode(cut, f);
    AcceptedAreBest(opportunities, f, kept, cut);
    RankedByScore(f.ranking, kept, cut);
  }

  lemma CapIsNoCode(o: Opportunity, f: Filter)
    ensures RankCap !in Codes(o, f)
  {
  }

  lemma InIf(condition: bool, code: Code, c: Code)
    ensures c in If(condition, code) <==> condition && c == code
  {
  }

  lemma ScopeCodeExactly(o: Opportunity, f: Filter, c: Code)
    ensures c in ScopeCodes(o, f) <==>
            match c
            case HistoricalBenchmark => o.evaluationMode.ClosingLineBenchmark? && !f.includeHistorical
            case SportCode => f.sports != {} && o.selection.market.sport !in f.sports
            case MarketCode => f.markets != {} && o.selection.market.key !in f.markets
            case ProviderCode => f.providers != {} && o.providerId !in f.providers
            case EventStart =>
              || (f.startsAtOrAfter.Some? && o.eventStart < f.startsAtOrAfter.value)
              || (f.startsBefore.Some? && o.eventStart >= f.startsBefore.value)
            case _ => false
  {
    hide If;
    InIf(o.evaluationMode.ClosingLineBenchmark? && !f.includeHistorical, HistoricalBenchmark, c);
    InIf(f.sports != {} && o.selection.market.sport !in f.sports, SportCode, c);
    InIf(f.markets != {} && o.selection.market.key !in f.markets, MarketCode, c);
    InIf(f.providers != {} && o.providerId !in f.providers, ProviderCode, c);
    InIf(f.startsAtOrAfter.Some? && o.eventStart < f.startsAtOrAfter.value, EventStart, c);
    InIf(f.startsBefore.Some? && o.eventStart >= f.startsBefore.value, EventStart, c);
  }

  lemma ValueCodeExactly(o: Opportunity, f: Filter, c: Code)
    ensures c in ValueCodes(o, f) <==>
            match c
            case Probability => o.probability < f.minProbability
            case Edge => o.edge < f.minEdge
            case ExpectedValue => o.expectedValue < f.minExpectedValue
            case SelectionOdds => o.odds < f.minOdds || o.odds > f.maxOdds
            case PredictionQuality =>
              !o.qualityPassed && !(o.evaluationMode.ClosingLineBenchmark? && f.includeHistorical)
            case _ => false
  {
    hide If;
    InIf(o.probability < f.minProbability, Probability, c);
    InIf(o.edge < f.minEdge, Edge, c);
    InIf(o.expectedValue < f.minExpectedValue, ExpectedValue, c);
    InIf(!(f.minOdds <= o.odds <= f.maxOdds), SelectionOdds, c);
    InIf(!o.qualityPassed && !(o.evaluationMode.ClosingLineBenchmark? && f.includeHistorical), PredictionQuality, c);
  }

  /** Which reasons a rejection gives, reason by reason. */
  lemma CodeExactly(o: Opportunity, f: Filter, c: Code)
    ensures c in Codes(o, f) <==>
            match c
            case HistoricalBenchmark => o.evaluationMode.ClosingLineBenchmark? && !f.includeHistorical
            case SportCode => f.sports != {} && o.selection.market.sport !in f.sports
            case MarketCode => f.markets != {} && o.selection.market.key !in f.markets
            case ProviderCode => f.providers != {} && o.providerId !in f.providers
            case EventStart =>
              || (f.startsAtOrAfter.Some? && o.eventStart < f.startsAtOrAfter.value)
              || (f.startsBefore.Some? && o.eventStart >= f.startsBefore.value)
            case Probability => o.probability < f.minProbability
            case Edge => o.edge < f.minEdge
            case ExpectedValue => o.expectedValue < f.minExpectedValue
            case SelectionOdds => o.odds < f.minOdds || o.odds > f.maxOdds
            case PredictionQuality =>
              !o.qualityPassed && !(o.evaluationMode.ClosingLineBenchmark? && f.includeHistorical)
            case RankCap => false
  {
    hide ScopeCodes, ValueCodes;
    ScopeCodeExactly(o, f, c);
    ValueCodeExactly(o, f, c);
  }

  /** The place of a reason in the order in which the bounds are checked. */
  function Place(c: Code): nat {
    match c
    case HistoricalBenchmark => 0
    case SportCode => 1
    case MarketCode => 2
    case ProviderCode => 3
    case EventStart => 4
    case Probability => 5
    case Edge => 6
    case ExpectedValue => 7
    case SelectionOdds => 8
    case PredictionQuality => 9
    case RankCap => 10
  }

  /** The reasons are in order, each once, from one place to before another. */
  predicate Ascending(codes: seq<Code>, from: nat, to: nat) {
    && (forall c <- codes :: from <= Place(c) < to)
    && forall i, j :: 0 <= i < j < |codes| ==> Place(codes[i]) < Place(codes[j])
  }

  lemma AscendingIf(condition: bool, code: Code)
    ensures Ascending(If(condition, code), Place(code), Place(code) + 1)
  {
  }

  lemma AscendingJoin(a: seq<Code>, b: seq<Code>, from: nat, middle: nat, to: nat)
    requires from <= middle <= to && Ascending(a, from, middle) && Ascending(b, middle, to)
    ensures Ascending(a + b, from, to)
  {
    hide Place;
    forall i, j | 0 <= i < j < |a + b| ensures Place((a + b)[i]) < Place((a + b)[j]) {
      if i < |a| <= j {
        assert (a + b)[i] in a && (a + b)[j] in b;
      }
    }
  }

  lemma AscendingEither(first: bool, second: bool, code: Code)
    requires !(first && second)
    ensures Ascending(If(first, code) + If(second, code), Place(code), Place(code) + 1)
  {
  }

  lemma ScopeAscends(o: Opportunity, f: Filter)
    requires f.Valid()
    ensures Ascending(ScopeCodes(o, f), 0, 5)
  {
    hide If, Ascending;
    var a := If(o.evaluationMode.ClosingLineBenchmark? && !f.includeHistorical, HistoricalBenchmark);
    var b := If(f.sports != {} && o.selection.market.sport !in f.sports, SportCode);
    var c := If(f.markets != {} && o.selection.market.key !in f.markets, MarketCode);
    var d := If(f.providers != {} && o.providerId !in f.providers, ProviderCode);
    var early := f.startsAtOrAfter.Some? && o.eventStart < f.startsAtOrAfter.value;
    var late := f.startsBefore.Some? && o.eventStart >= f.startsBefore.value;
    AscendingIf(o.evaluationMode.ClosingLineBenchmark? && !f.includeHistorical, HistoricalBenchmark);
    AscendingIf(f.sports != {} && o.selection.market.sport !in f.sports, SportCode);
    AscendingIf(f.markets != {} && o.selection.market.key !in f.markets, MarketCode);
    AscendingIf(f.providers != {} && o.providerId !in f.providers, ProviderCode);
    AscendingEither(early, late, EventStart);
    AscendingJoin(a, b, 0, 1, 2);
    AscendingJoin(a + b, c, 0, 2, 3);
    AscendingJoin(a + b + c, d, 0, 3, 4);
    AscendingJoin(a + b + c + d, If(early, EventStart) + If(late, EventStart), 0, 4, 5);
    assert a + b + c + d + (If(early, EventStart) + If(late, EventStart)) == ScopeCodes(o, f);
  }

  lemma ValueAscends(o: Opportunity, f: Filter)
    ensures Ascending(ValueCodes(o, f), 5, 10)
  {
    hide If, Ascending;
    var quality := !o.qualityPassed && !(o.evaluationMode.ClosingLineBenchmark? && f.includeHistorical);
    var a, b := If(o.probability < f.minProbability, Probability), If(o.edge < f.minEdge, Edge);
    var c := If(o.expectedValue < f.minExpectedValue, ExpectedValue);
    var d := If(!(f.minOdds <= o.odds <= f.maxOdds), SelectionOdds);
    AscendingIf(o.probability < f.minProbability, Probability);
    AscendingIf(o.edge < f.minEdge, Edge);
    AscendingIf(o.expectedValue < f.minExpectedValue, ExpectedValue);
    AscendingIf(!(f.minOdds <= o.odds <= f.maxOdds), SelectionOdds);
    AscendingIf(quality, PredictionQuality);
    AscendingJoin(a, b, 5, 6, 7);
    AscendingJoin(a + b, c, 5, 7, 8);
    AscendingJoin(a + b + c, d, 5, 8, 9);
    AscendingJoin(a + b + c + d, If(quality, PredictionQuality), 5, 9, 10);
  }

  /** The reasons of a rejection come in the order of the checks, each once. */
  lemma CodesInOrder(o: Opportunity, f: Filter, i: nat, j: nat)
    requires f.Valid() && i < j < |Codes(o, f)|
    ensures Place(Codes(o, f)[i]) < Place(Codes(o, f)[j])
  {
    hide ScopeCodes, ValueCodes, Place;
    ScopeAscends(o, f);
    ValueAscends(o, f);
    AscendingJoin(ScopeCodes(o, f), ValueCodes(o, f), 0, 5, 10);
  }

  /**
   * Every opportunity gets one decision under the filter's identifier: eligible with its rank, the position in the
   * accepted list, or not eligible with the reasons of its rejection.
   */
  lemma DecisionOnFields(opportunities: seq<Opportunity>, f: Filter, d: Decision) returns (o: Opportunity)
    requires DistinctIds(opportunities) && d in SearchOf(opportunities, f).decisions
    ensures o in opportunities && d.opportunityId == o.id && d.filterId == f.id && d.decisionAsOf == o.decisionAsOf
    ensures var r := SearchOf(opportunities, f);
            if d.eligible then
              && d.codes == [] && d.rank.Some? && 1 <= d.rank.value <= |r.accepted|
              && r.accepted[d.rank.value - 1] == o
            else
              d.rank.None? && o !in r.accepted && Rejected(o, d.codes) in r.rejected
  {
    hide Codes, IdLe, RankLe, Dropped, Kept, Ordering.SortBy, DistinctIds;
    var byId, r := Ordering.SortBy(opportunities, IdLe), SearchOf(opportunities, f);
    Ordering.SameElements(byId, opportunities);
    var i :| 0 <= i < |byId| && r.decisions[i] == d;
    o := byId[i];
    assert d == DecisionOf(o, f, r.accepted);
    SearchPartitions(opportunities, f);
    if o !in r.accepted {
      RejectedWithReasons(opportunities, f, o);
    }
  }

  lemma RejectedWithReasons(opportunities: seq<Opportunity>, f: Filter, o: Opportunity)
    requires o in opportunities && o !in SearchOf(opportunities, f).accepted
    ensures Rejected(o, ReasonsFor(o, f)) in SearchOf(opportunities, f).rejected
  {
    hide Codes, IdLe, RankLe, Ordering.SortBy;
    var byId := Ordering.SortBy(opportunities, IdLe);
    var ranked := Ordering.SortBy(Kept(byId, f), RankOrder(f.ranking));
    var n := Capped(ranked, f.cap);
    var all := Dropped(byId, f) + Overflow(ranked[n..]);
    Ordering.SameElements(byId, opportunities);
    Ordering.SameElements(ranked, Kept(byId, f));
    Ordering.SameElements(Ordering.SortBy(all, RejectedLe), all);
    KeptOrDropped(byId, f, o);
    if Eligible(o, f) {
      var k :| 0 <= k < |ranked| && ranked[k] == o;
      assert k >= n;
      assert Overflow(ranked[n..])[k - n] == Rejected(o, [RankCap]);
      assert Rejected(o, [RankCap]) in all;
    }
  }

  /** The cap is never exceeded, and it is used up as soon as anything is rejected for it. */
  lemma CapOnFields(opportunities: seq<Opportunity>, f: Filter, d: Rejected)
    requires f.Valid() && DistinctIds(opportunities)
    ensures f.cap.Some? ==> |SearchOf(opportunities, f).accepted| <= f.cap.value
    ensures d in SearchOf(opportunities, f).rejected && RankCap in d.codes ==>
              f.cap.Some? && |SearchOf(opportunities, f).accepted| == f.cap.value
  {
    hide Codes, IdLe, RankLe, Kept, Eligible, Ordering.SortBy, DistinctIds;
    var byId := Ordering.SortBy(opportunities, IdLe);
    var ranked := Ordering.SortBy(Kept(byId, f), RankOrder(f.ranking));
    var n := Capped(ranked, f.cap);
    var dropped, all := Dropped(byId, f), Dropped(byId, f) + Overflow(ranked[n..]);
    Ordering.SameElements(Ordering.SortBy(all, RejectedLe), all);
    if d in SearchOf(opportunities, f).rejected && RankCap in d.codes {
      CapIsNoCode(d.opportunity, f);
      assert d !in dropped;
      assert d in Overflow(ranked[n..]);
    }
  }

  /** Without a cap an opportunity is accepted if and only if its fields pass every bound of the filter. */
  lemma AcceptedExactly(opportunities: seq<Opportunity>, f: Filter, o: Opportunity)
    requires o in opportunities && f.cap.None?
    ensures o in SearchOf(opportunities, f).accepted <==>
            && (o.evaluationMode.ClosingLineBenchmark? ==> f.includeHistorical)
            && (o.qualityPassed || o.evaluationMode.ClosingLineBenchmark?)
            && (f.sports == {} || o.selection.market.sport in f.sports)
            && (f.markets == {} || o.selection.market.key in f.markets)
            && (f.providers == {} || o.providerId in f.providers)
            && (f.startsAtOrAfter.Some? ==> f.startsAtOrAfter.value <= o.eventStart)
            && (f.startsBefore.Some? ==> o.eventStart < f.startsBefore.value)
            && f.minProbability <= o.probability && f.minEdge <= o.edge && f.minExpectedValue <= o.expectedValue
            && f.minOdds <= o.odds <= f.maxOdds
  {
    hide Codes, IdLe, RankLe, Dropped, DecisionsFor, Ordering.SortBy;
    var byId := Ordering.SortBy(opportunities, IdLe);
    var ranked := Ordering.SortBy(Kept(byId, f), RankOrder(f.ranking));
    Ordering.SameElements(byId, opportunities);
    Ordering.SameElements(ranked, Kept(byId, f));
    KeptOrDropped(byId, f, o);
    assert ranked[..|ranked|] == ranked;
    EligibleExactly(o, f);
  }

  lemma EligibleExactly(o: Opportunity, f: Filter)
    ensures Codes(o, f) == [] <==>
            && (o.evaluationMode.ClosingLineBenchmark? ==> f.includeHistorical)
            && (o.qualityPassed || o.evaluationMode.ClosingLineBenchmark?)
            && (f.sports == {} || o.selection.market.sport in f.sports)
            && (f.markets == {} || o.selection.market.key in f.markets)
            && (f.providers == {} || o.providerId in f.providers)
            && (f.startsAtOrAfter.Some? ==> f.startsAtOrAfter.value <= o.eventStart)
            && (f.startsBefore.Some? ==> o.eventStart < f.startsBefore.value)
            && f.minProbability <= o.probability && f.minEdge <= o.edge && f.minExpectedValue <= o.expectedValue
            && f.minOdds <= o.odds <= f.maxOdds
  {
    hide Codes;
    if Codes(o, f) != [] {
      var c := Codes(o, f)[0];
      assert c in Codes(o, f);
      CodeExactly(o, f, c);
    } else {
      PassesAll(o, f);
    }
  }

  /** Passing a bound reason by reason is passing them all. */
  lemma PassesAll(o: Opportunity, f: Filter)
    requires Codes(o, f) == []
    ensures (o.evaluationMode.ClosingLineBenchmark? ==> f.includeHistorical)
    ensures o.qualityPassed || o.evaluationMode.ClosingLineBenchmark?
    ensures f.sports == {} || o.selection.market.sport in f.sports
    ensures f.markets == {} || o.selection.market.key in f.markets
    ensures f.providers == {} || o.providerId in f.providers
    ensures f.startsAtOrAfter.Some? ==> f.startsAtOrAfter.value <= o.eventStart
    ensures f.startsBefore.Some? ==> o.eventStart < f.startsBefore.value
    ensures f.minProbability <= o.probability && f.minEdge <= o.edge && f.minExpectedValue <= o.expectedValue
    ensures f.minOdds <= o.odds <= f.maxOdds
  {
    hide Codes;
    CodeExactly(o, f, HistoricalBenchmark);
    CodeExactly(o, f, SportCode);
    CodeExactly(o, f, MarketCode);
    CodeExactly(o, f, ProviderCode);
    CodeExactly(o, f, EventStart);
    CodeExactly(o, f, Probability);
    CodeExactly(o, f, Edge);
    CodeExactly(o, f, ExpectedValue);
    CodeExactly(o, f, SelectionOdds);
    CodeExactly(o, f, PredictionQuality);
  }

  /** Rejections and decisions are listed by identifier. */
  lemma ListedById(opportunities: seq<Opportunity>, f: Filter, i: nat, j: nat)
    requires i < j
    ensures j < |SearchOf(opportunities, f).rejected| ==>
              Ordering.StrLe(SearchOf(opportunities, f).rejected[i].opportunity.id,
                             SearchOf(opportunities, f).rejected[j].opportunity.id)
    ensures j < |SearchOf(opportunities, f).decisions| ==>
              Ordering.StrLe(SearchOf(opportunities, f).decisions[i].opportunityId,
                             SearchOf(opportunities, f).decisions[j].opportunityId)
  {
    hide Codes, RankLe, Kept, Dropped, Overflow, ReasonsFor, RankIn, Ordering.SortBy, Ordering.StrLe;
    var byId := Ordering.SortBy(opportunities, IdLe);
    var ranked := Ordering.SortBy(Kept(byId, f), RankOrder(f.ranking));
    var all := Dropped(byId, f) + Overflow(ranked[Capped(ranked, f.cap)..]);
    IdLeIsTotalPreorder();
    RejectedLeIsTotalPreorder();
    Ordering.SortBySorted(opportunities, IdLe);
    Ordering.SortBySorted(all, RejectedLe);
    if j < |byId| {
      assert IdLe(byId[i], byId[j]);
    }
    if j < |SearchOf(opportunities, f).rejected| {
      assert RejectedLe(SearchOf(opportunities, f).rejected[i], SearchOf(opportunities, f).rejected[j]);
    }
  }

  lemma RejectedLeIsTotalPreorder()
    ensures Ordering.TotalPreorder(RejectedLe)
  {
    hide IdLe;
    IdLeIsTotalPreorder();
  }
}
