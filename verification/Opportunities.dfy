/** Priced opportunities and their ranking order (opportunities/contracts.py). */
module Opportunities {
  import opened Wrappers
  import Ordering

  datatype EvaluationMode = LiveSafe | ClosingLineBenchmark

  /** The canonical market dimensions; two outcomes of one market share them all. */
  datatype Market = Market(sport: string, family: string, key: string, period: string, scope: string,
                           participant: Option<string>, lineType: string, line: Option<real>)

  datatype Selection = Selection(market: Market, outcome: string)

  /** Times are microseconds since the epoch, dates are days since the epoch.  `dependencyKeys` and
      `participantIds` list a frozenset in the order one iteration over it yields. */
  datatype Opportunity = Opportunity(
    id: string, eventId: string, eventStart: int, selection: Selection, selectionId: string,
    evaluationMode: EvaluationMode, quotedAt: Option<int>, decisionAsOf: int,
    odds: real, probability: real, edge: real, expectedValue: real,
    trainedThrough: int, calibratedThrough: int, providerId: string,
    dependencyKeys: seq<string>, participantIds: seq<string>,
    metadataComplete: bool, qualityPassed: bool)
  {
    /** What constructing an Opportunity enforces. */
    ghost predicate Valid() {
      && id != "" && eventId != "" && providerId != ""
      && odds > 1.0 && 0.0 <= probability <= 1.0
      && (evaluationMode.LiveSafe? ==> quotedAt.Some? && quotedAt.value <= decisionAsOf)
      && (evaluationMode.ClosingLineBenchmark? ==> decisionAsOf == eventStart)
      && Ordering.NoDuplicates(dependencyKeys) && "" !in dependencyKeys && "" !in participantIds
      && (metadataComplete ==> dependencyKeys != [] && participantIds != [])
    }
  }

  const MICROSECONDS_PER_DAY: int := 86_400_000_000

  function DateOf(time: int): int {
    time / MICROSECONDS_PER_DAY
  }

  predicate IdLe(a: Opportunity, b: Opportunity) {
    Ordering.StrLe(a.id, b.id)
  }

  datatype RankingMode = ByExpectedValue | ByModelProbability | ByEdge

  function Primary(o: Opportunity, mode: RankingMode): real {
    match mode
    case ByExpectedValue => o.expectedValue
    case ByModelProbability => o.probability
    case ByEdge => o.edge
  }

  function Secondary(o: Opportunity, mode: RankingMode): real {
    if mode.ByExpectedValue? then o.probability else o.expectedValue
  }

  /** opportunity_rank_key: greater score first, then event and selection identity. */
  predicate RankLe(mode: RankingMode, a: Opportunity, b: Opportunity) {
    if Primary(a, mode) != Primary(b, mode) then Primary(a, mode) > Primary(b, mode)
    else if Secondary(a, mode) != Secondary(b, mode) then Secondary(a, mode) > Secondary(b, mode)
    else if a.eventId != b.eventId then Ordering.StrLe(a.eventId, b.eventId)
    else Ordering.StrLe(a.selectionId, b.selectionId)
  }

  function RankOrder(mode: RankingMode): (Opportunity, Opportunity) -> bool {
    (a, b) => RankLe(mode, a, b)
  }

  lemma IdLeIsTotalPreorder()
    ensures Ordering.TotalPreorder(IdLe)
  {
    Ordering.StrLeIsTotalPreorder();
    forall x: Opportunity, y: Opportunity ensures IdLe(x, y) || IdLe(y, x) {
      Ordering.StrLeTotal(x.id, y.id);
    }
    forall x: Opportunity, y: Opportunity, z: Opportunity | IdLe(x, y) && IdLe(y, z) ensures IdLe(x, z) {
      Ordering.StrLeTransitive(x.id, y.id, z.id);
    }
  }

  lemma RankLeTransitive(mode: RankingMode, a: Opportunity, b: Opportunity, c: Opportunity)
    requires RankLe(mode, a, b) && RankLe(mode, b, c)
    ensures RankLe(mode, a, c)
  {
    if a.eventId != b.eventId && b.eventId != c.eventId {
      if Ordering.StrLe(a.eventId, b.eventId) && Ordering.StrLe(b.eventId, c.eventId) {
        Ordering.StrLeTransitive(a.eventId, b.eventId, c.eventId);
        if a.eventId == c.eventId { Ordering.StrLeAntisymmetric(a.eventId, b.eventId); }
      }
    }
    if Ordering.StrLe(a.selectionId, b.selectionId) && Ordering.StrLe(b.selectionId, c.selectionId) {
      Ordering.StrLeTransitive(a.selectionId, b.selectionId, c.selectionId);
    }
  }

  lemma RankOrderIsTotalPreorder(mode: RankingMode)
    ensures Ordering.TotalPreorder(RankOrder(mode))
  {
    var le := RankOrder(mode);
    forall x: Opportunity, y: Opportunity ensures le(x, y) || le(y, x) {
      Ordering.StrLeTotal(x.eventId, y.eventId);
      Ordering.StrLeTotal(x.selectionId, y.selectionId);
    }
    forall x: Opportunity, y: Opportunity, z: Opportunity | le(x, y) && le(y, z) ensures le(x, z) {
      RankLeTransitive(mode, x, y, z);
    }
  }

  function Ids(s: seq<Opportunity>): (r: seq<string>)
    ensures |r| == |s| && forall i :: 0 <= i < |s| ==> r[i] == s[i].id
  {
    seq(|s|, i requires 0 <= i < |s| => s[i].id)
  }

  ghost predicate DistinctIds(s: seq<Opportunity>) {
    Ordering.NoDuplicates(Ids(s))
  }

  /** With distinct identifiers, ordering by identifier has no ties. */
  lemma DistinctIdsNoTies(s: seq<Opportunity>)
    requires DistinctIds(s)
    ensures Ordering.NoTies(s, IdLe)
  {
    forall i, j | 0 <= i < |s| && 0 <= j < |s| && IdLe(s[i], s[j]) && IdLe(s[j], s[i]) ensures s[i] == s[j] {
      Ordering.StrLeAntisymmetric(s[i].id, s[j].id);
      assert Ids(s)[i] == Ids(s)[j];
    }
  }

  lemma TiedSelections(mode: RankingMode, a: Opportunity, b: Opportunity)
    requires RankLe(mode, a, b) && RankLe(mode, b, a)
    ensures a.eventId == b.eventId && a.selectionId == b.selectionId
  {
    Ordering.StrLeChain(a.eventId, b.eventId, a.eventId);
    Ordering.StrLeChain(a.selectionId, b.selectionId, a.selectionId);
  }

  /** Opportunities that all price different selections never tie in rank. */
  lemma DistinctSelectionsDoNotTie(s: seq<Opportunity>, mode: RankingMode)
    requires forall i, j :: 0 <= i < j < |s| ==> s[i].eventId != s[j].eventId || s[i].selectionId != s[j].selectionId
    ensures Ordering.NoTies(s, RankOrder(mode))
  {
    hide RankLe;
    forall i, j | 0 <= i < |s| && 0 <= j < |s| && RankLe(mode, s[i], s[j]) && RankLe(mode, s[j], s[i])
      ensures s[i] == s[j]
    {
      TiedSelections(mode, s[i], s[j]);
    }
  }

  /** len({ids}) == len(s) tests for distinct identifiers. */
  lemma DistinctIdsBySet(s: seq<Opportunity>)
    ensures DistinctIds(s) <==> |set x | x in s :: x.id| == |s|
  {
    Ordering.SetSize(Ids(s));
    assert (set x | x in s :: x.id) == (set i | i in Ids(s)) by {
      forall i | i in Ids(s) ensures i in (set x | x in s :: x.id) {
        var k :| 0 <= k < |s| && Ids(s)[k] == i;
        assert s[k] in s;
      }
      forall x | x in s ensures x.id in Ids(s) {
        var k :| 0 <= k < |s| && s[k] == x;
        assert Ids(s)[k] == x.id;
      }
    }
  }

  lemma DistinctIdsPermutation(a: seq<Opportunity>, b: seq<Opportunity>)
    requires multiset(a) == multiset(b)
    ensures DistinctIds(a) <==> DistinctIds(b)
  {
    Ordering.SameElements(a, b);
    DistinctIdsBySet(a);
    DistinctIdsBySet(b);
    assert (set x | x in a :: x.id) == (set x | x in b :: x.id);
  }

  lemma DistinctIdsSeparate(s: seq<Opportunity>, i: nat, j: nat)
    requires DistinctIds(s) && i < |s| && j < |s| && i != j
    ensures s[i] != s[j] && s[i].id != s[j].id
  {
    assert Ids(s)[i] != Ids(s)[j] by {
      if i < j {} else { assert Ids(s)[j] != Ids(s)[i]; }
    }
  }

  /** One step of scanning for a repeated identifier with the set of those seen. */
  lemma NewId(s: seq<Opportunity>, i: nat)
    requires i < |s| && DistinctIds(s[..i]) && s[i].id !in set o | o in s[..i] :: o.id
    ensures DistinctIds(s[..i + 1])
    ensures (set o | o in s[..i + 1] :: o.id) == (set o | o in s[..i] :: o.id) + {s[i].id}
  {
    var t := s[..i + 1];
    assert t == s[..i] + [s[i]];
    forall a, b | 0 <= a < b < |t| ensures Ids(t)[a] != Ids(t)[b] {
      assert a < i && s[..i][a] in s[..i];
      if b < i { assert Ids(s[..i])[a] != Ids(s[..i])[b]; }
    }
  }

  lemma RepeatedId(s: seq<Opportunity>, i: nat)
    requires i < |s| && s[i].id in set o | o in s[..i] :: o.id
    ensures !DistinctIds(s)
  {
    var o :| o in s[..i] && o.id == s[i].id;
    var k :| 0 <= k < i && s[..i][k] == o;
    assert Ids(s)[k] == Ids(s)[i];
  }

  /** The first opportunity whose identifier an earlier one has. */
  ghost predicate FirstRepeat(opportunities: seq<Opportunity>, i: int) {
    && 0 <= i < |opportunities| && DistinctIds(opportunities[..i])
    && exists j :: 0 <= j < i && opportunities[j].id == opportunities[i].id
  }

  lemma RepeatFound(opportunities: seq<Opportunity>, i: nat)
    requires i < |opportunities| && DistinctIds(opportunities[..i])
    requires opportunities[i].id in set o | o in opportunities[..i] :: o.id
    ensures FirstRepeat(opportunities, i)
  {
    var o :| o in opportunities[..i] && o.id == opportunities[i].id;
    var j :| 0 <= j < i && opportunities[..i][j] == o;
    assert opportunities[j].id == opportunities[i].id;
  }

  lemma DistinctIdsNoDuplicates(s: seq<Opportunity>)
    requires DistinctIds(s)
    ensures Ordering.NoDuplicates(s)
  {
    forall i, j | 0 <= i < j < |s| ensures s[i] != s[j] { DistinctIdsSeparate(s, i, j); }
  }

  lemma PrefixIdsDistinct(s: seq<Opportunity>, n: nat)
    requires DistinctIds(s) && n <= |s|
    ensures DistinctIds(s[..n])
  {
    forall i, j | 0 <= i < j < n ensures Ids(s[..n])[i] != Ids(s[..n])[j] {
      assert Ids(s)[i] != Ids(s)[j];
    }
  }
}
