/** The persisted-row verifiers against the producer: what they guarantee, and that they agree. */
module CombinationAgreement {
  import opened Wrappers
  import Ordering
  import opened Aggregates
  import opened Opportunities
  import opened Dependencies
  import opened CombinationContracts
  import opened CombinationArtifacts

  function AllPairs(ids: seq<string>): set<(string, string)> {
    set i, j | 0 <= i < j < |ids| :: (ids[i], ids[j])
  }

  function PairsEndingAt(ids: seq<string>, n: nat): set<(string, string)>
    requires n < |ids|
  {
    set i | 0 <= i < n :: (ids[i], ids[n])
  }

  lemma {:induction false} PairsEndingAtCount(ids: seq<string>, n: nat, last: nat)
    requires last <= n < |ids| && Ordering.NoDuplicates(ids)
    ensures |set i | 0 <= i < last :: (ids[i], ids[n])| == last
  {
    if last > 0 {
      PairsEndingAtCount(ids, n, last - 1);
      var smaller := set i | 0 <= i < last - 1 :: (ids[i], ids[n]);
      assert (set i | 0 <= i < last :: (ids[i], ids[n])) == smaller + {(ids[last - 1], ids[n])};
      assert (ids[last - 1], ids[n]) !in smaller;
    }
  }

  lemma AllPairsStep(ids: seq<string>, n: nat)
    requires |ids| == n + 1 && Ordering.NoDuplicates(ids)
    ensures AllPairs(ids) == AllPairs(ids[..n]) + PairsEndingAt(ids, n)
    ensures AllPairs(ids[..n]) !! PairsEndingAt(ids, n)
  {
    var front := ids[..n];
    forall p | p in AllPairs(ids) ensures p in AllPairs(front) + PairsEndingAt(ids, n) {
      var i, j :| 0 <= i < j < |ids| && p == (ids[i], ids[j]);
      if j < n { assert p == (front[i], front[j]); }
    }
    forall p | p in AllPairs(front) ensures p in AllPairs(ids) && p !in PairsEndingAt(ids, n) {
      var i, j :| 0 <= i < j < |front| && p == (front[i], front[j]);
      assert p == (ids[i], ids[j]) && ids[j] != ids[n];
    }
  }

  /** n distinct identifiers form n(n-1)/2 unordered pairs. */
  lemma {:induction false} AllPairsCount(ids: seq<string>)
    requires Ordering.NoDuplicates(ids)
    ensures |AllPairs(ids)| == PairCount(|ids|)
  {
    hide PairCount, AllPairs;
    if ids == [] {
      NoPairs(ids);
    } else {
      var n := |ids| - 1;
      AllPairsCount(ids[..n]);
      PairsEndingAtCount(ids, n, n);
      AllPairsStep(ids, n);
      HalfProduct(n);
    }
  }

  lemma NoPairs(ids: seq<string>)
    requires ids == []
    ensures AllPairs(ids) == {} && PairCount(0) == 0
  {
  }

  lemma HalfProduct(n: nat)
    ensures PairCount(n) + n == PairCount(n + 1)
  {
    assert (n + 1) * n == n * (n - 1) + 2 * n;
  }

  lemma SubsetOfSameSize<T>(a: set<T>, b: set<T>)
    requires a <= b && |a| == |b|
    ensures a == b
  {
    assert b == a + (b - a);
    assert |b| == |a| + |b - a|;
  }

  lemma {:induction false} DistinctPairsCount(ds: seq<LegDependency>)
    requires DistinctPairs(ds)
    ensures |PairKeys(ds)| == |ds|
  {
    if ds != [] {
      var n := |ds| - 1;
      DistinctPairsCount(ds[..n]);
      NextPair(ds, n);
      assert ds[..n + 1] == ds;
    }
  }

  ghost predicate KeyedById(rows: map<string, OpportunityRow>) {
    forall id :: id in rows ==> rows[id].id == id
  }

  /** Distinct, declared, non-reflexive pairs that number n(n-1)/2 are all the pairs. */
  lemma AcceptedPairs(row: CombinationRow, rows: map<string, OpportunityRow>, order: seq<string> -> seq<string>)
    requires KeyedById(rows) && OrderedUnique(row.opportunityIds)
    requires DependenciesDeclared(row) && DependenciesAccepted(row, rows, order)
    ensures PairKeys(row.dependencies) == AllPairs(row.opportunityIds)
  {
    hide PairCount, RowFacts;
    var ids := row.opportunityIds;
    assert Ordering.NoDuplicates(ids);
    AllPairsCount(ids);
    DistinctPairsCount(row.dependencies);
    forall p | p in PairKeys(row.dependencies) ensures p in AllPairs(ids) {
      var d :| d in row.dependencies && PairKey(d) == p;
      AcceptedPairDeclared(ids, d, rows, order);
    }
    SubsetOfSameSize(PairKeys(row.dependencies), AllPairs(ids));
  }

  lemma AcceptedPairDeclared(ids: seq<string>, d: LegDependency, rows: map<string, OpportunityRow>,
                             order: seq<string> -> seq<string>)
    requires KeyedById(rows) && OrderedUnique(ids) && DependencyAccepted(d, rows, order)
    requires d.leftId in ids && d.rightId in ids
    ensures PairKey(d) in AllPairs(ids)
  {
    hide DependencyAccepted, KeyedById;
    AcceptedNotReflexive(d, rows, order);
    var i :| 0 <= i < |ids| && ids[i] == d.leftId;
    var j :| 0 <= j < |ids| && ids[j] == d.rightId;
    if i > j {
      Ordering.StrLeAntisymmetric(ids[j], ids[i]);
    }
    assert PairKey(d) == (ids[i], ids[j]);
  }

  lemma AcceptedNotReflexive(d: LegDependency, rows: map<string, OpportunityRow>, order: seq<string> -> seq<string>)
    requires KeyedById(rows) && DependencyAccepted(d, rows, order)
    ensures d.leftId != d.rightId && Ordering.StrLe(d.leftId, d.rightId)
    ensures RowFacts(rows[d.leftId], order).id == d.leftId && RowFacts(rows[d.rightId], order).id == d.rightId
  {
    Ordering.StrLeTotal(d.leftId, d.rightId);
  }

  /** An accepted row lists every unordered pair of its legs exactly once, and each pair is recomputed as
      structurally separate from the opportunity rows. */
  lemma EveryPairExactlyOnce(row: CombinationRow, rows: map<string, OpportunityRow>,
                             order: seq<string> -> seq<string>, i: nat, j: nat) returns (k: nat)
    requires KeyedById(rows) && OrderedUnique(row.opportunityIds)
    requires DependenciesDeclared(row) && DependenciesAccepted(row, rows, order)
    requires i < j < |row.opportunityIds|
    ensures var (left, right) := (row.opportunityIds[i], row.opportunityIds[j]);
            && k < |row.dependencies| && left in rows && right in rows
            && row.dependencies[k] == ClassifyPair(RowFacts(rows[left], order), RowFacts(rows[right], order))
            && row.dependencies[k].classification == STRUCTURALLY_SEPARATE
            && row.dependencies[k].leftId == left && row.dependencies[k].rightId == right
            && forall m :: 0 <= m < |row.dependencies| && PairKey(row.dependencies[m]) == (left, right) ==> m == k
  {
    hide PairCount, RowFacts, ClassifyPair;
    var p := (row.opportunityIds[i], row.opportunityIds[j]);
    AcceptedPairs(row, rows, order);
    assert p in AllPairs(row.opportunityIds);
    var d :| d in row.dependencies && PairKey(d) == p;
    k :| 0 <= k < |row.dependencies| && row.dependencies[k] == d;
    assert DependencyAccepted(d, rows, order);
    AcceptedNotReflexive(d, rows, order);
  }

  /** The single-row check alone does not exclude a pair of a leg with itself. */
  lemma RowCheckAllowsReflexivePair(digest: Payload -> string)
    ensures exists row: CombinationRow :: RowAccepted(row, digest) &&
              exists d :: d in row.dependencies && d.leftId == d.rightId
  {
    var ids := ["a", "b"];
    var d := LegDependency("a", "a", STRUCTURALLY_SEPARATE, DistinctKeysAndParticipants);
    var id := digest(Payload(ids, 2.0, 0.5, 0.0, 0, "p"));
    var row := CombinationRow(id, "p", ids, [d], 2.0, 0.5, 0.0, 0, 1, 1);
    assert "a"[0] != "b"[0];
    assert ids[0] == "a" && ids[1] == "b" && ids[0] != ids[1];
    assert Ordering.StrLe(ids[0], ids[1]);
    assert OrderedUnique(ids);
    assert Times(0.5, 2.0) == 1.0;
    assert "a" in ids && "" !in ids;
    assert DependenciesDeclared(row) by { assert row.dependencies == [d]; }
    assert RowAccepted(row, digest);
    assert row.dependencies[0] == d && d in row.dependencies;
  }

  /**
   * What the single-row check lists every pair exactly once: an accepted row does if and only if it pairs no leg with
   * itself.
   */
  lemma RowListsEveryPairExactly(row: CombinationRow, digest: Payload -> string)
    requires RowAccepted(row, digest)
    ensures PairKeys(row.dependencies) == AllPairs(row.opportunityIds) <==>
            forall d <- row.dependencies :: d.leftId != d.rightId
  {
    hide PairCount, PairKeys, AllPairs, DistinctPairs, OrderedUnique;
    var ids := row.opportunityIds;
    assert Ordering.NoDuplicates(ids) by { OrderedHasNoDuplicates(ids); }
    forall d <- row.dependencies ensures PairKey(d) in AllPairs(ids) <==> d.leftId != d.rightId {
      DeclaredPair(ids, d);
    }
    if forall d <- row.dependencies :: d.leftId != d.rightId {
      AllPairsCount(ids);
      DistinctPairsCount(row.dependencies);
      KeysWithin(row.dependencies, AllPairs(ids));
      SubsetOfSameSize(PairKeys(row.dependencies), AllPairs(ids));
    } else {
      var d :| d in row.dependencies && d.leftId == d.rightId;
      assert PairKey(d) in PairKeys(row.dependencies) by { KeyListed(row.dependencies, d); }
    }
  }

  lemma OrderedHasNoDuplicates(ids: seq<string>)
    requires OrderedUnique(ids)
    ensures Ordering.NoDuplicates(ids)
  {
  }

  lemma KeyListed(ds: seq<LegDependency>, d: LegDependency)
    requires d in ds
    ensures PairKey(d) in PairKeys(ds)
  {
  }

  lemma KeysWithin(ds: seq<LegDependency>, pairs: set<(string, string)>)
    requires forall d <- ds :: PairKey(d) in pairs
    ensures PairKeys(ds) <= pairs
  {
  }

  /** A pair of declared legs is among the unordered pairs of distinct legs unless its legs are the same. */
  lemma DeclaredPair(ids: seq<string>, d: LegDependency)
    requires OrderedUnique(ids) && d.leftId in ids && d.rightId in ids
    ensures PairKey(d) in AllPairs(ids) <==> d.leftId != d.rightId
  {
    Ordering.StrLeTotal(d.leftId, d.rightId);
    var (left, right) := PairKey(d);
    if d.leftId != d.rightId {
      var i :| 0 <= i < |ids| && ids[i] == left;
      var j :| 0 <= j < |ids| && ids[j] == right;
      if i > j {
        Ordering.StrLeAntisymmetric(left, right);
      }
    }
  }

  /** The payload an accepted row declares, and the one recomputed from its leg rows. */
  function DeclaredPayload(row: CombinationRow): Payload {
    Payload(row.opportunityIds, row.totalOdds, row.joint, row.expectedValue, row.commonDecision, row.policyId)
  }

  function RecomputedPayload(row: CombinationRow, rows: map<string, OpportunityRow>): Payload
    requires forall id :: id in row.opportunityIds ==> id in rows
    requires row.opportunityIds != []
  {
    var legs := LegRows(row.opportunityIds, rows);
    var odds, joint := ProductBy(legs, RowOdds), ProductBy(legs, RowProbability);
    Payload(row.opportunityIds, odds, joint, Times(joint, odds) - 1.0, MaxBy(legs, RowDecision), row.policyId)
  }

  /**
   * The declared values may differ from the recomputed ones within the tolerances, but both payloads must have the same
   * identifier: an accepted row is exact if and only if its two payloads do not collide.
   */
  lemma AcceptedValuesAreExact(row: CombinationRow, rows: map<string, OpportunityRow>, digest: Payload -> string)
    requires RowAccepted(row, digest) && LegsAccepted(row, rows, digest)
    ensures var legs := LegRows(row.opportunityIds, rows);
            var odds, joint := ProductBy(legs, RowOdds), ProductBy(legs, RowProbability);
            var declared, recomputed := DeclaredPayload(row), RecomputedPayload(row, rows);
            (row.joint == joint && row.expectedValue == Times(joint, odds) - 1.0) <==>
            (digest(declared) == digest(recomputed) ==> declared == recomputed)
  {
    hide ProductBy, Times, MinBy, MaxBy, OrderedUnique, DependenciesDeclared, Near;
    assert digest(DeclaredPayload(row)) == row.combinationId == digest(RecomputedPayload(row, rows));
  }

  /* ---------- The verifiers accept what the producer emits ---------- */

  lemma {:induction false} ClassifiedPairs(legs: seq<Opportunity>, d: LegDependency) returns (i: nat, j: nat)
    requires d in PairsOf(legs)
    ensures i < j < |legs| && d == ClassifyLegs(legs[i], legs[j])
  {
    hide ClassifyLegs;
    var rest := legs[1..];
    var first := PairsWith(legs[0], rest);
    if d in first {
      var k :| 0 <= k < |first| && first[k] == d;
      i, j := 0, k + 1;
    } else {
      i, j := ClassifiedPairs(rest, d);
      i, j := i + 1, j + 1;
    }
  }

  lemma {:induction false} PairsOfCount(legs: seq<Opportunity>)
    ensures |PairsOf(legs)| == PairCount(|legs|)
  {
    if legs != [] {
      PairsOfCount(legs[1..]);
      HalfProduct(|legs| - 1);
    }
  }

  lemma OrderedIds(legs: seq<Opportunity>)
    requires DistinctIds(legs) && Ordering.Sorted(legs, IdLe)
    ensures OrderedUnique(Ids(legs))
  {
    forall i, j | 0 <= i < j < |legs|
      ensures Ordering.StrLe(Ids(legs)[i], Ids(legs)[j]) && Ids(legs)[i] != Ids(legs)[j]
    {
      assert IdLe(legs[i], legs[j]);
    }
  }

  lemma PairKeyOfLegs(legs: seq<Opportunity>, i: nat, j: nat)
    requires OrderedUnique(Ids(legs)) && i < j < |legs|
    ensures PairKey(ClassifyLegs(legs[i], legs[j])) == (legs[i].id, legs[j].id)
    ensures ClassifyLegs(legs[i], legs[j]).leftId == legs[i].id && ClassifyLegs(legs[i], legs[j]).rightId == legs[j].id
  {
    hide Classify;
    assert Ordering.StrLe(Ids(legs)[i], Ids(legs)[j]);
  }

  lemma FirstRowDistinct(legs: seq<Opportunity>)
    requires legs != [] && OrderedUnique(Ids(legs))
    ensures DistinctPairs(PairsWith(legs[0], legs[1..]))
    ensures forall d :: d in PairsWith(legs[0], legs[1..]) ==> PairKey(d).0 == legs[0].id
  {
    hide ClassifyLegs, PairKey, OrderedUnique;
    var ids := Ids(legs);
    var first := PairsWith(legs[0], legs[1..]);
    forall a | 0 <= a < |first| ensures PairKey(first[a]) == (ids[0], ids[a + 1]) {
      PairKeyOfLegs(legs, 0, a + 1);
    }
    forall a, b | 0 <= a < b < |first| ensures PairKey(first[a]) != PairKey(first[b]) {
      OrderedUniqueAt(ids, a + 1, b + 1);
    }
  }

  lemma OrderedUniqueAt(ids: seq<string>, i: nat, j: nat)
    requires OrderedUnique(ids) && i < j < |ids|
    ensures ids[i] != ids[j] && Ordering.StrLe(ids[i], ids[j])
  {
  }

  lemma LaterRowsDiffer(legs: seq<Opportunity>, d: LegDependency)
    requires legs != [] && OrderedUnique(Ids(legs)) && d in PairsOf(legs[1..])
    ensures PairKey(d).0 != legs[0].id
  {
    hide ClassifyLegs, PairKey, PairsOf, OrderedUnique;
    var rest := legs[1..];
    var i, j := ClassifiedPairs(rest, d);
    PairKeyOfLegs(legs, i + 1, j + 1);
    OrderedUniqueAt(Ids(legs), 0, i + 1);
  }

  lemma {:induction false} PairsOfDistinct(legs: seq<Opportunity>)
    requires OrderedUnique(Ids(legs))
    ensures DistinctPairs(PairsOf(legs))
  {
    hide ClassifyLegs, PairKey, PairsWith;
    if legs != [] {
      var first, later := PairsWith(legs[0], legs[1..]), PairsOf(legs[1..]);
      assert Ids(legs[1..]) == Ids(legs)[1..];
      PairsOfDistinct(legs[1..]);
      FirstRowDistinct(legs);
      forall d | d in later ensures PairKey(d).0 != legs[0].id {
        LaterRowsDiffer(legs, d);
      }
      JoinDistinct(first, later, legs[0].id);
    }
  }

  lemma JoinDistinct(first: seq<LegDependency>, later: seq<LegDependency>, id: string)
    requires DistinctPairs(first) && DistinctPairs(later)
    requires forall d :: d in first ==> PairKey(d).0 == id
    requires forall d :: d in later ==> PairKey(d).0 != id
    ensures DistinctPairs(first + later)
  {
    hide PairKey;
    var all := first + later;
    forall a, b | 0 <= a < b < |all| ensures PairKey(all[a]) != PairKey(all[b]) {
      if a < |first| && b >= |first| {
        assert all[a] in first && all[b] in later;
      }
    }
  }

  /** The rows contain the serialized legs, filed under their identifiers. */
  ghost predicate RowsOf(rows: map<string, OpportunityRow>, legs: seq<Opportunity>) {
    forall l :: l in legs ==> l.id in rows && rows[l.id] == SerializeOpportunity(l)
  }

  lemma SerializedFacts(o: Opportunity, order: seq<string> -> seq<string>)
    requires IterationOrder(order) && Ordering.NoDuplicates(o.dependencyKeys)
    ensures var f := RowFacts(SerializeOpportunity(o), order);
            f == FactsOf(o).(keys := f.keys) && SameKeys(FactsOf(o).keys, f.keys)
  {
    var keys := Ordering.SortBy(o.dependencyKeys, Ordering.StrLe);
    var participants := Ordering.SortBy(o.participantIds, Ordering.StrLe);
    Ordering.SameElements(keys, o.dependencyKeys);
    Ordering.SameElements(participants, o.participantIds);
    assert Ordering.NoDuplicates(order(keys));
    forall k ensures k in order(keys) <==> k in o.dependencyKeys { }
    assert (set p | p in participants) == (set p | p in o.participantIds);
  }

  /** Reading legs back from their rows classifies every pair as the producer did. */
  lemma ReclassifiedAlike(l: Opportunity, r: Opportunity, rows: map<string, OpportunityRow>,
                          order: seq<string> -> seq<string>)
    requires IterationOrder(order) && RowsOf(rows, [l, r])
    requires Ordering.NoDuplicates(l.dependencyKeys) && Ordering.NoDuplicates(r.dependencyKeys)
    requires Unambiguous(l.dependencyKeys) && Unambiguous(r.dependencyKeys)
    ensures ClassifyPair(RowFacts(rows[l.id], order), RowFacts(rows[r.id], order)) == ClassifyLegs(l, r)
  {
    hide ClassifyPair, Unambiguous, SameKeys, RowFacts, FactsOf, SerializeOpportunity, IterationOrder;
    assert [l, r][0] == l && [l, r][1] == r;
    assert l in [l, r] && r in [l, r];
    SerializedFacts(l, order);
    SerializedFacts(r, order);
    FactsKeys(l);
    FactsKeys(r);
    ClassifyIgnoresOrder(FactsOf(l), FactsOf(r), RowFacts(rows[l.id], order), RowFacts(rows[r.id], order));
  }

  lemma FactsKeys(o: Opportunity)
    ensures FactsOf(o).keys == o.dependencyKeys
  {
  }

  lemma {:induction false} RowProducts(legs: seq<Opportunity>, leg: seq<OpportunityRow>)
    requires |leg| == |legs| && forall i :: 0 <= i < |legs| ==> leg[i] == SerializeOpportunity(legs[i])
    ensures ProductBy(leg, RowOdds) == ProductBy(legs, OddsOf)
    ensures ProductBy(leg, RowProbability) == ProductBy(legs, ProbabilityOf)
    ensures legs != [] ==> MinBy(leg, RowStart) == MinBy(legs, StartOf) && MaxBy(leg, RowStart) == MaxBy(legs, StartOf)
                           && MaxBy(leg, RowDecision) == MaxBy(legs, DecisionOf)
  {
    hide Times;
    if legs != [] {
      RowProducts(legs[..|legs| - 1], leg[..|legs| - 1]);
    }
  }

  /** Legs as constructed, with no scope claimed twice within one leg. */
  ghost predicate WellFormedLegs(legs: seq<Opportunity>) {
    forall l :: l in legs ==> l.Valid() && Unambiguous(l.dependencyKeys)
  }

  lemma DependenciesAgree(c: Combination, rows: map<string, OpportunityRow>, order: seq<string> -> seq<string>)
    requires IterationOrder(order) && WellFormedLegs(c.legs) && RowsOf(rows, c.legs)
    requires OrderedUnique(Ids(c.legs)) && c.dependencies == PairsOf(c.legs)
    requires forall d :: d in c.dependencies ==> d.classification == STRUCTURALLY_SEPARATE
    ensures DependenciesDeclared(SerializeCombination(c))
    ensures DependenciesAccepted(SerializeCombination(c), rows, order)
  {
    hide PairKey, PairCount, ClassifyLegs, ClassifyPair, RowFacts, FactsOf, Unambiguous, IterationOrder,
         SerializeOpportunity, PairsOf, Ordering.NoDuplicates;
    var row := SerializeCombination(c);
    PairsOfCount(c.legs);
    PairsOfDistinct(c.legs);
    forall d | d in row.dependencies
      ensures d.leftId != "" && d.rightId != "" && d.leftId in row.opportunityIds && d.rightId in row.opportunityIds
      ensures DependencyAccepted(d, rows, order)
    {
      var i, j := ClassifiedPairs(c.legs, d);
      var l, r := c.legs[i], c.legs[j];
      assert l in c.legs && r in c.legs;
      PairKeyOfLegs(c.legs, i, j);
      assert Ids(c.legs)[i] == l.id && Ids(c.legs)[j] == r.id;
      ReclassifiedAlike(l, r, rows, order);
    }
  }

  lemma LegsAgree(c: Combination, rows: map<string, OpportunityRow>, rules: Rules, digest: Payload -> string)
    requires rules.Valid() && c.legs != [] && WellFormedLegs(c.legs) && RowsOf(rows, c.legs)
    requires c == CombinationOf(c.legs, rules, digest)
    requires MaxBy(c.legs, DecisionOf) < MinBy(c.legs, StartOf)
    ensures LegsAccepted(SerializeCombination(c), rows, digest)
  {
    hide ProductBy, Times, MinBy, MaxBy, PairsOf, Unambiguous, SerializeOpportunity;
    var row := SerializeCombination(c);
    forall id | id in row.opportunityIds ensures id in rows {
      var i :| 0 <= i < |c.legs| && Ids(c.legs)[i] == id;
      assert c.legs[i] in c.legs;
    }
    var legs := LegRows(row.opportunityIds, rows);
    forall i | 0 <= i < |legs| ensures legs[i] == SerializeOpportunity(c.legs[i]) {
      assert c.legs[i] in c.legs;
    }
    RowProducts(c.legs, legs);
    forall l | l in legs ensures 0.0 <= l.probability <= 1.0 {
      var i :| 0 <= i < |legs| && legs[i] == l;
      SerializedProbability(c.legs[i]);
      assert c.legs[i] in c.legs;
    }
    assert forall x :: x in legs ==> 0.0 <= RowProbability(x) <= 1.0;
    ProductOfProbabilities(legs, RowProbability);
  }

  lemma SerializedProbability(o: Opportunity)
    ensures SerializeOpportunity(o).probability == o.probability
  {
  }

  /** Every validated combination, serialized beside the rows of its legs, passes both verifiers. */
  lemma ProducerAndVerifierAgree(legs: seq<Opportunity>, rules: Rules, digest: Payload -> string,
                                 rows: map<string, OpportunityRow>, order: seq<string> -> seq<string>)
    requires rules.Valid() && WellFormedLegs(legs) && IterationOrder(order) && RowsOf(rows, legs)
    requires Validated(legs, rules, digest).Ok?
    ensures var row := SerializeCombination(Validated(legs, rules, digest).value);
            RowAccepted(row, digest) && LegsAccepted(row, rows, digest) && DependenciesAccepted(row, rows, order)
  {
    hide ProductBy, Times, MinBy, MaxBy, PairsOf, Unambiguous, SerializeOpportunity, IterationOrder, FirstLegError,
         FirstPairError, LegsAccepted, DependenciesAccepted, DependenciesDeclared, DistinctIds, SportsOf, DatesOf;
    var c := Validated(legs, rules, digest).value;
    var ordered := Ordering.SortBy(legs, IdLe);
    Ordering.SameElements(legs, ordered);
    IdLeIsTotalPreorder();
    Ordering.SortBySorted(legs, IdLe);
    OrderedIds(ordered);
    NoPairError(PairsOf(ordered));
    forall d | d in c.dependencies ensures d.classification == STRUCTURALLY_SEPARATE {
      assert PairError(d).None?;
    }
    DependenciesAgree(c, rows, order);
    LegsAgree(c, rows, rules, digest);
    forall x | x in ordered ensures 0.0 <= ProbabilityOf(x) <= 1.0 { assert x in legs; }
    ProductOfProbabilities(ordered, ProbabilityOf);
    forall i | 0 <= i < |ordered| ensures Ids(ordered)[i] != "" { assert ordered[i] in legs; }
  }
}
