/** What validation accepts, builds and refuses, read off the fields of the legs (combinations/contracts.py). */
module CombinationsOnFields {
  import opened Wrappers
  import Ordering
  import opened Aggregates
  import opened Opportunities
  import opened Dependencies
  import opened CombinationContracts

  /* ---------- One pair ---------- */

  /** A key claims a value for a scope exactly when it reads exclusive:<scope>=<value> with nothing empty. */
  lemma ParseClaimExactly(key: string, scope: string, value: string)
    ensures ParseClaim(key) == Some(Claim(scope, value)) <==>
            key == "exclusive:" + scope + "=" + value && scope != "" && value != "" && '=' !in scope
  {
    hide ParseClaim;
    if ParseClaim(key) == Some(Claim(scope, value)) {
      ParsedText(key);
    }
    if key == "exclusive:" + scope + "=" + value && scope != "" && value != "" && '=' !in scope {
      TextParsed(scope, value);
    }
  }

  lemma ParsedText(key: string)
    requires ParseClaim(key).Some?
    ensures var claim := ParseClaim(key).value;
            key == "exclusive:" + claim.scope + "=" + claim.value && claim.scope != "" && claim.value != "" &&
            '=' !in claim.scope
  {
    hide IndexOf;
    var rest := key[|CLAIM_PREFIX|..];
    var split := IndexOf(rest, '=');
    assert key == CLAIM_PREFIX + rest;
    assert rest == rest[..split] + [rest[split]] + rest[split + 1..];
  }

  lemma TextParsed(scope: string, value: string)
    requires scope != "" && value != "" && '=' !in scope
    ensures ParseClaim("exclusive:" + scope + "=" + value) == Some(Claim(scope, value))
  {
    hide IndexOf;
    var rest := scope + "=" + value;
    var key := "exclusive:" + scope + "=" + value;
    assert key == CLAIM_PREFIX + rest && key[|CLAIM_PREFIX|..] == rest;
    assert key[|CLAIM_PREFIX| + |scope|] == '=';
    FirstEquals(scope, value);
    assert rest[..|scope|] == scope && rest[|scope| + 1..] == value;
  }

  lemma FirstEquals(scope: string, value: string)
    requires '=' !in scope
    ensures IndexOf(scope + "=" + value, '=') == |scope|
  {
    hide IndexOf;
    var s := scope + "=" + value;
    forall k | 0 <= k < |scope| ensures s[k] != '=' {
      assert scope[k] in scope;
    }
    forall n | |scope| < n <= |s| ensures '=' in s[..n] {
      assert s[..n][|scope|] == '=';
    }
  }

  /** Two of the keys claim different values for one scope. */
  ghost predicate ClaimsDiffer(left: seq<string>, right: seq<string>) {
    exists j, k, scope, v, w ::
      j in left && k in right && Claims(j, scope, v) && Claims(k, scope, w) && v != w
  }

  ghost predicate Claims(key: string, scope: string, value: string) {
    key == "exclusive:" + scope + "=" + value && scope != "" && value != "" && '=' !in scope
  }

  lemma ContradictMeaning(j: string, k: string)
    ensures Contradict(j, k) <==> exists scope, v, w :: Claims(j, scope, v) && Claims(k, scope, w) && v != w
  {
    hide ParseClaim;
    if Contradict(j, k) {
      var c, d := ParseClaim(j).value, ParseClaim(k).value;
      ParseClaimExactly(j, c.scope, c.value);
      ParseClaimExactly(k, d.scope, d.value);
      assert Claims(j, c.scope, c.value) && Claims(k, c.scope, d.value);
    }
    if scope, v, w :| Claims(j, scope, v) && Claims(k, scope, w) && v != w {
      ParseClaimExactly(j, scope, v);
      ParseClaimExactly(k, scope, w);
    }
  }

  lemma UnambiguousMeaning(keys: seq<string>)
    ensures Unambiguous(keys) <==> !ClaimsDiffer(keys, keys)
  {
    hide ParseClaim, Claims;
    forall j, k { ContradictMeaning(j, k); }
    if !Unambiguous(keys) {
      var i, n :| 0 <= i < |keys| && 0 <= n < |keys| && ParseClaim(keys[i]).Some? && ParseClaim(keys[n]).Some?
        && ParseClaim(keys[i]).value.scope == ParseClaim(keys[n]).value.scope
        && ParseClaim(keys[i]).value.value != ParseClaim(keys[n]).value.value;
      assert Contradict(keys[i], keys[n]) && keys[i] in keys && keys[n] in keys;
    }
    if j, k, scope, v, w :| j in keys && k in keys && Claims(j, scope, v) && Claims(k, scope, w) && v != w {
      assert Contradict(j, k);
      var i :| 0 <= i < |keys| && keys[i] == j;
      var n :| 0 <= n < |keys| && keys[n] == k;
    }
  }

  /**
   * A pair conflicts when it is one selection or one market of an event, or when its complete legs claim different
   * values for a scope; it is unknown when it is two markets of one event, when a leg's metadata is incomplete, or when
   * a key or a participant is shared; otherwise it is structurally separate.
   */
  lemma ClassifiedOnFields(l: Opportunity, r: Opportunity)
    requires !ClaimsDiffer(l.dependencyKeys, l.dependencyKeys) && !ClaimsDiffer(r.dependencyKeys, r.dependencyKeys)
    ensures var d := ClassifyLegs(l, r);
            && (if Ordering.StrLe(l.id, r.id) then d.leftId == l.id && d.rightId == r.id
                else d.leftId == r.id && d.rightId == l.id)
            && (d.reason, d.classification) ==
               if l.id == r.id then (DuplicateSelection, CONFLICT)
               else if l.eventId == r.eventId then
                 if l.selection == r.selection then (DuplicateSelection, CONFLICT)
                 else if l.selection.market == r.selection.market then (OutcomesOfOneMarket, CONFLICT)
                 else (OneEventDifferentMarkets, UNKNOWN)
               else if !l.metadataComplete || !r.metadataComplete then (IncompleteMetadata, UNKNOWN)
               else if ClaimsDiffer(l.dependencyKeys, r.dependencyKeys) then (ContradictoryClaims, CONFLICT)
               else if exists key :: key in l.dependencyKeys && key in r.dependencyKeys then
                 (SharedDependencyKeys, UNKNOWN)
               else if exists p :: p in l.participantIds && p in r.participantIds then (SharedParticipants, UNKNOWN)
               else (DistinctKeysAndParticipants, STRUCTURALLY_SEPARATE)
  {
    hide ParseClaim, ClaimsOf, Contradictory, Contradict, Claims;
    UnambiguousMeaning(l.dependencyKeys);
    UnambiguousMeaning(r.dependencyKeys);
    ContradictoryExactly(l.dependencyKeys, r.dependencyKeys);
    forall j, k { ContradictMeaning(j, k); }
    assert Contradictory(l.dependencyKeys, r.dependencyKeys) <==> ClaimsDiffer(l.dependencyKeys, r.dependencyKeys);
    var shared := FactsOf(l).participants * FactsOf(r).participants;
    if p :| p in l.participantIds && p in r.participantIds {
      assert p in shared;
    }
    if p :| p in shared {
      assert p in l.participantIds && p in r.participantIds;
    }
  }

  /* ---------- One leg ---------- */

  /** The first check a leg fails: evaluation mode, odds, quote time, sport, market. */
  lemma LegErrorOnFields(l: Opportunity, rules: Rules)
    ensures LegError(l, rules).None? <==>
            && l.evaluationMode == LiveSafe && rules.legMinOdds <= l.odds <= rules.legMaxOdds && l.quotedAt.Some?
            && (rules.allowedSports == {} || l.selection.market.sport in rules.allowedSports)
            && (rules.allowedMarkets == {} || l.selection.market.key in rules.allowedMarkets)
    ensures LegError(l, rules) == Some(BenchmarkLeg) <==> l.evaluationMode == ClosingLineBenchmark
    ensures LegError(l, rules) == Some(LegOddsOutOfRange) <==>
            l.evaluationMode == LiveSafe && (l.odds < rules.legMinOdds || rules.legMaxOdds < l.odds)
    ensures LegError(l, rules) == Some(MissingQuoteTime) <==>
            l.evaluationMode == LiveSafe && rules.legMinOdds <= l.odds <= rules.legMaxOdds && l.quotedAt.None?
    ensures LegError(l, rules) == Some(SportNotAllowed) <==>
            && l.evaluationMode == LiveSafe && rules.legMinOdds <= l.odds <= rules.legMaxOdds && l.quotedAt.Some?
            && rules.allowedSports != {} && l.selection.market.sport !in rules.allowedSports
    ensures LegError(l, rules) == Some(MarketNotAllowed) <==>
            && l.evaluationMode == LiveSafe && rules.legMinOdds <= l.odds <= rules.legMaxOdds && l.quotedAt.Some?
            && (rules.allowedSports == {} || l.selection.market.sport in rules.allowedSports)
            && rules.allowedMarkets != {} && l.selection.market.key !in rules.allowedMarkets
  {
  }

  /* ---------- The whole set ---------- */

  lemma {:induction false} SameProducts<T>(s: seq<T>, f: T -> real, g: T -> real)
    requires forall x <- s :: f(x) == g(x)
    ensures ProductBy(s, f) == ProductBy(s, g)
  {
    if s != [] {
      assert s[|s| - 1] in s;
      SameProducts(s[..|s| - 1], f, g);
    }
  }

  lemma DistinctOnFields(legs: seq<Opportunity>)
    ensures DistinctIds(legs) <==> forall i, j :: 0 <= i < j < |legs| ==> legs[i].id != legs[j].id
  {
    if DistinctIds(legs) {
      forall i, j | 0 <= i < j < |legs| ensures legs[i].id != legs[j].id {
        DistinctIdsSeparate(legs, i, j);
      }
    }
  }

  /** Validation succeeds if and only if the fields of the legs meet every rule. */
  lemma ValidOnFields(legs: seq<Opportunity>, rules: Rules, digest: Payload -> string)
    requires rules.Valid()
    ensures Validated(legs, rules, digest).Ok? <==>
            var odds := ProductBy(legs, OddsOf);
            var joint := ProductBy(legs, ProbabilityOf);
            && rules.minLegs <= |legs| <= rules.maxLegs
            && (forall i, j :: 0 <= i < j < |legs| ==> legs[i].id != legs[j].id)
            && (forall l <- legs ::
                  && l.evaluationMode == LiveSafe && rules.legMinOdds <= l.odds <= rules.legMaxOdds && l.quotedAt.Some?
                  && (rules.allowedSports == {} || l.selection.market.sport in rules.allowedSports)
                  && (rules.allowedMarkets == {} || l.selection.market.key in rules.allowedMarkets))
            && (forall l <- legs, r <- legs ::
                  && l.decisionAsOf < r.eventStart && l.eventStart - r.eventStart <= rules.maxHorizon
                  && (l == r || ClassifyLegs(l, r).classification == STRUCTURALLY_SEPARATE)
                  && (rules.allowMultipleSports || l.selection.market.sport == r.selection.market.sport)
                  && (rules.allowMultipleDates || l.eventStart / 86_400_000_000 == r.eventStart / 86_400_000_000))
            && rules.minOdds <= odds <= rules.maxOdds && rules.minJointProbability <= joint
            && rules.minExpectedValue <= joint * odds - 1.0
  {
    hide Validated, ProductBy, Times, ClassifyLegs, DistinctIds, AllEligible, PairwiseSeparate, DecisionsFirst,
         WithinHorizon, OneSport, OneDate;
    ValidationMeaning(legs, rules, digest);
    DistinctOnFields(legs);
    EligibleOnFields(legs, rules);
    RelationsOnFields(legs, rules);
    TimesIs(ProductBy(legs, ProbabilityOf), ProductBy(legs, OddsOf));
  }

  lemma TimesIs(a: real, b: real)
    ensures Times(a, b) == a * b
  {
  }

  lemma EligibleOnFields(legs: seq<Opportunity>, rules: Rules)
    ensures AllEligible(legs, rules) <==>
            forall l <- legs ::
              && l.evaluationMode == LiveSafe && rules.legMinOdds <= l.odds <= rules.legMaxOdds && l.quotedAt.Some?
              && (rules.allowedSports == {} || l.selection.market.sport in rules.allowedSports)
              && (rules.allowedMarkets == {} || l.selection.market.key in rules.allowedMarkets)
  {
    hide LegError;
    forall l { LegErrorOnFields(l, rules); }
  }

  lemma RelationsOnFields(legs: seq<Opportunity>, rules: Rules)
    ensures PairwiseSeparate(legs) && DecisionsFirst(legs) && WithinHorizon(legs, rules.maxHorizon) &&
            (rules.allowMultipleSports || OneSport(legs)) && (rules.allowMultipleDates || OneDate(legs)) <==>
            forall l <- legs, r <- legs ::
              && l.decisionAsOf < r.eventStart && l.eventStart - r.eventStart <= rules.maxHorizon
              && (l == r || ClassifyLegs(l, r).classification == STRUCTURALLY_SEPARATE)
              && (rules.allowMultipleSports || l.selection.market.sport == r.selection.market.sport)
              && (rules.allowMultipleDates || l.eventStart / 86_400_000_000 == r.eventStart / 86_400_000_000)
  {
    hide ClassifyLegs;
  }

  /** The built combination: its legs in the order of their identifiers, and the two products over them. */
  lemma BuiltOnFields(legs: seq<Opportunity>, rules: Rules, digest: Payload -> string)
    requires rules.Valid() && Validated(legs, rules, digest).Ok?
    ensures var c := Validated(legs, rules, digest).value;
            && multiset(c.legs) == multiset(legs)
            && (forall i, j :: 0 <= i < j < |c.legs| ==>
                  Ordering.StrLe(c.legs[i].id, c.legs[j].id) && c.legs[i].id != c.legs[j].id)
            && c.odds == ProductBy(legs, (o: Opportunity) => o.odds)
            && c.joint == ProductBy(legs, (o: Opportunity) => o.probability)
            && c.expectedValue == c.joint * c.odds - 1.0 && c.policyId == rules.policyId
            && c.id == digest(Payload(Ids(c.legs), c.odds, c.joint, c.expectedValue, c.informationTime, c.policyId))
  {
    hide Ordering.SortBy, ProductBy, MinBy, MaxBy, PairsOf, FirstPairError, FirstLegError, WholeError, DistinctIds,
         Ordering.TotalPreorder, IdLe;
    var ordered := Ordering.SortBy(legs, IdLe);
    InIdOrder(legs);
    ProductPermutation(ordered, legs, OddsOf);
    ProductPermutation(ordered, legs, ProbabilityOf);
    SameProducts(legs, OddsOf, (o: Opportunity) => o.odds);
    SameProducts(legs, ProbabilityOf, (o: Opportunity) => o.probability);
  }

  /** Its times are those of the earliest and the latest start and of the latest decision. */
  lemma TimesOnFields(legs: seq<Opportunity>, rules: Rules, digest: Payload -> string)
    requires rules.Valid() && Validated(legs, rules, digest).Ok?
    ensures var c := Validated(legs, rules, digest).value;
            && (forall l <- legs :: c.earliestStart <= l.eventStart <= c.latestStart)
            && (forall l <- legs :: l.decisionAsOf <= c.informationTime)
            && (exists l <- legs :: l.eventStart == c.earliestStart)
            && (exists l <- legs :: l.eventStart == c.latestStart)
            && (exists l <- legs :: l.decisionAsOf == c.informationTime)
  {
    hide Ordering.SortBy, ProductBy, MinBy, MaxBy, PairsOf, FirstPairError, FirstLegError, WholeError, DistinctIds,
         IdLe;
    var ordered := Ordering.SortBy(legs, IdLe);
    Ordering.SameElements(ordered, legs);
    var first := MinByMeaning(ordered, StartOf);
    var last := MaxByMeaning(ordered, StartOf);
    var newest := MaxByMeaning(ordered, DecisionOf);
    assert first in legs && last in legs && newest in legs;
    forall l <- legs ensures l in ordered && MinBy(ordered, StartOf) <= StartOf(l) <= MaxBy(ordered, StartOf) {
    }
    forall l <- legs ensures DecisionOf(l) <= MaxBy(ordered, DecisionOf) {
    }
  }

  /** Distinct identifiers ascend strictly in the sorted legs. */
  lemma InIdOrder(legs: seq<Opportunity>)
    ensures var ordered := Ordering.SortBy(legs, IdLe);
            && |ordered| == |legs| && multiset(ordered) == multiset(legs)
            && forall i, j :: 0 <= i < j < |ordered| ==>
                 && Ordering.StrLe(ordered[i].id, ordered[j].id)
                 && (DistinctIds(ordered) ==> ordered[i].id != ordered[j].id)
  {
    hide Ordering.SortBy, DistinctIds;
    var ordered := Ordering.SortBy(legs, IdLe);
    IdLeIsTotalPreorder();
    Ordering.SortBySorted(legs, IdLe);
    forall i, j | 0 <= i < j < |ordered|
      ensures Ordering.StrLe(ordered[i].id, ordered[j].id) && (DistinctIds(ordered) ==> ordered[i].id != ordered[j].id)
    {
      assert IdLe(ordered[i], ordered[j]);
      if DistinctIds(ordered) { DistinctIdsSeparate(ordered, i, j); }
    }
  }

  /* ---------- The dependencies ---------- */

  /** The position of the pair (i, j) among the pairs of n legs, row by row. */
  function PairIndex(n: nat, i: nat, j: nat): nat
    requires i < j < n
  {
    if i == 0 then j - 1 else n - 1 + PairIndex(n - 1, i - 1, j - 1)
  }

  lemma {:induction false} PairCount(legs: seq<Opportunity>)
    ensures 2 * |PairsOf(legs)| == |legs| * (|legs| - 1)
  {
    hide ClassifyLegs;
    if legs != [] {
      var n, rest := |legs| - 1, legs[1..];
      PairCount(rest);
      assert |PairsOf(legs)| == n + |PairsOf(rest)|;
      assert 2 * n + n * (n - 1) == (n + 1) * n;
    }
  }

  /** Every pair of legs has its own entry, in the order of the pairs. */
  lemma {:induction false} PairByIndex(legs: seq<Opportunity>, i: nat, j: nat)
    requires i < j < |legs|
    ensures PairIndex(|legs|, i, j) < |PairsOf(legs)|
    ensures PairsOf(legs)[PairIndex(|legs|, i, j)] == ClassifyLegs(legs[i], legs[j])
  {
    hide ClassifyLegs, PairsOf, PairsWith;
    var rest := legs[1..];
    RowThenRest(legs);
    if i > 0 {
      PairByIndex(rest, i - 1, j - 1);
      assert rest[i - 1] == legs[i] && rest[j - 1] == legs[j];
    }
  }

  lemma RowThenRest(legs: seq<Opportunity>)
    requires legs != []
    ensures |PairsOf(legs)| == |legs| - 1 + |PairsOf(legs[1..])|
    ensures forall j :: 0 < j < |legs| ==> PairsOf(legs)[j - 1] == ClassifyLegs(legs[0], legs[j])
    ensures forall k :: 0 <= k < |PairsOf(legs[1..])| ==> PairsOf(legs)[|legs| - 1 + k] == PairsOf(legs[1..])[k]
  {
    hide ClassifyLegs, PairsWith, PairsOf;
    var row, rest := PairsWith(legs[0], legs[1..]), PairsOf(legs[1..]);
    assert PairsOf(legs) == row + rest by { Unfolded(legs); }
    forall j | 0 < j < |legs| ensures (row + rest)[j - 1] == ClassifyLegs(legs[0], legs[j]) {
      assert row[j - 1] == ClassifyLegs(legs[0], legs[1..][j - 1]);
    }
  }

  lemma Unfolded(legs: seq<Opportunity>)
    requires legs != []
    ensures PairsOf(legs) == PairsWith(legs[0], legs[1..]) + PairsOf(legs[1..])
  {
    hide ClassifyLegs, PairsWith;
  }

  /** A validated combination lists the classification of every pair of its legs, and all are structurally separate. */
  lemma DependenciesOnFields(legs: seq<Opportunity>, rules: Rules, digest: Payload -> string)
    requires rules.Valid() && Validated(legs, rules, digest).Ok?
    ensures var c := Validated(legs, rules, digest).value;
            && 2 * |c.dependencies| == |legs| * (|legs| - 1)
            && forall i, j :: 0 <= i < j < |c.legs| ==>
                 && ClassifyLegs(c.legs[i], c.legs[j]) in c.dependencies
                 && ClassifyLegs(c.legs[i], c.legs[j]).classification == STRUCTURALLY_SEPARATE
  {
    hide Ordering.SortBy, ProductBy, MinBy, MaxBy, PairsOf, FirstPairError, FirstLegError, WholeError, DistinctIds,
         ClassifyLegs;
    var ordered := Ordering.SortBy(legs, IdLe);
    PairCount(ordered);
    NoPairError(PairsOf(ordered));
    forall i, j | 0 <= i < j < |ordered|
      ensures ClassifyLegs(ordered[i], ordered[j]) in PairsOf(ordered)
      ensures ClassifyLegs(ordered[i], ordered[j]).classification == STRUCTURALLY_SEPARATE
    {
      PairByIndex(ordered, i, j);
      assert PairsOf(ordered)[PairIndex(|ordered|, i, j)] in PairsOf(ordered);
    }
  }

  /* ---------- Which check fails first ---------- */

  /** The first leg, by identifier, that fails a check, and the check. */
  lemma {:induction false} FirstBadLeg(legs: seq<Opportunity>, rules: Rules) returns (i: nat)
    requires FirstLegError(legs, rules).Some?
    ensures i < |legs| && LegError(legs[i], rules) == FirstLegError(legs, rules)
    ensures forall k :: 0 <= k < i ==> LegError(legs[k], rules).None?
  {
    hide LegError;
    if LegError(legs[0], rules).Some? {
      i := 0;
    } else {
      var k := FirstBadLeg(legs[1..], rules);
      i := k + 1;
      forall n | 0 <= n < i ensures LegError(legs[n], rules).None? {
        assert n > 0 ==> legs[1..][n - 1] == legs[n];
      }
    }
  }

  lemma {:induction false} FirstBadEntry(pairs: seq<LegDependency>) returns (i: nat)
    requires FirstPairError(pairs).Some?
    ensures i < |pairs| && PairError(pairs[i]) == FirstPairError(pairs)
    ensures forall k :: 0 <= k < i ==> PairError(pairs[k]).None?
  {
    hide PairError;
    if PairError(pairs[0]).Some? {
      i := 0;
    } else {
      var k := FirstBadEntry(pairs[1..]);
      i := k + 1;
      forall n | 0 <= n < i ensures PairError(pairs[n]).None? {
        assert n > 0 ==> pairs[1..][n - 1] == pairs[n];
      }
    }
  }

  /** The first pair, row by row, that is not structurally separate. */
  lemma {:induction false} FirstBadPair(legs: seq<Opportunity>) returns (i: nat, j: nat)
    requires FirstPairError(PairsOf(legs)).Some?
    ensures i < j < |legs| && PairError(ClassifyLegs(legs[i], legs[j])) == FirstPairError(PairsOf(legs))
    ensures forall k, n :: 0 <= k < n < |legs| && (k < i || (k == i && n < j)) ==>
              PairError(ClassifyLegs(legs[k], legs[n])).None?
  {
    hide PairError, ClassifyLegs;
    var row, rest := PairsWith(legs[0], legs[1..]), legs[1..];
    FirstPairErrorAppend(row, PairsOf(rest));
    if FirstPairError(row).Some? {
      var k := FirstBadEntry(row);
      i, j := 0, k + 1;
      forall n | 0 < n < j ensures PairError(ClassifyLegs(legs[0], legs[n])).None? {
        assert row[n - 1] == ClassifyLegs(legs[0], legs[n]);
      }
    } else {
      var a, b := FirstBadPair(rest);
      i, j := a + 1, b + 1;
      NoPairError(row);
      forall k, n | 0 <= k < n < |legs| && (k < i || (k == i && n < j))
        ensures PairError(ClassifyLegs(legs[k], legs[n])).None?
      {
        if k == 0 {
          assert row[n - 1] in row;
        } else {
          assert rest[k - 1] == legs[k] && rest[n - 1] == legs[n];
        }
      }
    }
  }

  /** Bounds, identifiers and every single leg are in order. */
  ghost predicate LegsPass(legs: seq<Opportunity>, rules: Rules) {
    && rules.minLegs <= |legs| <= rules.maxLegs
    && (forall i, j :: 0 <= i < j < |legs| ==> legs[i].id != legs[j].id)
    && forall l <- legs :: LegError(l, rules).None?
  }

  /** So is every pair. */
  ghost predicate PairsPass(legs: seq<Opportunity>, rules: Rules) {
    && LegsPass(legs, rules)
    && forall l <- legs, r <- legs :: l == r || ClassifyLegs(l, r).classification == STRUCTURALLY_SEPARATE
  }

  /** The identifier of one leg sorts strictly before that of the other. */
  predicate IdBefore(l: Opportunity, r: Opportunity) {
    Ordering.StrLe(l.id, r.id) && l.id != r.id
  }

  /** The pair (a, b) comes before the pair (l, r) when pairs are listed by their identifiers. */
  predicate PairBefore(a: Opportunity, b: Opportunity, l: Opportunity, r: Opportunity) {
    IdBefore(a, b) && (IdBefore(a, l) || (a == l && IdBefore(b, r)))
  }

  /** The first pair, by the identifiers of its legs, that is not structurally separate is classified so. */
  ghost predicate FirstRelated(legs: seq<Opportunity>, classification: DependencyClass, reason: DependencyReason) {
    exists l <- legs, r <- legs ::
      && IdBefore(l, r) && ClassifyLegs(l, r).classification == classification && ClassifyLegs(l, r).reason == reason
      && forall a <- legs, b <- legs :: PairBefore(a, b, l, r) ==>
           ClassifyLegs(a, b).classification == STRUCTURALLY_SEPARATE
  }

  /**
   * The first check that fails, in this order: the number of legs, repeated identifiers, the first leg and then the
   * first pair by identifiers, and the seven checks on the whole set.
   */
  ghost predicate Refusal(legs: seq<Opportunity>, rules: Rules, e: CombinationError) {
    var odds, joint := ProductBy(legs, OddsOf), ProductBy(legs, ProbabilityOf);
    match e
    case LegCountOutOfBounds => |legs| < rules.minLegs || rules.maxLegs < |legs|
    case DuplicateIds =>
      rules.minLegs <= |legs| <= rules.maxLegs && exists i, j :: 0 <= i < j < |legs| && legs[i].id == legs[j].id
    case ConflictingLegs(_) => LegsPass(legs, rules) && FirstRelated(legs, CONFLICT, e.conflict)
    case UnknownDependency(_) => LegsPass(legs, rules) && FirstRelated(legs, UNKNOWN, e.unknown)
    case DecisionNotBeforeStart => PairsPass(legs, rules) && !DecisionsFirst(legs)
    case CombinedOddsOutOfRange =>
      PairsPass(legs, rules) && DecisionsFirst(legs) && (odds < rules.minOdds || rules.maxOdds < odds)
    case MultipleSportsDisabled => Priced(legs, rules) && !rules.allowMultipleSports && !OneSport(legs)
    case MultipleDatesDisabled =>
      Priced(legs, rules) && SportsPass(legs, rules) && !rules.allowMultipleDates && !OneDate(legs)
    case HorizonExceeded =>
      && Priced(legs, rules) && SportsPass(legs, rules) && (rules.allowMultipleDates || OneDate(legs))
      && !WithinHorizon(legs, rules.maxHorizon)
    case JointProbabilityTooLow => TimesPass(legs, rules) && joint < rules.minJointProbability
    case ExpectedValueTooLow =>
      TimesPass(legs, rules) && rules.minJointProbability <= joint && joint * odds - 1.0 < rules.minExpectedValue
    case FailedPredictionQuality => false
    case _ =>
      && rules.minLegs <= |legs| <= rules.maxLegs
      && (forall i, j :: 0 <= i < j < |legs| ==> legs[i].id != legs[j].id) && FirstFailing(legs, rules, e)
  }

  ghost predicate Priced(legs: seq<Opportunity>, rules: Rules) {
    PairsPass(legs, rules) && DecisionsFirst(legs) && rules.minOdds <= ProductBy(legs, OddsOf) <= rules.maxOdds
  }

  ghost predicate SportsPass(legs: seq<Opportunity>, rules: Rules) {
    rules.allowMultipleSports || OneSport(legs)
  }

  ghost predicate TimesPass(legs: seq<Opportunity>, rules: Rules) {
    && Priced(legs, rules) && SportsPass(legs, rules) && (rules.allowMultipleDates || OneDate(legs))
    && WithinHorizon(legs, rules.maxHorizon)
  }

  /** The first leg by identifier that fails a check fails it so. */
  ghost predicate FirstFailing(legs: seq<Opportunity>, rules: Rules, e: CombinationError) {
    exists l <- legs :: LegError(l, rules) == Some(e) && forall k <- legs :: IdBefore(k, l) ==> LegError(k, rules).None?
  }

  /** The error of a refused leg set names the first check that fails. */
  lemma ErrorOnFields(legs: seq<Opportunity>, rules: Rules, digest: Payload -> string)
    requires rules.Valid() && Validated(legs, rules, digest).Err?
    ensures Refusal(legs, rules, Validated(legs, rules, digest).error)
  {
    hide Ordering.SortBy, ProductBy, MinBy, MaxBy, PairsOf, FirstPairError, FirstLegError, WholeError, DistinctIds,
         ClassifyLegs, LegError, IdBefore, LegsPass, FirstRelated, PairwiseSeparate, PairsPass, FirstFailing, Priced,
         SportsPass, TimesPass, DecisionsFirst, OneSport, OneDate, WithinHorizon;
    var ordered := Ordering.SortBy(legs, IdLe);
    DistinctIdsPermutation(ordered, legs);
    DistinctOnFields(legs);
    if rules.minLegs <= |legs| <= rules.maxLegs && DistinctIds(ordered) {
      if FirstLegError(ordered, rules).Some? {
        LegErrorIsFirst(legs, rules);
      } else {
        LegsPassed(legs, rules);
        PairsOfSeparate(ordered);
        if FirstPairError(PairsOf(ordered)).Some? {
          PairErrorIsFirst(legs);
        } else {
          PairsPassed(legs, rules);
          WholeErrorIsFirst(legs, rules);
        }
      }
    }
  }

  lemma LegsPassed(legs: seq<Opportunity>, rules: Rules)
    requires rules.minLegs <= |legs| <= rules.maxLegs && DistinctIds(legs)
    requires FirstLegError(Ordering.SortBy(legs, IdLe), rules).None?
    ensures LegsPass(legs, rules)
  {
    hide Ordering.SortBy, LegError, DistinctIds;
    NoLegError(Ordering.SortBy(legs, IdLe), rules);
    DistinctOnFields(legs);
    Ordering.SameElements(Ordering.SortBy(legs, IdLe), legs);
  }

  lemma PairsPassed(legs: seq<Opportunity>, rules: Rules)
    requires LegsPass(legs, rules) && PairwiseSeparate(Ordering.SortBy(legs, IdLe))
    ensures PairsPass(legs, rules)
  {
    hide Ordering.SortBy, ClassifyLegs, LegsPass;
    Ordering.SameElements(Ordering.SortBy(legs, IdLe), legs);
    forall l <- legs, r <- legs ensures l == r || ClassifyLegs(l, r).classification == STRUCTURALLY_SEPARATE {
      assert l != r ==> Separate(l, r);
    }
  }

  lemma LegErrorIsFirst(legs: seq<Opportunity>, rules: Rules)
    requires DistinctIds(Ordering.SortBy(legs, IdLe))
    requires FirstLegError(Ordering.SortBy(legs, IdLe), rules).Some?
    ensures FirstFailing(legs, rules, FirstLegError(Ordering.SortBy(legs, IdLe), rules).value)
    ensures LegErrorKind(FirstLegError(Ordering.SortBy(legs, IdLe), rules).value)
  {
    hide Ordering.SortBy, DistinctIds, FirstLegError, LegError;
    var ordered := Ordering.SortBy(legs, IdLe);
    InIdOrder(legs);
    Ordering.SameElements(ordered, legs);
    var i := FirstBadLeg(ordered, rules);
    assert ordered[i] in legs;
    KindOfLegError(ordered[i], rules);
    forall k <- legs ensures IdBefore(k, ordered[i]) ==> LegError(k, rules).None? {
      var n :| 0 <= n < |ordered| && ordered[n] == k;
      if n > i && IdBefore(k, ordered[i]) {
        Ordering.StrLeAntisymmetric(k.id, ordered[i].id);
      }
    }
  }

  predicate LegErrorKind(e: CombinationError) {
    e.BenchmarkLeg? || e.LegOddsOutOfRange? || e.MissingQuoteTime? || e.SportNotAllowed? || e.MarketNotAllowed?
  }

  lemma KindOfLegError(l: Opportunity, rules: Rules)
    ensures LegError(l, rules).Some? ==> LegErrorKind(LegError(l, rules).value)
  {
  }

  lemma PairErrorIsFirst(legs: seq<Opportunity>)
    requires DistinctIds(Ordering.SortBy(legs, IdLe))
    requires FirstPairError(PairsOf(Ordering.SortBy(legs, IdLe))).Some?
    ensures var e := FirstPairError(PairsOf(Ordering.SortBy(legs, IdLe))).value;
            || (e.ConflictingLegs? && FirstRelated(legs, CONFLICT, e.conflict))
            || (e.UnknownDependency? && FirstRelated(legs, UNKNOWN, e.unknown))
  {
    hide Ordering.SortBy, DistinctIds, FirstPairError, PairsOf, ClassifyLegs;
    var ordered := Ordering.SortBy(legs, IdLe);
    InIdOrder(legs);
    Ordering.SameElements(ordered, legs);
    var i, j := FirstBadPair(ordered);
    var l, r := ordered[i], ordered[j];
    assert l in legs && r in legs && IdBefore(l, r);
    forall a <- legs, b <- legs | PairBefore(a, b, l, r)
      ensures ClassifyLegs(a, b).classification == STRUCTURALLY_SEPARATE
    {
      var k :| 0 <= k < |ordered| && ordered[k] == a;
      var n :| 0 <= n < |ordered| && ordered[n] == b;
      PositionBefore(legs, k, n);
      if IdBefore(a, l) {
        PositionBefore(legs, k, i);
      } else {
        PositionBefore(legs, n, j);
      }
    }
  }

  /** In the sorted legs the smaller identifier has the smaller position, and equal legs have the same. */
  lemma PositionBefore(legs: seq<Opportunity>, k: nat, n: nat)
    requires DistinctIds(Ordering.SortBy(legs, IdLe))
    requires k < |Ordering.SortBy(legs, IdLe)| && n < |Ordering.SortBy(legs, IdLe)|
    ensures var ordered := Ordering.SortBy(legs, IdLe);
            && (IdBefore(ordered[k], ordered[n]) <==> k < n)
            && (ordered[k] == ordered[n] <==> k == n)
  {
    hide Ordering.SortBy, DistinctIds;
    var ordered := Ordering.SortBy(legs, IdLe);
    InIdOrder(legs);
    if k > n && IdBefore(ordered[k], ordered[n]) {
      Ordering.StrLeAntisymmetric(ordered[k].id, ordered[n].id);
    }
  }

  lemma SameRelations(a: seq<Opportunity>, b: seq<Opportunity>, horizon: int)
    requires forall x :: x in a <==> x in b
    ensures DecisionsFirst(a) == DecisionsFirst(b) && OneSport(a) == OneSport(b) && OneDate(a) == OneDate(b)
    ensures WithinHorizon(a, horizon) == WithinHorizon(b, horizon)
  {
  }

  lemma WholeErrorIsFirst(legs: seq<Opportunity>, rules: Rules)
    requires Ordering.SortBy(legs, IdLe) != [] && PairsPass(legs, rules)
    requires WholeError(Ordering.SortBy(legs, IdLe), rules).Some?
    ensures Refusal(legs, rules, WholeError(Ordering.SortBy(legs, IdLe), rules).value)
  {
    hide Ordering.SortBy, ProductBy, MinBy, MaxBy, SportsOf, DatesOf, DecisionsFirst, OneSport, OneDate, WithinHorizon,
         PairsPass;
    var ordered := Ordering.SortBy(legs, IdLe);
    Ordering.SameElements(ordered, legs);
    SameRelations(ordered, legs, rules.maxHorizon);
    SportsMeaning(ordered);
    DatesMeaning(ordered);
    TimesMeaning(ordered, rules.maxHorizon);
    ProductPermutation(ordered, legs, OddsOf);
    ProductPermutation(ordered, legs, ProbabilityOf);
  }
}
