/** The auditable validation of hand-picked legs (combinations/contracts.py). */
module ManualValidation {
  import opened Wrappers
  import Ordering
  import opened Opportunities
  import opened Dependencies
  import opened CombinationContracts

  datatype ManualResult = ManualResult(legs: seq<Opportunity>, dependencies: seq<LegDependency>,
                                       combination: Option<Combination>,
                                       eligible: bool, reasons: seq<CombinationError>)

  /** The rejections of the pairs that conflict or are unknown, in pair order. */
  function PairReasons(pairs: seq<LegDependency>): seq<CombinationError> {
    if pairs == [] then []
    else
      var last := PairError(pairs[|pairs| - 1]);
      PairReasons(pairs[..|pairs| - 1]) + if last.Some? then [last.value] else []
  }

  /** validate_combination_manual: every bad pair is listed; without one the full validation decides. */
  ghost function Manual(legs: seq<Opportunity>, rules: Rules, digest: Payload -> string): ManualResult
    requires rules.Valid()
  {
    var ordered := Ordering.SortBy(legs, IdLe);
    var pairs := PairsOf(ordered);
    if PairReasons(pairs) != [] then ManualResult(ordered, pairs, None, false, PairReasons(pairs))
    else
      match Validated(ordered, rules, digest)
      case Err(e) => ManualResult(ordered, pairs, None, false, [e])
      case Ok(c) => ManualResult(ordered, pairs, Some(c), true, [])
  }

  /** The inner loop: one leg against the later ones. */
  method ClassifyRest(left: Opportunity, rest: seq<Opportunity>, dependencies0: seq<LegDependency>,
                      reasons0: seq<CombinationError>)
    returns (dependencies: seq<LegDependency>, reasons: seq<CombinationError>)
    requires reasons0 == PairReasons(dependencies0)
    ensures dependencies == dependencies0 + PairsWith(left, rest) && reasons == PairReasons(dependencies)
  {
    hide ClassifyLegs, PairError, PairReasons;
    dependencies, reasons := dependencies0, reasons0;
    ghost var pairs := PairsWith(left, rest);
    for j := 0 to |rest|
      invariant dependencies == dependencies0 + pairs[..j]
      invariant reasons == PairReasons(dependencies)
    {
      var relation := ClassifyLegs(left, rest[j]);
      ReasonStep(dependencies, relation);
      assert dependencies + [relation] == dependencies0 + pairs[..j + 1];
      dependencies := dependencies + [relation];
      if PairError(relation).Some? {
        reasons := reasons + [PairError(relation).value];
      } else {
        assert reasons + [] == reasons;
      }
    }
  }

  method ClassifyAll(ordered: seq<Opportunity>)
    returns (dependencies: seq<LegDependency>, reasons: seq<CombinationError>)
    ensures dependencies == PairsOf(ordered) && reasons == PairReasons(PairsOf(ordered))
  {
    hide PairReasons, PairsWith, PairsOf;
    dependencies, reasons := [], [];
    NothingClassified(ordered);
    for i := 0 to |ordered|
      invariant dependencies + PairsOf(ordered[i..]) == PairsOf(ordered)
      invariant reasons == PairReasons(dependencies)
    {
      NextLeg(ordered, i, dependencies);
      dependencies, reasons := ClassifyRest(ordered[i], ordered[i + 1..], dependencies, reasons);
    }
    AllClassified(ordered, dependencies);
  }

  lemma NothingClassified(ordered: seq<Opportunity>)
    ensures PairReasons([]) == [] && [] + PairsOf(ordered[0..]) == PairsOf(ordered)
  {
    assert ordered[0..] == ordered;
  }

  lemma NextLeg(ordered: seq<Opportunity>, i: nat, before: seq<LegDependency>)
    requires i < |ordered|
    ensures before + PairsOf(ordered[i..]) ==
            before + PairsWith(ordered[i], ordered[i + 1..]) + PairsOf(ordered[i + 1..])
  {
    assert ordered[i..][1..] == ordered[i + 1..];
  }

  lemma AllClassified(ordered: seq<Opportunity>, dependencies: seq<LegDependency>)
    ensures dependencies + PairsOf(ordered[|ordered|..]) == dependencies
  {
  }

  lemma ReasonStep(pairs: seq<LegDependency>, d: LegDependency)
    ensures PairReasons(pairs + [d]) == PairReasons(pairs) + if PairError(d).Some? then [PairError(d).value] else []
  {
    assert (pairs + [d])[..|pairs|] == pairs;
  }

  method ValidateManually(legs: seq<Opportunity>, rules: Rules, digest: Payload -> string) returns (r: ManualResult)
    requires rules.Valid()
    ensures r == Manual(legs, rules, digest)
  {
    hide Ordering.SortBy, PairsOf, Validated, PairReasons;
    var ordered := Ordering.SortBy(legs, IdLe);
    var dependencies, reasons := ClassifyAll(ordered);
    if reasons != [] {
      return ManualResult(ordered, dependencies, None, false, reasons);
    }
    var combination := ValidateCombination(ordered, rules, digest);
    match combination {
      case Err(e) => r := ManualResult(ordered, dependencies, None, false, [e]);
      case Ok(c) => r := ManualResult(ordered, dependencies, Some(c), true, []);
    }
  }

  lemma {:induction false} NoReasons(pairs: seq<LegDependency>)
    ensures PairReasons(pairs) == [] <==> FirstPairError(pairs).None?
  {
    NoPairError(pairs);
    if pairs != [] {
      var front, last := pairs[..|pairs| - 1], pairs[|pairs| - 1];
      NoReasons(front);
      NoPairError(front);
      assert pairs == front + [last];
    }
  }

  /** Manual and automatic validation accept the same leg sets and build the same combination. */
  lemma ManualAgrees(legs: seq<Opportunity>, rules: Rules, digest: Payload -> string)
    requires rules.Valid()
    ensures var r := Manual(legs, rules, digest);
            && (r.eligible <==> Validated(legs, rules, digest).Ok?) && (r.eligible <==> r.reasons == [])
            && (r.eligible ==> r.combination == Some(Validated(legs, rules, digest).value))
            && (!r.eligible ==> r.combination.None?)
  {
    hide FirstLegError, WholeError, PairsOf, PairReasons, FirstPairError, Ordering.SortBy;
    var ordered := Ordering.SortBy(legs, IdLe);
    NoReasons(PairsOf(ordered));
    Ordering.SameElements(ordered, legs);
    SortedOnce(legs);
  }

  /** Sorting the sorted legs again changes nothing, whatever their identifiers. */
  lemma SortedOnce(legs: seq<Opportunity>)
    ensures Ordering.SortBy(Ordering.SortBy(legs, IdLe), IdLe) == Ordering.SortBy(legs, IdLe)
  {
    IdLeIsTotalPreorder();
    Ordering.SortBySorted(legs, IdLe);
    Ordering.SortBySortedIdentity(Ordering.SortBy(legs, IdLe), IdLe);
  }
}
