/** Flat-unit settlement of singles and combinations (backtesting/engine.py). */
module Settlement {
  import opened Wrappers
  import opened Aggregates

  datatype Outcome = Win | Loss | Push | Void

  datatype SettlementError = OddsNotAboveOne | PushOrVoid | NoLegs

  /** One leg of a settled combination. */
  datatype Leg = Leg(odds: real, outcome: Outcome)

  datatype SettledCombination = SettledCombination(outcome: Outcome, odds: real, returned: real, profit: real)

  function OddsOfLeg(leg: Leg): real { leg.odds }

  /** settle_single_flat_unit: the units returned and the profit on a one-unit stake. */
  function SettleSingle(odds: real, outcome: Outcome): Result<(real, real), SettlementError> {
    if odds <= 1.0 then Err(OddsNotAboveOne)
    else
      match outcome
      case Win => Ok((odds, odds - 1.0))
      case Loss => Ok((0.0, -1.0))
      case _ => Err(PushOrVoid)
  }

  function LegErrorOf(legs: seq<Leg>): Option<SettlementError> {
    if legs == [] then None
    else if legs[0].odds <= 1.0 then Some(OddsNotAboveOne)
    else if legs[0].outcome == Push || legs[0].outcome == Void then Some(PushOrVoid)
    else LegErrorOf(legs[1..])
  }

  predicate AllWon(legs: seq<Leg>) {
    forall leg <- legs :: leg.outcome == Win
  }

  /** What settling a combination amounts to: every leg must win, and then the odds multiply. */
  function CombinationSettlement(legs: seq<Leg>): Result<SettledCombination, SettlementError> {
    if legs == [] then Err(NoLegs)
    else if LegErrorOf(legs).Some? then Err(LegErrorOf(legs).value)
    else if AllWon(legs) then
      var product := ProductBy(legs, OddsOfLeg);
      Ok(SettledCombination(Win, product, product, product - 1.0))
    else Ok(SettledCombination(Loss, 0.0, 0.0, -1.0))
  }

  lemma {:induction false} NoLegError(legs: seq<Leg>)
    ensures LegErrorOf(legs).None? <==>
            forall leg <- legs :: leg.odds > 1.0 && (leg.outcome == Win || leg.outcome == Loss)
  {
    if legs != [] {
      NoLegError(legs[1..]);
      assert legs == [legs[0]] + legs[1..];
    }
  }

  /** settle_combination_flat_unit */
  method SettleCombination(legs: seq<Leg>) returns (r: Result<SettledCombination, SettlementError>)
    ensures r == CombinationSettlement(legs)
  {
    hide Times, LegErrorOf;
    if legs == [] {
      return Err(NoLegs);
    }
    var error := CheckLegs(legs);
    if error.Some? {
      return Err(error.value);
    }
    NoLegError(legs);
    if exists leg <- legs :: leg.outcome == Loss {
      return Ok(SettledCombination(Loss, 0.0, 0.0, -1.0));
    }
    var active := 1.0;
    for i := 0 to |legs|
      invariant active == ProductBy(legs[..i], OddsOfLeg)
    {
      TakeStep(legs, i);
      assert legs[i] in legs;
      if legs[i].outcome == Win {
        active := Times(active, legs[i].odds);
      }
    }
    assert legs[..|legs|] == legs;
    return Ok(SettledCombination(Win, active, active, active - 1.0));
  }

  method CheckLegs(legs: seq<Leg>) returns (r: Option<SettlementError>)
    ensures r == LegErrorOf(legs)
  {
    for i := 0 to |legs|
      invariant LegErrorOf(legs) == LegErrorOf(legs[i..])
    {
      if legs[i].odds <= 1.0 {
        return Some(OddsNotAboveOne);
      }
      if legs[i].outcome == Push || legs[i].outcome == Void {
        return Some(PushOrVoid);
      }
    }
    r := None;
  }

  lemma {:induction false} ProductAboveOne(legs: seq<Leg>)
    requires legs != [] && forall leg <- legs :: leg.odds > 1.0
    ensures ProductBy(legs, OddsOfLeg) > 1.0
  {
    hide Times;
    var front, last := legs[..|legs| - 1], legs[|legs| - 1];
    if front == [] {
      TimesOne(last.odds);
    } else {
      ProductAboveOne(front);
      TimesGrows(ProductBy(front, OddsOfLeg), last.odds);
    }
  }

  lemma TimesOne(x: real)
    ensures Times(1.0, x) == x
  {
  }

  /** A settled combination returns its stake plus its profit, and either loses the stake or wins something. */
  lemma SettledUnit(legs: seq<Leg>)
    requires CombinationSettlement(legs).Ok?
    ensures var s := CombinationSettlement(legs).value;
            && s.returned == 1.0 + s.profit
            && (s.outcome == Win <==> AllWon(legs)) && (s.outcome == Win ==> s.profit > 0.0)
            && (s.outcome != Win ==> s.outcome == Loss && s.profit == -1.0)
  {
    NoLegError(legs);
    ProductAboveOne(legs);
  }

  /** A combination of one leg settles as the single does, except that a lost one reports odds of zero. */
  lemma OneLegIsSingle(leg: Leg)
    ensures CombinationSettlement([leg]).Err? <==> SettleSingle(leg.odds, leg.outcome).Err?
    ensures CombinationSettlement([leg]).Ok? ==>
              var s := CombinationSettlement([leg]).value;
              (s.returned, s.profit) == SettleSingle(leg.odds, leg.outcome).value && s.outcome == leg.outcome
  {
    NoLegError([leg]);
    TimesOne(leg.odds);
    assert leg in [leg];
    assert ProductBy([leg], OddsOfLeg) == leg.odds by {
      assert [leg][..|[leg]| - 1] == [];
      assert ProductBy([leg], OddsOfLeg) == Times(ProductBy([], OddsOfLeg), OddsOfLeg(leg));
    }
  }

  /** The order of the legs does not matter once they can be settled. */
  lemma SettlementIgnoresLegOrder(a: seq<Leg>, b: seq<Leg>)
    requires multiset(a) == multiset(b) && CombinationSettlement(a).Ok?
    ensures CombinationSettlement(a) == CombinationSettlement(b)
  {
    NoLegError(a);
    NoLegError(b);
    assert forall leg :: leg in a <==> leg in multiset(a);
    assert forall leg :: leg in b <==> leg in multiset(b);
    assert |a| == |multiset(a)| && |b| == |multiset(b)|;
    ProductPermutation(a, b, OddsOfLeg);
  }
}
