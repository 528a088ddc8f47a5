/** What one acquisition may publish and what may replace the last valid snapshot (bookmakers/admission.py). */
module Admission {
  import opened Wrappers

  /** Status labels of runs, results, attempts, provider states and admission outcomes. */
  datatype Label =
    | Succeeded | Admitted | Operational | Partial | Blocked | Failed | Retryable | DriftDetected | Unavailable

  datatype Completeness = CompleteByProviderReference | CompleteByReviewedEventPayload | Incomplete

  /** A native market lists, for each selection, whether it carries a price. */
  datatype Market = Market(priced: seq<bool>)

  datatype Event = Event(completeness: Completeness, markets: seq<Market>)

  datatype Bundle = Bundle(events: seq<Event>, driftCodes: seq<string>)

  /** The counts taken from the normalised bundle. */
  datatype Normalised = Normalised(validQuotes: nat, unresolvedEvents: nat, unknownMarkets: nat, comparable: bool)

  datatype Decision = Decision(
    outcome: Label,
    reason: string,
    mayPublish: bool,
    mayReplaceLastValid: bool,
    inventoryAdmitted: bool,
    projectionAdmitted: bool,
    catalogueAdmitted: bool,
    exhaustive: bool)

  const INFORMATIONAL_DRIFT: set<string> := {
    "unknown-market", "live-event-excluded", "non-football-excluded", "non-prematch-excluded",
    "malformed-event-reference", "malformed-market-reference", "malformed-selection-reference",
    "malformed-market-list", "malformed-selection-list", "malformed-event", "malformed-market",
    "malformed-selection", "event-without-supported-markets", "participant-count-rejected",
    "participant-identity-rejected", "competition-identity-rejected", "selection-mapping-rejected",
    "market-typeid-mismatch", "missing-total-line", "contradictory-line", "duplicate-selection-id",
    "event-outside-window", "non-prematch-event-excluded", "event-before-window",
    "event-at-or-after-window", "event-limit-truncated"}

  function Refused(outcome: Label, reason: string): Decision {
    Decision(outcome, reason, false, false, false, false, false, false)
  }

  function MarketCount(events: seq<Event>): (n: nat)
    ensures n > 0 <==> exists e <- events :: e.markets != []
  {
    if events == [] then 0
    else
      assert forall e :: e in events <==> e == events[0] || e in events[1..];
      |events[0].markets| + MarketCount(events[1..])
  }

  function PricedIn(flags: seq<bool>): (n: nat)
    ensures n > 0 <==> true in flags
  {
    if flags == [] then 0 else (if flags[0] then 1 else 0) + PricedIn(flags[1..])
  }

  function PricedInMarkets(markets: seq<Market>): (n: nat)
    ensures n > 0 <==> exists m <- markets :: true in m.priced
  {
    if markets == [] then 0
    else
      assert forall m :: m in markets <==> m == markets[0] || m in markets[1..];
      PricedIn(markets[0].priced) + PricedInMarkets(markets[1..])
  }

  function PricedCount(events: seq<Event>): (n: nat)
    ensures n > 0 <==> exists e <- events :: PricedInMarkets(e.markets) > 0
  {
    if events == [] then 0
    else
      assert forall e :: e in events <==> e == events[0] || e in events[1..];
      PricedInMarkets(events[0].markets) + PricedCount(events[1..])
  }

  predicate AllComplete(events: seq<Event>) {
    events != [] && forall e <- events :: e.completeness != Incomplete
  }

  predicate BlockingDrift(codes: seq<string>) {
    exists code <- codes :: code !in INFORMATIONAL_DRIFT
  }

  /** evaluate_admission */
  function Evaluate(blockReason: Option<string>, b: Bundle, n: Normalised, verified: bool): Decision {
    if blockReason.Some? then Refused(Blocked, blockReason.value)
    else if !verified then Refused(Unavailable, "no-verified-extraction-profile")
    else if "unknown-schema" in b.driftCodes || "schema-contradiction" in b.driftCodes then
      Refused(DriftDetected, "critical-parser-drift")
    else if b.events == [] then Refused(Unavailable, "no-supported-events")
    else if BlockingDrift(b.driftCodes) then Refused(DriftDetected, "parser-drift")
    else
      var legacy := MarketCount(b.events) == 0 && n.validQuotes > 0;
      var inventory := (MarketCount(b.events) > 0 && PricedCount(b.events) > 0) || legacy;
      if !inventory then Refused(Unavailable, "no-valid-provider-native-inventory")
      else
        var exhaustive := legacy || AllComplete(b.events);
        if n.unresolvedEvents > 0 || !exhaustive || n.unknownMarkets > 0 then
          Decision(Partial, "partial-acquisition", !legacy, false, true, n.validQuotes > 0, n.comparable, false)
        else
          Decision(Admitted, "admitted", true, true, true, n.validQuotes > 0, n.comparable, true)
  }

  /** Some selection of some market of some event carries a price. */
  predicate HasPrice(events: seq<Event>) {
    exists e <- events, m <- e.markets :: true in m.priced
  }

  /** Nothing was observed that stops the cycle before its inventory is looked at. */
  predicate Unobstructed(blockReason: Option<string>, b: Bundle, verified: bool) {
    blockReason.None? && verified && b.events != [] && !BlockingDrift(b.driftCodes)
  }

  /**
   * Replacing the last valid snapshot: only an admitted, exhaustive cycle, decided by its prices and its completeness.
   */
  lemma MayReplaceExactly(blockReason: Option<string>, b: Bundle, n: Normalised, verified: bool)
    ensures var d := Evaluate(blockReason, b, n, verified);
            && (d.mayReplaceLastValid <==> d.outcome == Admitted) && (d.mayReplaceLastValid <==> d.exhaustive)
            && (d.mayReplaceLastValid ==> d.mayPublish)
            && (d.mayReplaceLastValid <==>
                && Unobstructed(blockReason, b, verified) && n.unresolvedEvents == 0 && n.unknownMarkets == 0
                && (if exists e <- b.events :: e.markets != [] then HasPrice(b.events) && AllComplete(b.events)
                    else n.validQuotes > 0))
  {
    CriticalDriftBlocks(b.driftCodes);
    PricedExactly(b.events);
    hide INFORMATIONAL_DRIFT, AllComplete, BlockingDrift, HasPrice, MarketCount, PricedCount;
  }

  /** Publishing without replacing: a priced native inventory that is somehow incomplete. */
  lemma PublishWithoutReplacing(blockReason: Option<string>, b: Bundle, n: Normalised, verified: bool)
    ensures var d := Evaluate(blockReason, b, n, verified);
            && (d.mayPublish ==> d.inventoryAdmitted)
            && (d.mayPublish && !d.mayReplaceLastValid <==>
                && Unobstructed(blockReason, b, verified) && HasPrice(b.events)
                && (n.unresolvedEvents > 0 || n.unknownMarkets > 0 || !AllComplete(b.events)))
  {
    CriticalDriftBlocks(b.driftCodes);
    PricedExactly(b.events);
    hide INFORMATIONAL_DRIFT, AllComplete, BlockingDrift, HasPrice, MarketCount, PricedCount;
  }

  /** Without a block page a refusal is partial, drift or unavailability, never a block. */
  lemma RefusedOutcomes(blockReason: Option<string>, b: Bundle, n: Normalised, verified: bool)
    ensures var d := Evaluate(blockReason, b, n, verified);
            blockReason.None? && !d.mayPublish ==> d.outcome in {Partial, DriftDetected, Unavailable}
  {
    hide INFORMATIONAL_DRIFT, AllComplete, BlockingDrift, HasPrice, MarketCount, PricedCount;
  }

  lemma CriticalDriftBlocks(codes: seq<string>)
    ensures "unknown-schema" in codes || "schema-contradiction" in codes ==> BlockingDrift(codes)
  {
    assert "unknown-schema" !in INFORMATIONAL_DRIFT && "schema-contradiction" !in INFORMATIONAL_DRIFT;
  }

  lemma PricedExactly(events: seq<Event>)
    ensures PricedCount(events) > 0 <==> HasPrice(events)
    ensures HasPrice(events) ==> exists e <- events :: e.markets != []
  {
  }

  /* ---------- Two admissions that occur ---------- */

  const ADMITTED := Decision(Admitted, "admitted", true, true, true, true, true, true)
  const PUBLISHED_PARTIAL := Decision(Partial, "partial-acquisition", true, false, true, true, true, false)

  /** One event with one priced selection, as complete as the provider says. */
  function OneEvent(completeness: Completeness): Bundle {
    Bundle([Event(completeness, [Market([true])])], [])
  }

  /** A complete event is admitted, an incomplete one is published as partial. */
  lemma OneEventAdmitted(completeness: Completeness)
    ensures Evaluate(None, OneEvent(completeness), Normalised(1, 0, 0, true), true)
         == if completeness == Incomplete then PUBLISHED_PARTIAL else ADMITTED
  {
    var market := Market([true]);
    var event := Event(completeness, [market]);
    assert market in [market] && event in [event] && true in market.priced;
    assert PricedInMarkets([market]) > 0;
    assert PricedCount([event]) > 0;
    assert event.markets != [] && MarketCount([event]) > 0;
    assert AllComplete([event]) <==> completeness != Incomplete;
  }
}
