/** The provider-native inventory that the loader accepts (bookmakers/loader.py). */
module NativeInventory {
  import opened Wrappers
  import Ordering
  import opened Aggregates
  import opened Partitions

  datatype CompletenessState = CompleteByProviderReference | CompleteByReviewedEventPayload | OtherState

  datatype Completeness = Completeness(
    groupsObserved: int, marketsObserved: int, marketsParsed: int, marketsRejected: int,
    selectionsObserved: int, selectionsParsed: int, selectionsRejected: int, marketsWithValidPrice: int, responses: int,
    truncated: int, boundedRejections: int, missingChunks: int, limitTruncated: int,
    declared: Option<int>, visited: bool, ready: bool, permitted: bool, state: CompletenessState)

  datatype EventRow = EventRow(provider: string, sport: string, eventId: string, captures: seq<string>,
                               completeness: Completeness)

  datatype MarketRow = MarketRow(provider: string, sport: string, eventId: string, marketId: string, order: int,
                                 capture: string)

  datatype PriceState = Priced | Unpriced

  datatype SelectionRow = SelectionRow(provider: string, sport: string, eventId: string, marketId: string,
                                       selectionId: string, order: int,
                                       capture: string, price: PriceState, odds: Option<real>)

  datatype Inventory = Inventory(events: seq<EventRow>, markets: seq<MarketRow>, selections: seq<SelectionRow>)

  /** The counts that the snapshot's metadata declares. */
  datatype Counts = Counts(events: int, markets: int, selections: int, priced: int, unpriced: int)

  type MarketKey = (string, string)
  type SelectionKey = (string, string, string)

  function EventOfRow(e: EventRow): string { e.eventId }
  function EventOfMarket(m: MarketRow): string { m.eventId }
  function EventOfSelection(s: SelectionRow): string { s.eventId }
  function KeyOfMarket(m: MarketRow): MarketKey { (m.eventId, m.marketId) }
  function KeyOfSelection(s: SelectionRow): SelectionKey { (s.eventId, s.marketId, s.selectionId) }
  predicate IsPriced(s: SelectionRow) { s.price.Priced? }

  /** The values of a column, in row order. */
  function Column<T, K>(rows: seq<T>, f: T -> K): (r: seq<K>)
    ensures |r| == |rows| && forall i :: 0 <= i < |rows| ==> r[i] == f(rows[i])
  {
    seq(|rows|, i requires 0 <= i < |rows| => f(rows[i]))
  }

  predicate MarketLe(a: MarketRow, b: MarketRow) {
    if a.eventId != b.eventId then Ordering.StrLe(a.eventId, b.eventId)
    else if a.order != b.order then a.order < b.order
    else Ordering.StrLe(a.marketId, b.marketId)
  }

  predicate SelectionLe(a: SelectionRow, b: SelectionRow) {
    if a.eventId != b.eventId then Ordering.StrLe(a.eventId, b.eventId)
    else if a.marketId != b.marketId then Ordering.StrLe(a.marketId, b.marketId)
    else if a.order != b.order then a.order < b.order
    else Ordering.StrLe(a.selectionId, b.selectionId)
  }

  predicate Bounded(n: int) { 0 <= n <= 1_000_000 }

  predicate IsComplete(c: Completeness) {
    c.state.CompleteByProviderReference? || c.state.CompleteByReviewedEventPayload?
  }

  /** _verify_native_completeness_row */
  predicate CompletenessAccepted(c: Completeness, markets: int, selections: int) {
    && Bounded(c.groupsObserved) && Bounded(c.marketsObserved) && Bounded(c.marketsParsed) && Bounded(c.marketsRejected)
    && Bounded(c.selectionsObserved) && Bounded(c.selectionsParsed) && Bounded(c.selectionsRejected)
    && Bounded(c.marketsWithValidPrice)
    && Bounded(c.responses) && Bounded(c.truncated) && Bounded(c.boundedRejections) && Bounded(c.missingChunks)
    && Bounded(c.limitTruncated)
    && (c.declared.Some? ==> Bounded(c.declared.value))
    && c.marketsParsed == markets && c.selectionsParsed == selections
    && c.marketsParsed + c.marketsRejected <= c.marketsObserved
    && c.selectionsParsed + c.selectionsRejected <= c.selectionsObserved
    && c.marketsWithValidPrice <= c.marketsParsed && (c.ready ==> c.visited)
    && (IsComplete(c) ==>
          && c.visited && c.ready && c.truncated == 0 && c.boundedRejections == 0 && c.missingChunks == 0
          && c.limitTruncated == 0
          && c.marketsRejected == 0 && c.selectionsRejected == 0
          && c.marketsParsed == c.marketsObserved && c.selectionsParsed == c.selectionsObserved)
    && (c.state.CompleteByProviderReference? ==>
          c.declared == Some(c.marketsObserved) && c.declared == Some(c.marketsParsed))
    && (c.state.CompleteByReviewedEventPayload? ==> c.permitted)
  }

  predicate PriceAccepted(s: SelectionRow) {
    if s.price.Priced? then s.odds.Some? && s.odds.value > 1.0 else s.odds.None?
  }

  /* ---------- The checks of the loader ---------- */

  ghost predicate IdentitiesAccepted(inv: Inventory) {
    && inv.events != [] && inv.markets != [] && inv.selections != []
    && (forall e <- inv.events :: e.eventId != "") && Ordering.NoDuplicates(Column(inv.events, EventOfRow))
    && (forall m <- inv.markets :: m.eventId != "" && m.marketId != "")
    && Ordering.NoDuplicates(Column(inv.markets, KeyOfMarket))
    && (forall m <- inv.markets :: m.eventId in Column(inv.events, EventOfRow))
    && (forall s <- inv.selections :: s.eventId != "" && s.marketId != "" && s.selectionId != "")
    && Ordering.NoDuplicates(Column(inv.selections, KeyOfSelection))
    && (forall s <- inv.selections :: (s.eventId, s.marketId) in Column(inv.markets, KeyOfMarket))
  }

  predicate OwnersAccepted(inv: Inventory, provider: string, sport: string) {
    && (forall e <- inv.events :: e.provider == provider && e.sport == sport)
    && (forall m <- inv.markets :: m.provider == provider && m.sport == sport)
    && (forall s <- inv.selections :: s.provider == provider && s.sport == sport)
  }

  predicate EventAccepted(e: EventRow, inv: Inventory, captures: set<string>) {
    && e.captures != [] && (forall c <- e.captures :: c in captures)
    && CompletenessAccepted(e.completeness, |Members(inv.markets, EventOfMarket, e.eventId)|,
                            |Members(inv.selections, EventOfSelection, e.eventId)|)
  }

  predicate RowsAccepted(inv: Inventory, captures: set<string>) {
    && (forall e <- inv.events :: EventAccepted(e, inv, captures))
    && (forall m <- inv.markets :: m.capture in captures)
    && (forall s <- inv.selections :: s.capture in captures)
    && (forall s <- inv.selections :: PriceAccepted(s))
  }

  predicate OrderAccepted(inv: Inventory) {
    inv.markets == Ordering.SortBy(inv.markets, MarketLe) &&
    inv.selections == Ordering.SortBy(inv.selections, SelectionLe)
  }

  function CountsOf(inv: Inventory): Counts {
    var priced := CountBy(inv.selections, IsPriced);
    Counts(|inv.events|, |inv.markets|, |inv.selections|, priced, |inv.selections| - priced)
  }

  ghost predicate Accepted(inv: Inventory, provider: string, sport: string, captures: set<string>, declared: Counts) {
    && IdentitiesAccepted(inv) && OwnersAccepted(inv, provider, sport) && RowsAccepted(inv, captures)
    && OrderAccepted(inv)
    && declared == CountsOf(inv)
  }

  datatype InventoryError = IdentityError | OwnerError | RowError | OrderError | CountError

  method CheckIdentities(inv: Inventory) returns (ok: bool)
    ensures ok <==> IdentitiesAccepted(inv)
  {
    if inv.events == [] || inv.markets == [] || inv.selections == [] {
      return false;
    }
    var eventIds, marketKeys := Column(inv.events, EventOfRow), Column(inv.markets, KeyOfMarket);
    var selectionKeys := Column(inv.selections, KeyOfSelection);
    Ordering.SetSize(eventIds);
    Ordering.SetSize(marketKeys);
    Ordering.SetSize(selectionKeys);
    var eventSet, marketSet := set id | id in eventIds, set k | k in marketKeys;
    if (exists e <- inv.events :: e.eventId == "") || |eventSet| != |eventIds| {
      return false;
    }
    if (exists m <- inv.markets :: m.eventId == "" || m.marketId == "") || |marketSet| != |marketKeys| {
      return false;
    }
    if exists m <- inv.markets :: m.eventId !in eventSet {
      return false;
    }
    if (exists s <- inv.selections :: s.eventId == "" || s.marketId == "" || s.selectionId == "")
       || |set k | k in selectionKeys| != |selectionKeys| {
      return false;
    }
    ok := !exists s <- inv.selections :: (s.eventId, s.marketId) !in marketSet;
  }

  /** The loop over the event rows, counting their markets and selections. */
  method CheckEvents(inv: Inventory, captures: set<string>) returns (ok: bool)
    ensures ok <==> forall e <- inv.events :: EventAccepted(e, inv, captures)
  {
    for i := 0 to |inv.events|
      invariant forall e <- inv.events[..i] :: EventAccepted(e, inv, captures)
    {
      var e := inv.events[i];
      assert e in inv.events;
      var markets := CountKey(inv.markets, EventOfMarket, e.eventId);
      var selections := CountKey(inv.selections, EventOfSelection, e.eventId);
      if e.captures == [] || (exists c <- e.captures :: c !in captures)
         || !CompletenessAccepted(e.completeness, markets, selections)
      {
        return false;
      }
      assert inv.events[..i + 1] == inv.events[..i] + [e];
    }
    assert inv.events[..|inv.events|] == inv.events;
    ok := true;
  }

  /** sum(1 for row in rows if key matches) */
  method CountKey<T>(rows: seq<T>, f: T -> string, key: string) returns (n: nat)
    ensures n == |Members(rows, f, key)|
  {
    n := 0;
    for i := 0 to |rows|
      invariant n == |Members(rows[..i], f, key)|
    {
      TakeStep(rows, i);
      if f(rows[i]) == key {
        n := n + 1;
      }
    }
    assert rows[..|rows|] == rows;
  }

  /** The loop over the selections: price states, and the number of priced ones. */
  method CheckPrices(selections: seq<SelectionRow>) returns (ok: bool, priced: nat)
    ensures ok <==> forall s <- selections :: PriceAccepted(s)
    ensures ok ==> priced == CountBy(selections, IsPriced)
  {
    priced := 0;
    for i := 0 to |selections|
      invariant forall s <- selections[..i] :: PriceAccepted(s)
      invariant priced == CountBy(selections[..i], IsPriced)
    {
      TakeStep(selections, i);
      var s := selections[i];
      assert s in selections && selections[..i + 1] == selections[..i] + [s];
      match s.price {
        case Priced =>
          if s.odds.None? || s.odds.value <= 1.0 {
            return false, priced;
          }
          priced := priced + 1;
        case Unpriced =>
          if s.odds.Some? {
            return false, priced;
          }
      }
    }
    assert selections[..|selections|] == selections;
    ok := true;
  }

  /** _verify_native_inventory; the kinds of error are told apart, not their messages */
  method VerifyNativeInventory(inv: Inventory, provider: string, sport: string, captures: set<string>, declared: Counts)
    returns (r: Result<Counts, InventoryError>)
    ensures r.Ok? <==> Accepted(inv, provider, sport, captures, declared)
    ensures r.Ok? ==> r.value == CountsOf(inv)
  {
    hide IdentitiesAccepted, EventAccepted, PriceAccepted, Ordering.SortBy, CountBy;
    var identities := CheckIdentities(inv);
    if !identities {
      return Err(IdentityError);
    }
    if !OwnersAccepted(inv, provider, sport) {
      return Err(OwnerError);
    }
    var events := CheckEvents(inv, captures);
    if !events || (exists m <- inv.markets :: m.capture !in captures)
       || (exists s <- inv.selections :: s.capture !in captures)
    {
      return Err(RowError);
    }
    var prices, priced := CheckPrices(inv.selections);
    if !prices {
      return Err(RowError);
    }
    if inv.markets != Ordering.SortBy(inv.markets, MarketLe)
       || inv.selections != Ordering.SortBy(inv.selections, SelectionLe)
    {
      return Err(OrderError);
    }
    var actual := Counts(|inv.events|, |inv.markets|, |inv.selections|, priced, |inv.selections| - priced);
    if declared != actual {
      return Err(CountError);
    }
    r := Ok(actual);
  }

  /* ---------- An accepted inventory is a forest ---------- */

  predicate MarketOwns(m: MarketRow, s: SelectionRow) { m.eventId == s.eventId && m.marketId == s.marketId }
  predicate EventOwns(e: EventRow, m: MarketRow) { e.eventId == m.eventId }

  lemma ColumnFinds<T, K>(rows: seq<T>, f: T -> K, k: K) returns (row: T)
    requires k in Column(rows, f)
    ensures row in rows && f(row) == k
  {
    var i :| 0 <= i < |rows| && Column(rows, f)[i] == k;
    row := rows[i];
  }

  lemma ColumnUnique<T, K>(rows: seq<T>, f: T -> K, a: T, b: T)
    requires Ordering.NoDuplicates(Column(rows, f)) && a in rows && b in rows && f(a) == f(b)
    ensures a == b
  {
    var i :| 0 <= i < |rows| && rows[i] == a;
    var j :| 0 <= j < |rows| && rows[j] == b;
    var keys := Column(rows, f);
    assert keys[i] == keys[j];
  }

  /** Every selection belongs to exactly one market, and through it to exactly one event. */
  lemma EverySelectionHasOnePath(inv: Inventory, s: SelectionRow) returns (m: MarketRow, e: EventRow)
    requires IdentitiesAccepted(inv) && s in inv.selections
    ensures m in inv.markets && MarketOwns(m, s) && e in inv.events && EventOwns(e, m)
    ensures forall n <- inv.markets :: MarketOwns(n, s) ==> n == m
    ensures forall d <- inv.events :: EventOwns(d, m) || d.eventId == s.eventId ==> d == e
  {
    m := ColumnFinds(inv.markets, KeyOfMarket, (s.eventId, s.marketId));
    e := ColumnFinds(inv.events, EventOfRow, m.eventId);
    forall n <- inv.markets ensures MarketOwns(n, s) ==> n == m {
      if MarketOwns(n, s) {
        ColumnUnique(inv.markets, KeyOfMarket, n, m);
      }
    }
    forall d <- inv.events ensures d.eventId == s.eventId ==> d == e {
      if d.eventId == s.eventId {
        ColumnUnique(inv.events, EventOfRow, d, e);
      }
    }
  }

  function ParsedMarkets(events: seq<EventRow>): int {
    if events == [] then 0 else events[0].completeness.marketsParsed + ParsedMarkets(events[1..])
  }

  function ParsedSelections(events: seq<EventRow>): int {
    if events == [] then 0 else events[0].completeness.selectionsParsed + ParsedSelections(events[1..])
  }

  lemma {:induction false} ParsedAsGroups(events: seq<EventRow>, inv: Inventory, captures: set<string>)
    requires forall e <- events :: EventAccepted(e, inv, captures)
    ensures ParsedMarkets(events) == SizeOver(inv.markets, EventOfMarket, Column(events, EventOfRow))
    ensures ParsedSelections(events) == SizeOver(inv.selections, EventOfSelection, Column(events, EventOfRow))
  {
    hide Members;
    if events != [] {
      ParsedAsGroups(events[1..], inv, captures);
      assert Column(events, EventOfRow)[1..] == Column(events[1..], EventOfRow);
      assert events[0] in events;
    }
  }

  function NoValue<T>(x: T): real { 0.0 }

  /** The parsed counts of the events add up to the market and selection counts of the inventory. */
  lemma ParsedCountsAddUp(inv: Inventory, provider: string, sport: string, captures: set<string>, declared: Counts)
    requires Accepted(inv, provider, sport, captures, declared)
    ensures ParsedMarkets(inv.events) == declared.markets && ParsedSelections(inv.events) == declared.selections
    ensures declared.priced + declared.unpriced == declared.selections
  {
    hide EventAccepted, Members, SizeOver, Ordering.SortBy, CountBy;
    var ids := Column(inv.events, EventOfRow);
    ParsedAsGroups(inv.events, inv, captures);
    GroupsAddUp(inv.markets, EventOfMarket, NoValue, ids);
    forall s <- inv.selections ensures s.eventId in ids {
      var m := ColumnFinds(inv.markets, KeyOfMarket, (s.eventId, s.marketId));
    }
    GroupsAddUp(inv.selections, EventOfSelection, NoValue, ids);
  }

  /* ---------- The orders ---------- */

  lemma MarketLeIsTotalPreorder()
    ensures Ordering.TotalPreorder(MarketLe)
  {
    forall x: MarketRow, y: MarketRow ensures MarketLe(x, y) || MarketLe(y, x) {
      Ordering.StrLeTotal(x.eventId, y.eventId);
      Ordering.StrLeTotal(x.marketId, y.marketId);
    }
    forall x: MarketRow, y: MarketRow, z: MarketRow | MarketLe(x, y) && MarketLe(y, z) ensures MarketLe(x, z) {
      Ordering.StrLeChain(x.eventId, y.eventId, z.eventId);
      Ordering.StrLeChain(x.marketId, y.marketId, z.marketId);
    }
  }

  lemma SelectionLeIsTotalPreorder()
    ensures Ordering.TotalPreorder(SelectionLe)
  {
    forall x: SelectionRow, y: SelectionRow ensures SelectionLe(x, y) || SelectionLe(y, x) {
      Ordering.StrLeTotal(x.eventId, y.eventId);
      Ordering.StrLeTotal(x.marketId, y.marketId);
      Ordering.StrLeTotal(x.selectionId, y.selectionId);
    }
    forall x: SelectionRow, y: SelectionRow, z: SelectionRow | SelectionLe(x, y) && SelectionLe(y, z)
      ensures SelectionLe(x, z)
    {
      Ordering.StrLeChain(x.eventId, y.eventId, z.eventId);
      Ordering.StrLeChain(x.marketId, y.marketId, z.marketId);
      Ordering.StrLeChain(x.selectionId, y.selectionId, z.selectionId);
    }
  }
}
