/** Flattening a bundle into inventory rows, and why the loader accepts them (bookmakers/native_inventory.py). */
module NativeInventoryWriter {
  import opened Wrappers
  import Ordering
  import opened Aggregates
  import opened Partitions
  import opened NativeInventory

  datatype Selection = Selection(id: string, order: Option<int>, capture: string, price: PriceState, odds: Option<real>)

  datatype Market = Market(id: string, order: Option<int>, capture: string, selections: seq<Selection>)

  datatype Event = Event(start: int, id: string, captures: seq<string>, completeness: Completeness,
                         markets: seq<Market>)

  datatype Bundle = Bundle(provider: string, sport: string, events: seq<Event>)

  predicate EventLe(a: Event, b: Event) {
    if a.start != b.start then a.start < b.start else Ordering.StrLe(a.id, b.id)
  }

  function OrderOr(order: Option<int>, index: int): int {
    if order.Some? then order.value else index
  }

  function EventRowOf(b: Bundle, e: Event): EventRow {
    EventRow(b.provider, b.sport, e.id, e.captures, e.completeness)
  }

  function MarketRowOf(b: Bundle, e: Event, index: int, m: Market): MarketRow {
    MarketRow(b.provider, b.sport, e.id, m.id, OrderOr(m.order, index), m.capture)
  }

  function SelectionRowOf(b: Bundle, e: Event, m: Market, index: int, s: Selection): SelectionRow {
    SelectionRow(b.provider, b.sport, e.id, m.id, s.id, OrderOr(s.order, index), s.capture, s.price, s.odds)
  }

  function EventRows(b: Bundle, events: seq<Event>): (r: seq<EventRow>)
    ensures |r| == |events| && forall i :: 0 <= i < |r| ==> r[i] == EventRowOf(b, events[i])
  {
    seq(|events|, i requires 0 <= i < |events| => EventRowOf(b, events[i]))
  }

  /** The rows of an event's first n markets. */
  function MarketRowsIn(b: Bundle, e: Event, n: nat): (r: seq<MarketRow>)
    requires n <= |e.markets|
    ensures |r| == n && forall i :: 0 <= i < n ==> r[i] == MarketRowOf(b, e, i, e.markets[i])
  {
    seq(n, i requires 0 <= i < n => MarketRowOf(b, e, i, e.markets[i]))
  }

  function MarketRows(b: Bundle, events: seq<Event>): seq<MarketRow> {
    if events == [] then []
    else
      var last := events[|events| - 1];
      MarketRows(b, events[..|events| - 1]) + MarketRowsIn(b, last, |last.markets|)
  }

  /** The rows of a market's first n selections. */
  function SelectionRowsIn(b: Bundle, e: Event, m: Market, n: nat): (r: seq<SelectionRow>)
    requires n <= |m.selections|
    ensures |r| == n && forall i :: 0 <= i < n ==> r[i] == SelectionRowOf(b, e, m, i, m.selections[i])
  {
    seq(n, i requires 0 <= i < n => SelectionRowOf(b, e, m, i, m.selections[i]))
  }

  function SelectionRowsOf(b: Bundle, e: Event, n: nat): seq<SelectionRow>
    requires n <= |e.markets|
  {
    if n == 0 then []
    else SelectionRowsOf(b, e, n - 1) + SelectionRowsIn(b, e, e.markets[n - 1], |e.markets[n - 1].selections|)
  }

  function SelectionRows(b: Bundle, events: seq<Event>): seq<SelectionRow> {
    if events == [] then []
    else
      var last := events[|events| - 1];
      SelectionRows(b, events[..|events| - 1]) + SelectionRowsOf(b, last, |last.markets|)
  }

  /** Everything the writer emits. */
  function Emitted(b: Bundle): Inventory {
    var ordered := Ordering.SortBy(b.events, EventLe);
    Inventory(EventRows(b, ordered), Ordering.SortBy(MarketRows(b, ordered), MarketLe),
              Ordering.SortBy(SelectionRows(b, ordered), SelectionLe))
  }

  method AppendSelections(b: Bundle, e: Event, m: Market, selections: seq<SelectionRow>) returns (r: seq<SelectionRow>)
    ensures r == selections + SelectionRowsIn(b, e, m, |m.selections|)
  {
    r := selections;
    for k := 0 to |m.selections|
      invariant r == selections + SelectionRowsIn(b, e, m, k)
    {
      r := r + [SelectionRowOf(b, e, m, k, m.selections[k])];
    }
  }

  lemma NoMarkets(b: Bundle, e: Event)
    ensures MarketRowsIn(b, e, 0) == [] && SelectionRowsOf(b, e, 0) == []
  {
  }

  lemma MarketStep(b: Bundle, e: Event, j: nat)
    requires j < |e.markets|
    ensures MarketRowsIn(b, e, j + 1) == MarketRowsIn(b, e, j) + [MarketRowOf(b, e, j, e.markets[j])]
    ensures SelectionRowsOf(b, e, j + 1) ==
            SelectionRowsOf(b, e, j) + SelectionRowsIn(b, e, e.markets[j], |e.markets[j].selections|)
  {
  }

  method AppendEvent(b: Bundle, e: Event, markets0: seq<MarketRow>, selections0: seq<SelectionRow>)
    returns (markets: seq<MarketRow>, selections: seq<SelectionRow>)
    ensures markets == markets0 + MarketRowsIn(b, e, |e.markets|)
    ensures selections == selections0 + SelectionRowsOf(b, e, |e.markets|)
  {
    hide MarketRowsIn, SelectionRowsOf;
    markets, selections := markets0, selections0;
    NoMarkets(b, e);
    for j := 0 to |e.markets|
      invariant markets == markets0 + MarketRowsIn(b, e, j) && selections == selections0 + SelectionRowsOf(b, e, j)
    {
      MarketStep(b, e, j);
      markets := markets + [MarketRowOf(b, e, j, e.markets[j])];
      selections := AppendSelections(b, e, e.markets[j], selections);
    }
  }

  /** provider_native_rows: nested loops appending rows, and two sorts */
  method ProviderNativeRows(b: Bundle) returns (inv: Inventory)
    ensures inv == Emitted(b)
  {
    hide Ordering.SortBy, MarketRowsIn, SelectionRowsOf;
    var events: seq<EventRow>, markets: seq<MarketRow>, selections: seq<SelectionRow> := [], [], [];
    var ordered := Ordering.SortBy(b.events, EventLe);
    for i := 0 to |ordered|
      invariant events == EventRows(b, ordered)[..i] && markets == MarketRows(b, ordered[..i])
      invariant selections == SelectionRows(b, ordered[..i])
    {
      TakeStep(ordered, i);
      events := events + [EventRowOf(b, ordered[i])];
      markets, selections := AppendEvent(b, ordered[i], markets, selections);
    }
    assert ordered[..|ordered|] == ordered;
    inv := Inventory(events, Ordering.SortBy(markets, MarketLe), Ordering.SortBy(selections, SelectionLe));
  }

  /* ---------- Identities ---------- */

  function EventIdOf(e: Event): string { e.id }
  function MarketIdOf(m: Market): string { m.id }
  function SelectionIdOf(s: Selection): string { s.id }

  /** Event identifiers are unique, market identifiers within their event, selection identifiers within their market. */
  ghost predicate UniqueIds(events: seq<Event>) {
    && Ordering.NoDuplicates(Column(events, EventIdOf))
    && forall e <- events :: UniqueMarkets(e)
  }

  ghost predicate UniqueMarkets(e: Event) {
    Ordering.NoDuplicates(Column(e.markets, MarketIdOf)) &&
    forall m <- e.markets :: Ordering.NoDuplicates(Column(m.selections, SelectionIdOf))
  }

  lemma AppendDistinct<T>(a: seq<T>, b: seq<T>)
    requires Ordering.NoDuplicates(a) && Ordering.NoDuplicates(b) && forall x <- a :: x !in b
    ensures Ordering.NoDuplicates(a + b)
  {
    forall i, j | 0 <= i < j < |a + b| ensures (a + b)[i] != (a + b)[j] {
      assert i < |a| <= j ==> a[i] in a && (a + b)[j] in b;
    }
  }

  lemma ColumnAppend<T, K>(a: seq<T>, b: seq<T>, f: T -> K)
    ensures Column(a + b, f) == Column(a, f) + Column(b, f)
  {
  }

  lemma PrefixDistinct<T, K>(rows: seq<T>, n: nat, f: T -> K)
    requires n <= |rows| && Ordering.NoDuplicates(Column(rows, f))
    ensures Ordering.NoDuplicates(Column(rows[..n], f))
    ensures n < |rows| ==> f(rows[n]) !in Column(rows[..n], f)
  {
    var all, some := Column(rows, f), Column(rows[..n], f);
    assert some == all[..n];
    if n < |rows| {
      forall i | 0 <= i < n ensures some[i] != f(rows[n]) {
        assert all[i] != all[n];
      }
    }
  }

  lemma MarketRowsInDistinct(b: Bundle, e: Event)
    requires UniqueMarkets(e)
    ensures Ordering.NoDuplicates(Column(MarketRowsIn(b, e, |e.markets|), KeyOfMarket))
    ensures forall r <- MarketRowsIn(b, e, |e.markets|) :: r.eventId == e.id
  {
    var ids, keys := Column(e.markets, MarketIdOf), Column(MarketRowsIn(b, e, |e.markets|), KeyOfMarket);
    forall i, j | 0 <= i < j < |keys| ensures keys[i] != keys[j] {
      assert ids[i] != ids[j];
    }
  }

  lemma SelectionRowsInDistinct(b: Bundle, e: Event, m: Market)
    requires Ordering.NoDuplicates(Column(m.selections, SelectionIdOf))
    ensures Ordering.NoDuplicates(Column(SelectionRowsIn(b, e, m, |m.selections|), KeyOfSelection))
    ensures forall r <- SelectionRowsIn(b, e, m, |m.selections|) :: r.eventId == e.id && r.marketId == m.id
  {
    var ids, keys := Column(m.selections, SelectionIdOf), Column(SelectionRowsIn(b, e, m, |m.selections|),
                                                                 KeyOfSelection);
    forall i, j | 0 <= i < j < |keys| ensures keys[i] != keys[j] {
      assert ids[i] != ids[j];
    }
  }

  /** Two lists of rows with different parents have no key in common. */
  lemma DisjointKeys<T, K, P>(a: seq<T>, b: seq<T>, f: T -> K, parent: T -> P)
    requires Ordering.NoDuplicates(Column(a, f)) && Ordering.NoDuplicates(Column(b, f))
    requires forall x <- a, y <- b :: f(x) == f(y) ==> parent(x) == parent(y)
    requires forall x <- a, y <- b :: parent(x) != parent(y)
    ensures Ordering.NoDuplicates(Column(a + b, f))
  {
    ColumnAppend(a, b, f);
    var left, right := Column(a, f), Column(b, f);
    forall i, j | 0 <= i < |a| && 0 <= j < |b| ensures left[i] != right[j] {
      assert a[i] in a && b[j] in b;
    }
    AppendDistinct(left, right);
  }

  lemma {:induction false} MarketRowsDistinct(b: Bundle, events: seq<Event>)
    requires UniqueIds(events)
    ensures Ordering.NoDuplicates(Column(MarketRows(b, events), KeyOfMarket))
    ensures forall r <- MarketRows(b, events) :: r.eventId in Column(events, EventIdOf)
  {
    hide MarketRowsIn, Ordering.NoDuplicates, UniqueMarkets;
    if events == [] {
      NoRows<MarketRow, MarketKey>(KeyOfMarket);
    } else {
      var front, last := events[..|events| - 1], events[|events| - 1];
      PrefixDistinct(events, |front|, EventIdOf);
      assert last in events;
      assert events == front + [last];
      ColumnAppend(front, [last], EventIdOf);
      MarketRowsDistinct(b, front);
      MarketRowsInDistinct(b, last);
      DisjointKeys(MarketRows(b, front), MarketRowsIn(b, last, |last.markets|), KeyOfMarket, EventOfMarket);
    }
  }

  lemma NoRows<T, K>(f: T -> K)
    ensures Ordering.NoDuplicates(Column([], f))
  {
  }

  lemma UniqueParts(e: Event, m: Market)
    requires UniqueMarkets(e) && m in e.markets
    ensures Ordering.NoDuplicates(Column(e.markets, MarketIdOf))
    ensures Ordering.NoDuplicates(Column(m.selections, SelectionIdOf))
  {
  }

  function MarketOfSelection(s: SelectionRow): string { s.marketId }

  lemma {:induction false} SelectionRowsOfDistinct(b: Bundle, e: Event, n: nat)
    requires n <= |e.markets| && UniqueMarkets(e)
    ensures Ordering.NoDuplicates(Column(SelectionRowsOf(b, e, n), KeyOfSelection))
    ensures forall r <- SelectionRowsOf(b, e, n) ::
              r.eventId == e.id && r.marketId in Column(e.markets[..n], MarketIdOf)
  {
    hide SelectionRowsIn, Ordering.NoDuplicates, UniqueMarkets, Column;
    if n == 0 {
      NoRows<SelectionRow, SelectionKey>(KeyOfSelection);
    } else {
      var m := e.markets[n - 1];
      UniqueParts(e, m);
      SelectionRowsOfDistinct(b, e, n - 1);
      SelectionRowsInDistinct(b, e, m);
      NextMarketId(e, n);
      DisjointKeys(SelectionRowsOf(b, e, n - 1), SelectionRowsIn(b, e, m, |m.selections|), KeyOfSelection,
                   MarketOfSelection);
    }
  }

  lemma NextMarketId(e: Event, n: nat)
    requires 0 < n <= |e.markets| && Ordering.NoDuplicates(Column(e.markets, MarketIdOf))
    ensures e.markets[n - 1].id !in Column(e.markets[..n - 1], MarketIdOf)
    ensures Column(e.markets[..n], MarketIdOf) == Column(e.markets[..n - 1], MarketIdOf) + [e.markets[n - 1].id]
  {
    PrefixDistinct(e.markets, n - 1, MarketIdOf);
  }

  lemma {:induction false} SelectionRowsDistinct(b: Bundle, events: seq<Event>)
    requires UniqueIds(events)
    ensures Ordering.NoDuplicates(Column(SelectionRows(b, events), KeyOfSelection))
    ensures forall r <- SelectionRows(b, events) :: r.eventId in Column(events, EventIdOf)
  {
    hide SelectionRowsOf, Ordering.NoDuplicates, UniqueMarkets;
    if events == [] {
      NoRows<SelectionRow, SelectionKey>(KeyOfSelection);
    } else {
      var front, last := events[..|events| - 1], events[|events| - 1];
      PrefixDistinct(events, |front|, EventIdOf);
      assert last in events;
      assert events == front + [last];
      ColumnAppend(front, [last], EventIdOf);
      SelectionRowsDistinct(b, front);
      SelectionRowsOfDistinct(b, last, |last.markets|);
      DisjointKeys(SelectionRows(b, front), SelectionRowsOf(b, last, |last.markets|), KeyOfSelection, EventOfSelection);
    }
  }

  /* ---------- Where a row comes from ---------- */

  lemma {:induction false} MarketOrigin(b: Bundle, events: seq<Event>, r: MarketRow) returns (e: Event, i: nat)
    requires r in MarketRows(b, events)
    ensures e in events && i < |e.markets| && r == MarketRowOf(b, e, i, e.markets[i])
  {
    var front, last := events[..|events| - 1], events[|events| - 1];
    if r in MarketRows(b, front) {
      e, i := MarketOrigin(b, front, r);
      assert events == front + [last];
    } else {
      e := last;
      assert r in MarketRowsIn(b, last, |last.markets|);
      i :| 0 <= i < |last.markets| && MarketRowsIn(b, last, |last.markets|)[i] == r;
    }
  }

  lemma {:induction false} MarketIsEmitted(b: Bundle, events: seq<Event>, e: Event, i: nat)
    requires e in events && i < |e.markets|
    ensures MarketRowOf(b, e, i, e.markets[i]) in MarketRows(b, events)
  {
    var front, last := events[..|events| - 1], events[|events| - 1];
    if e == last {
      assert MarketRowsIn(b, e, |e.markets|)[i] in MarketRowsIn(b, e, |e.markets|);
    } else {
      assert events == front + [last];
      MarketIsEmitted(b, front, e, i);
    }
  }

  lemma {:induction false} SelectionOriginIn(b: Bundle, e: Event, n: nat, r: SelectionRow) returns (j: nat, k: nat)
    requires n <= |e.markets| && r in SelectionRowsOf(b, e, n)
    ensures j < n && k < |e.markets[j].selections|
    ensures r == SelectionRowOf(b, e, e.markets[j], k, e.markets[j].selections[k])
  {
    if r in SelectionRowsOf(b, e, n - 1) {
      j, k := SelectionOriginIn(b, e, n - 1, r);
    } else {
      j := n - 1;
      var rows := SelectionRowsIn(b, e, e.markets[j], |e.markets[j].selections|);
      assert r in rows;
      k :| 0 <= k < |rows| && rows[k] == r;
    }
  }

  lemma {:induction false} SelectionOrigin(b: Bundle, events: seq<Event>, r: SelectionRow)
    returns (e: Event, j: nat, k: nat)
    requires r in SelectionRows(b, events)
    ensures e in events && j < |e.markets| && k < |e.markets[j].selections|
    ensures r == SelectionRowOf(b, e, e.markets[j], k, e.markets[j].selections[k])
  {
    var front, last := events[..|events| - 1], events[|events| - 1];
    if r in SelectionRows(b, front) {
      e, j, k := SelectionOrigin(b, front, r);
      assert events == front + [last];
    } else {
      e := last;
      j, k := SelectionOriginIn(b, last, |last.markets|, r);
    }
  }

  /* ---------- How many rows an event has ---------- */

  function SelectionCount(markets: seq<Market>): nat {
    if markets == [] then 0 else SelectionCount(markets[..|markets| - 1]) + |markets[|markets| - 1].selections|
  }

  lemma {:induction false} SelectionRowsOfLength(b: Bundle, e: Event, n: nat)
    requires n <= |e.markets|
    ensures |SelectionRowsOf(b, e, n)| == SelectionCount(e.markets[..n])
  {
    if n > 0 {
      SelectionRowsOfLength(b, e, n - 1);
      TakeStep(e.markets, n - 1);
    }
  }

  /** An event's rows are counted once, whatever the other events hold. */
  lemma {:induction false} EventRowCounts(b: Bundle, events: seq<Event>, e: Event)
    requires UniqueIds(events) && e in events
    ensures |Members(MarketRows(b, events), EventOfMarket, e.id)| == |e.markets|
    ensures |Members(SelectionRows(b, events), EventOfSelection, e.id)| == SelectionCount(e.markets)
  {
    hide Members, Ordering.NoDuplicates, UniqueMarkets, MarketRowsIn, SelectionRowsOf, SelectionCount;
    var front, last := events[..|events| - 1], events[|events| - 1];
    PrefixDistinct(events, |front|, EventIdOf);
    assert last in events;
    assert events == front + [last];
    MarketRowsDistinct(b, front);
    SelectionRowsDistinct(b, front);
    MarketRowsInDistinct(b, last);
    SelectionRowsOfDistinct(b, last, |last.markets|);
    MembersAppend(MarketRows(b, front), MarketRowsIn(b, last, |last.markets|), EventOfMarket, e.id);
    MembersAppend(SelectionRows(b, front), SelectionRowsOf(b, last, |last.markets|), EventOfSelection, e.id);
    if e == last {
      NoMembers(MarketRows(b, front), EventOfMarket, e.id);
      NoMembers(SelectionRows(b, front), EventOfSelection, e.id);
      AllMembers(MarketRowsIn(b, last, |last.markets|), EventOfMarket, e.id);
      AllMembers(SelectionRowsOf(b, last, |last.markets|), EventOfSelection, e.id);
      SelectionRowsOfLength(b, e, |e.markets|);
      assert e.markets[..|e.markets|] == e.markets;
    } else {
      EventRowCounts(b, front, e);
      var i :| 0 <= i < |front| && front[i] == e;
      assert Column(front, EventIdOf)[i] == e.id;
      NoMembers(MarketRowsIn(b, last, |last.markets|), EventOfMarket, e.id);
      NoMembers(SelectionRowsOf(b, last, |last.markets|), EventOfSelection, e.id);
    }
  }

  /* ---------- The loader accepts what the writer emits ---------- */

  /** Whatever bundle is written, its rows are in the order that the loader demands. */
  lemma EmittedOrderIsAccepted(b: Bundle)
    ensures OrderAccepted(Emitted(b))
  {
    hide MarketRows, SelectionRows, EventRows, MarketLe, SelectionLe;
    var ordered := Ordering.SortBy(b.events, EventLe);
    MarketLeIsTotalPreorder();
    SelectionLeIsTotalPreorder();
    Ordering.SortBySorted(MarketRows(b, ordered), MarketLe);
    Ordering.SortBySorted(SelectionRows(b, ordered), SelectionLe);
    Ordering.SortBySortedIdentity(Emitted(b).markets, MarketLe);
    Ordering.SortBySortedIdentity(Emitted(b).selections, SelectionLe);
  }

  /** What the typed bundle guarantees besides unique identifiers. */
  predicate SoundEvent(e: Event, captures: set<string>) {
    && e.id != "" && e.captures != [] && (forall c <- e.captures :: c in captures)
    && CompletenessAccepted(e.completeness, |e.markets|, SelectionCount(e.markets))
    && forall m <- e.markets :: SoundMarket(m, captures)
  }

  predicate SoundMarket(m: Market, captures: set<string>) {
    m.id != "" && m.capture in captures && forall s <- m.selections :: SoundSelection(s, captures)
  }

  predicate SoundSelection(s: Selection, captures: set<string>) {
    s.id != "" && s.capture in captures && if s.price.Priced? then s.odds.Some? && s.odds.value > 1.0 else s.odds.None?
  }

  ghost predicate Sound(b: Bundle, captures: set<string>) {
    UniqueIds(b.events) && forall e <- b.events :: SoundEvent(e, captures)
  }

  lemma ColumnPermutation<T, K>(a: seq<T>, b: seq<T>, f: T -> K)
    requires multiset(a) == multiset(b)
    ensures Ordering.NoDuplicates(Column(a, f)) <==> Ordering.NoDuplicates(Column(b, f))
    ensures forall k :: k in Column(a, f) <==> k in Column(b, f)
  {
    Ordering.SameElements(a, b);
    var p, q := Column(a, f), Column(b, f);
    forall k <- p ensures k in q {
      var x := ColumnFinds(a, f, k);
      InColumn(b, f, x);
    }
    forall k <- q ensures k in p {
      var x := ColumnFinds(b, f, k);
      InColumn(a, f, x);
    }
    Ordering.SetSize(p);
    Ordering.SetSize(q);
    assert (set k | k in p) == (set k | k in q);
    assert |multiset(a)| == |a| && |multiset(b)| == |b|;
  }

  lemma InColumn<T, K>(rows: seq<T>, f: T -> K, x: T)
    requires x in rows
    ensures f(x) in Column(rows, f)
  {
    var i :| 0 <= i < |rows| && rows[i] == x;
    assert Column(rows, f)[i] == f(x);
  }

  lemma SortedEventsUnique(events: seq<Event>)
    requires UniqueIds(events)
    ensures UniqueIds(Ordering.SortBy(events, EventLe))
    ensures forall e :: e in events <==> e in Ordering.SortBy(events, EventLe)
  {
    hide EventLe, UniqueMarkets;
    var ordered := Ordering.SortBy(events, EventLe);
    ColumnPermutation(events, ordered, EventIdOf);
    Ordering.SameElements(ordered, events);
  }

  lemma SoundMarketRow(b: Bundle, events: seq<Event>, captures: set<string>, r: MarketRow)
    requires (forall e <- events :: SoundEvent(e, captures)) && r in MarketRows(b, events)
    ensures r.eventId != "" && r.marketId != "" && r.capture in captures && r.provider == b.provider
    ensures r.sport == b.sport
    ensures r.eventId in Column(EventRows(b, events), EventOfRow)
  {
    var e, i := MarketOrigin(b, events, r);
    assert SoundMarket(e.markets[i], captures);
    var n :| 0 <= n < |events| && events[n] == e;
    assert Column(EventRows(b, events), EventOfRow)[n] == e.id;
  }

  lemma SoundSelectionRow(b: Bundle, events: seq<Event>, captures: set<string>, r: SelectionRow)
    requires (forall e <- events :: SoundEvent(e, captures)) && r in SelectionRows(b, events)
    ensures r.eventId != "" && r.marketId != "" && r.selectionId != "" && r.capture in captures
    ensures r.provider == b.provider && r.sport == b.sport && PriceAccepted(r)
    ensures (r.eventId, r.marketId) in Column(MarketRows(b, events), KeyOfMarket)
  {
    var e, j, k := SelectionOrigin(b, events, r);
    var m := e.markets[j];
    assert SoundMarket(m, captures);
    assert SoundSelection(m.selections[k], captures);
    MarketIsEmitted(b, events, e, j);
    InColumn(MarketRows(b, events), KeyOfMarket, MarketRowOf(b, e, j, m));
  }

  lemma EventRowsColumn(b: Bundle, events: seq<Event>)
    ensures Column(EventRows(b, events), EventOfRow) == Column(events, EventIdOf)
  {
  }

  /** The parts of the emitted inventory, before and after its sorts. */
  lemma EmittedParts(b: Bundle)
    ensures var ordered := Ordering.SortBy(b.events, EventLe); var inv := Emitted(b);
            && inv.events == EventRows(b, ordered)
            && multiset(inv.markets) == multiset(MarketRows(b, ordered))
            && multiset(inv.selections) == multiset(SelectionRows(b, ordered))
            && (forall r :: r in inv.markets <==> r in MarketRows(b, ordered))
            && (forall r :: r in inv.selections <==> r in SelectionRows(b, ordered))
  {
    hide MarketRows, SelectionRows, EventRows, MarketLe, SelectionLe, EventLe;
    var ordered := Ordering.SortBy(b.events, EventLe);
    Ordering.SameElements(Emitted(b).markets, MarketRows(b, ordered));
    Ordering.SameElements(Emitted(b).selections, SelectionRows(b, ordered));
  }

  lemma EmittedIdentities(b: Bundle, captures: set<string>)
    requires Sound(b, captures) && Emitted(b).events != [] && Emitted(b).markets != [] && Emitted(b).selections != []
    ensures IdentitiesAccepted(Emitted(b)) && OwnersAccepted(Emitted(b), b.provider, b.sport)
  {
    hide Emitted, MarketRows, SelectionRows, EventRows, UniqueIds, SoundEvent, Column, PriceAccepted;
    var ordered, inv := Ordering.SortBy(b.events, EventLe), Emitted(b);
    SortedEventsUnique(b.events);
    EmittedParts(b);
    MarketRowsDistinct(b, ordered);
    SelectionRowsDistinct(b, ordered);
    ColumnPermutation(inv.markets, MarketRows(b, ordered), KeyOfMarket);
    ColumnPermutation(inv.selections, SelectionRows(b, ordered), KeyOfSelection);
    EventRowsColumn(b, ordered);
    UniqueColumn(ordered);
    forall m <- inv.markets
      ensures m.eventId != "" && m.marketId != "" && m.eventId in Column(inv.events, EventOfRow)
      ensures m.provider == b.provider && m.sport == b.sport
    {
      SoundMarketRow(b, ordered, captures, m);
    }
    forall s <- inv.selections
      ensures s.eventId != "" && s.marketId != "" && s.selectionId != ""
      ensures (s.eventId, s.marketId) in Column(inv.markets, KeyOfMarket)
      ensures s.provider == b.provider && s.sport == b.sport
    {
      SoundSelectionRow(b, ordered, captures, s);
    }
    forall r <- inv.events ensures r.eventId != "" && r.provider == b.provider && r.sport == b.sport {
      var e := EventOrigin(b, ordered, r);
      SoundEventId(e, captures);
    }
  }

  lemma UniqueColumn(events: seq<Event>)
    requires UniqueIds(events)
    ensures Ordering.NoDuplicates(Column(events, EventIdOf))
  {
  }

  lemma SoundEventId(e: Event, captures: set<string>)
    requires SoundEvent(e, captures)
    ensures e.id != ""
  {
  }

  lemma EventOrigin(b: Bundle, events: seq<Event>, r: EventRow) returns (e: Event)
    requires r in EventRows(b, events)
    ensures e in events && r == EventRowOf(b, e)
  {
    var i :| 0 <= i < |events| && EventRows(b, events)[i] == r;
    e := events[i];
  }

  lemma EmittedRows(b: Bundle, captures: set<string>)
    requires Sound(b, captures)
    ensures RowsAccepted(Emitted(b), captures)
  {
    hide Emitted, MarketRows, SelectionRows, EventRows, UniqueIds, CompletenessAccepted, PriceAccepted, Members,
         SelectionCount, SoundMarket;
    var ordered, inv := Ordering.SortBy(b.events, EventLe), Emitted(b);
    SortedEventsUnique(b.events);
    EmittedParts(b);
    forall r <- inv.events ensures EventAccepted(r, inv, captures) {
      var e := EventOrigin(b, ordered, r);
      EventRowCounts(b, ordered, e);
      GroupSizePermutation(inv.markets, MarketRows(b, ordered), EventOfMarket, e.id);
      GroupSizePermutation(inv.selections, SelectionRows(b, ordered), EventOfSelection, e.id);
    }
    forall m <- inv.markets ensures m.capture in captures {
      SoundMarketRow(b, ordered, captures, m);
    }
    forall s <- inv.selections ensures s.capture in captures && PriceAccepted(s) {
      SoundSelectionRow(b, ordered, captures, s);
    }
  }

  /** The loader accepts every inventory that the writer emits for a sound bundle with at least one row of each kind. */
  lemma EmittedIsAccepted(b: Bundle, captures: set<string>)
    requires Sound(b, captures) && Emitted(b).events != [] && Emitted(b).markets != [] && Emitted(b).selections != []
    ensures Accepted(Emitted(b), b.provider, b.sport, captures, CountsOf(Emitted(b)))
  {
    hide Emitted, Sound, IdentitiesAccepted, OwnersAccepted, RowsAccepted, OrderAccepted;
    EmittedIdentities(b, captures);
    EmittedRows(b, captures);
    EmittedOrderIsAccepted(b);
  }

  /* ---------- The rows, field by field ---------- */

  /** The market rows are exactly those of the events' markets, with the market's own order or else its position. */
  lemma MarketsOnFields(b: Bundle, r: MarketRow)
    ensures r in Emitted(b).markets <==>
            exists e <- b.events, i :: 0 <= i < |e.markets| &&
              r == MarketRow(b.provider, b.sport, e.id, e.markets[i].id,
                             if e.markets[i].order.Some? then e.markets[i].order.value else i, e.markets[i].capture)
  {
    hide Ordering.SortBy, MarketRows, EventLe, MarketLe;
    var ordered := Ordering.SortBy(b.events, EventLe);
    Ordering.SameElements(ordered, b.events);
    Ordering.SameElements(Emitted(b).markets, MarketRows(b, ordered));
    if r in MarketRows(b, ordered) {
      var e, i := MarketOrigin(b, ordered, r);
      assert e in b.events;
    }
    if e, i :| e in b.events && 0 <= i < |e.markets| && r == MarketRowOf(b, e, i, e.markets[i]) {
      MarketIsEmitted(b, ordered, e, i);
    }
  }

  lemma {:induction false} SelectionIsEmittedIn(b: Bundle, e: Event, n: nat, j: nat, k: nat)
    requires j < n <= |e.markets| && k < |e.markets[j].selections|
    ensures SelectionRowOf(b, e, e.markets[j], k, e.markets[j].selections[k]) in SelectionRowsOf(b, e, n)
  {
    if j == n - 1 {
      var rows := SelectionRowsIn(b, e, e.markets[j], |e.markets[j].selections|);
      assert rows[k] in rows;
    } else {
      SelectionIsEmittedIn(b, e, n - 1, j, k);
    }
  }

  lemma {:induction false} SelectionIsEmitted(b: Bundle, events: seq<Event>, e: Event, j: nat, k: nat)
    requires e in events && j < |e.markets| && k < |e.markets[j].selections|
    ensures SelectionRowOf(b, e, e.markets[j], k, e.markets[j].selections[k]) in SelectionRows(b, events)
  {
    hide SelectionRowsOf;
    var front, last := events[..|events| - 1], events[|events| - 1];
    if e == last {
      SelectionIsEmittedIn(b, e, |e.markets|, j, k);
    } else {
      assert events == front + [last];
      SelectionIsEmitted(b, front, e, j, k);
    }
  }

  /** So are the selection rows. */
  lemma SelectionsOnFields(b: Bundle, r: SelectionRow)
    ensures r in Emitted(b).selections <==>
            exists e <- b.events, j, k :: 0 <= j < |e.markets| && 0 <= k < |e.markets[j].selections| &&
              var s := e.markets[j].selections[k];
              r == SelectionRow(b.provider, b.sport, e.id, e.markets[j].id, s.id,
                                if s.order.Some? then s.order.value else k, s.capture, s.price, s.odds)
  {
    hide Ordering.SortBy, SelectionRows, EventLe, SelectionLe;
    var ordered := Ordering.SortBy(b.events, EventLe);
    Ordering.SameElements(ordered, b.events);
    Ordering.SameElements(Emitted(b).selections, SelectionRows(b, ordered));
    if r in SelectionRows(b, ordered) {
      var e, j, k := SelectionOrigin(b, ordered, r);
      assert e in b.events;
    }
    if e, j, k :| e in b.events && 0 <= j < |e.markets| && 0 <= k < |e.markets[j].selections| &&
                  r == SelectionRowOf(b, e, e.markets[j], k, e.markets[j].selections[k]) {
      SelectionIsEmitted(b, ordered, e, j, k);
    }
  }

  /** One row for every event, in the order of their starts and then of their identifiers. */
  lemma EventsOnFields(b: Bundle) returns (ordered: seq<Event>)
    ensures multiset(ordered) == multiset(b.events) && |ordered| == |Emitted(b).events|
    ensures forall i, j :: 0 <= i < j < |ordered| ==>
              || ordered[i].start < ordered[j].start
              || (ordered[i].start == ordered[j].start && Ordering.StrLe(ordered[i].id, ordered[j].id))
    ensures forall i :: 0 <= i < |ordered| ==>
              var (r, e) := (Emitted(b).events[i], ordered[i]);
              && r.provider == b.provider && r.sport == b.sport && r.eventId == e.id && r.captures == e.captures
              && r.completeness == e.completeness
  {
    hide MarketRows, SelectionRows;
    ordered := Ordering.SortBy(b.events, EventLe);
    EventLeIsTotalPreorder();
    Ordering.SortBySorted(b.events, EventLe);
    forall i, j | 0 <= i < j < |ordered|
      ensures || ordered[i].start < ordered[j].start
              || (ordered[i].start == ordered[j].start && Ordering.StrLe(ordered[i].id, ordered[j].id))
    {
      assert EventLe(ordered[i], ordered[j]);
    }
  }

  lemma EventLeIsTotalPreorder()
    ensures Ordering.TotalPreorder(EventLe)
  {
    forall x: Event, y: Event ensures EventLe(x, y) || EventLe(y, x) {
      Ordering.StrLeTotal(x.id, y.id);
    }
    forall x: Event, y: Event, z: Event | EventLe(x, y) && EventLe(y, z) ensures EventLe(x, z) {
      Ordering.StrLeChain(x.id, y.id, z.id);
    }
  }
}
