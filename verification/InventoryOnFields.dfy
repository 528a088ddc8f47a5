/** What the loader demands of a native inventory, read off the fields of its rows (bookmakers/loader.py). */
module InventoryOnFields {
  import opened Wrappers
  import Ordering
  import opened Aggregates
  import opened Partitions
  import MetricsOnBets
  import opened NativeInventory

  /* ---------- Identities ---------- */

  lemma ColumnDistinct<T, K>(rows: seq<T>, f: T -> K)
    ensures Ordering.NoDuplicates(Column(rows, f)) <==>
            forall i, j :: 0 <= i < j < |rows| ==> f(rows[i]) != f(rows[j])
  {
    if Ordering.NoDuplicates(Column(rows, f)) {
      forall i, j | 0 <= i < j < |rows| ensures f(rows[i]) != f(rows[j]) {
        assert Column(rows, f)[i] != Column(rows, f)[j];
      }
    }
  }

  lemma InColumn<T, K>(rows: seq<T>, f: T -> K, k: K)
    ensures k in Column(rows, f) <==> exists r <- rows :: f(r) == k
  {
    if k in Column(rows, f) {
      var i :| 0 <= i < |rows| && Column(rows, f)[i] == k;
      assert rows[i] in rows;
    }
    if r :| r in rows && f(r) == k {
      var i :| 0 <= i < |rows| && rows[i] == r;
      assert Column(rows, f)[i] == k;
    }
  }

  /**
   * There are events, markets and selections; their identifiers are present; no two events share an identifier, no two
   * markets of an event, and no two selections of a market; every market has its event and every selection its market.
   */
  lemma IdentitiesOnFields(inv: Inventory)
    ensures IdentitiesAccepted(inv) <==>
            var (events, markets, selections) := (inv.events, inv.markets, inv.selections);
            && events != [] && markets != [] && selections != []
            && (forall e <- events :: e.eventId != "")
            && (forall i, j :: 0 <= i < j < |events| ==> events[i].eventId != events[j].eventId)
            && (forall m <- markets :: m.eventId != "" && m.marketId != "" &&
                                       exists e <- events :: e.eventId == m.eventId)
            && (forall i, j :: 0 <= i < j < |markets| ==>
                  markets[i].eventId != markets[j].eventId || markets[i].marketId != markets[j].marketId)
            && (forall s <- selections ::
                  && s.eventId != "" && s.marketId != "" && s.selectionId != ""
                  && exists m <- markets :: m.eventId == s.eventId && m.marketId == s.marketId)
            && (forall i, j :: 0 <= i < j < |selections| ==>
                  selections[i].eventId != selections[j].eventId || selections[i].marketId != selections[j].marketId ||
                  selections[i].selectionId != selections[j].selectionId)
  {
    hide Ordering.NoDuplicates;
    ColumnDistinct(inv.events, EventOfRow);
    ColumnDistinct(inv.markets, KeyOfMarket);
    ColumnDistinct(inv.selections, KeyOfSelection);
    forall id { InColumn(inv.events, EventOfRow, id); }
    forall key { InColumn(inv.markets, KeyOfMarket, key); }
  }

  /* ---------- Rows ---------- */

  /**
   * The completeness of an event row: thirteen counts and the declared one from zero to a million; the parsed counts
   * are those of the rows and, with the rejected ones, within the observed ones; prices only for parsed markets; ready
   * only after a visit; a complete state only if nothing was lost, and each kind of completeness with its own evidence.
   */
  lemma CompletenessOnFields(c: Completeness, markets: int, selections: int)
    ensures CompletenessAccepted(c, markets, selections) <==>
            && (forall n <- [c.groupsObserved, c.marketsObserved, c.marketsParsed, c.marketsRejected,
                             c.selectionsObserved, c.selectionsParsed, c.selectionsRejected, c.marketsWithValidPrice,
                             c.responses, c.truncated, c.boundedRejections, c.missingChunks, c.limitTruncated] ::
                  0 <= n <= 1_000_000)
            && (c.declared.Some? ==> 0 <= c.declared.value <= 1_000_000)
            && c.marketsParsed == markets && c.marketsParsed + c.marketsRejected <= c.marketsObserved
            && c.selectionsParsed == selections && c.selectionsParsed + c.selectionsRejected <= c.selectionsObserved
            && c.marketsWithValidPrice <= markets && (c.ready ==> c.visited)
            && (c.state != OtherState ==>
                  && c.visited && c.ready && c.marketsObserved == markets && c.selectionsObserved == selections
                  && c.marketsRejected + c.selectionsRejected + c.truncated + c.boundedRejections + c.missingChunks +
                     c.limitTruncated == 0)
            && (c.state == CompleteByProviderReference ==> c.declared == Some(markets))
            && (c.state == CompleteByReviewedEventPayload ==> c.permitted)
  {
    CountsListed(c);
  }

  lemma CountsListed(c: Completeness)
    ensures (forall n <- [c.groupsObserved, c.marketsObserved, c.marketsParsed, c.marketsRejected,
                          c.selectionsObserved, c.selectionsParsed, c.selectionsRejected, c.marketsWithValidPrice,
                          c.responses, c.truncated, c.boundedRejections, c.missingChunks, c.limitTruncated] ::
               0 <= n <= 1_000_000) <==>
            && Bounded(c.groupsObserved) && Bounded(c.marketsObserved) && Bounded(c.marketsParsed)
            && Bounded(c.marketsRejected) && Bounded(c.selectionsObserved) && Bounded(c.selectionsParsed)
            && Bounded(c.selectionsRejected) && Bounded(c.marketsWithValidPrice) && Bounded(c.responses)
            && Bounded(c.truncated) && Bounded(c.boundedRejections) && Bounded(c.missingChunks)
            && Bounded(c.limitTruncated)
  {
    var counts := [c.groupsObserved, c.marketsObserved, c.marketsParsed, c.marketsRejected,
                   c.selectionsObserved, c.selectionsParsed, c.selectionsRejected, c.marketsWithValidPrice,
                   c.responses, c.truncated, c.boundedRejections, c.missingChunks, c.limitTruncated];
    assert counts[0] in counts && counts[1] in counts && counts[2] in counts && counts[3] in counts;
    assert counts[4] in counts && counts[5] in counts && counts[6] in counts && counts[7] in counts;
    assert counts[8] in counts && counts[9] in counts && counts[10] in counts && counts[11] in counts;
    assert counts[12] in counts;
  }

  /**
   * Rows pass if and only if every event refers to known captures and counts its own markets and selections, every
   * market and selection refers to a known capture, and priced selections carry odds above one and others none.
   */
  lemma RowsOnFields(inv: Inventory, captures: set<string>)
    ensures RowsAccepted(inv, captures) <==>
            && (forall e <- inv.events ::
                  && e.captures != [] && (forall c <- e.captures :: c in captures)
                  && CompletenessAccepted(e.completeness,
                       CountBy(inv.markets, (m: MarketRow) => m.eventId == e.eventId),
                       CountBy(inv.selections, (s: SelectionRow) => s.eventId == e.eventId)))
            && (forall m <- inv.markets :: m.capture in captures)
            && (forall s <- inv.selections ::
                  && s.capture in captures
                  && if s.price == Priced then s.odds.Some? && s.odds.value > 1.0 else s.odds == None)
  {
    hide CompletenessAccepted, Members, CountBy;
    forall e <- inv.events
      ensures |Members(inv.markets, EventOfMarket, e.eventId)| ==
              CountBy(inv.markets, (m: MarketRow) => m.eventId == e.eventId)
      ensures |Members(inv.selections, EventOfSelection, e.eventId)| ==
              CountBy(inv.selections, (s: SelectionRow) => s.eventId == e.eventId)
    {
      MembersCounted(inv.markets, EventOfMarket, e.eventId);
      MembersCounted(inv.selections, EventOfSelection, e.eventId);
      MetricsOnBets.SameCounts(inv.markets, HasKey(EventOfMarket, e.eventId),
                               (m: MarketRow) => m.eventId == e.eventId);
      MetricsOnBets.SameCounts(inv.selections, HasKey(EventOfSelection, e.eventId),
                               (s: SelectionRow) => s.eventId == e.eventId);
    }
  }

  /* ---------- Order and counts ---------- */

  /** Markets by event, order and identifier; selections by event, market, order and identifier. */
  lemma OrderOnFields(inv: Inventory)
    ensures OrderAccepted(inv) <==>
            && (forall i, j :: 0 <= i < j < |inv.markets| ==>
                  var (a, b) := (inv.markets[i], inv.markets[j]);
                  if a.eventId != b.eventId then Ordering.StrLe(a.eventId, b.eventId)
                  else a.order < b.order || (a.order == b.order && Ordering.StrLe(a.marketId, b.marketId)))
            && forall i, j :: 0 <= i < j < |inv.selections| ==>
                 var (a, b) := (inv.selections[i], inv.selections[j]);
                 if a.eventId != b.eventId then Ordering.StrLe(a.eventId, b.eventId)
                 else if a.marketId != b.marketId then Ordering.StrLe(a.marketId, b.marketId)
                 else a.order < b.order || (a.order == b.order && Ordering.StrLe(a.selectionId, b.selectionId))
  {
    hide Ordering.SortBy, Ordering.StrLe;
    SortedExactly(inv.markets, MarketLe) by { MarketLeIsTotalPreorder(); }
    SortedExactly(inv.selections, SelectionLe) by { SelectionLeIsTotalPreorder(); }
  }

  lemma SortedExactly<T(!new)>(s: seq<T>, le: (T, T) -> bool)
    requires Ordering.TotalPreorder(le)
    ensures s == Ordering.SortBy(s, le) <==> forall i, j :: 0 <= i < j < |s| ==> le(s[i], s[j])
  {
    Ordering.SortBySorted(s, le);
    if Ordering.Sorted(s, le) {
      Ordering.SortBySortedIdentity(s, le);
    }
  }

  /** The declared counts are those of the rows. */
  lemma CountsOnFields(inv: Inventory, declared: Counts)
    ensures declared == CountsOf(inv) <==>
            && declared.events == |inv.events| && declared.markets == |inv.markets|
            && declared.selections == |inv.selections|
            && declared.priced == CountBy(inv.selections, (s: SelectionRow) => s.price == Priced)
            && declared.priced + declared.unpriced == |inv.selections|
  {
    hide CountBy;
    MetricsOnBets.SameCounts(inv.selections, IsPriced, (s: SelectionRow) => s.price == Priced);
  }

  /** An inventory is accepted exactly when these five hold and every row is of the provider and the sport. */
  lemma AcceptedOnFields(inv: Inventory, provider: string, sport: string, captures: set<string>, declared: Counts)
    ensures Accepted(inv, provider, sport, captures, declared) <==>
            && IdentitiesAccepted(inv) && RowsAccepted(inv, captures) && OrderAccepted(inv)
            && declared == CountsOf(inv)
            && (forall e <- inv.events :: e.provider == provider && e.sport == sport)
            && (forall m <- inv.markets :: m.provider == provider && m.sport == sport)
            && forall s <- inv.selections :: s.provider == provider && s.sport == sport
  {
    hide IdentitiesAccepted, RowsAccepted, OrderAccepted, CountsOf;
  }
}
