/** What a cycle is admitted for, writes and answers, read off its page and the rows (admission.py, service.py). */
module AcquisitionOnRows {
  import opened Wrappers
  import opened Providers
  import opened Transactions
  import opened Admission
  import opened AcquisitionStore
  import opened AcquisitionService

  /* ---------- Admission ---------- */

  /** Drift that only informs; every other code stops the cycle. */
  predicate Informs(code: string) {
    code in {
      "unknown-market", "live-event-excluded", "non-football-excluded", "non-prematch-excluded",
      "malformed-event-reference", "malformed-market-reference", "malformed-selection-reference",
      "malformed-market-list", "malformed-selection-list", "malformed-event", "malformed-market",
      "malformed-selection", "event-without-supported-markets", "participant-count-rejected",
      "participant-identity-rejected", "competition-identity-rejected", "selection-mapping-rejected",
      "market-typeid-mismatch", "missing-total-line", "contradictory-line", "duplicate-selection-id",
      "event-outside-window", "non-prematch-event-excluded", "event-before-window",
      "event-at-or-after-window", "event-limit-truncated"}
  }

  /** Some market was observed, and some selection of some market carries a price. */
  predicate Native(events: seq<Event>) {
    exists e <- events :: e.markets != []
  }

  predicate Priced(events: seq<Event>) {
    exists i, j, k :: 0 <= i < |events| && 0 <= j < |events[i].markets| &&
      0 <= k < |events[i].markets[j].priced| && events[i].markets[j].priced[k]
  }

  lemma NativeMeaning(events: seq<Event>)
    ensures MarketCount(events) > 0 <==> Native(events)
    ensures PricedCount(events) > 0 <==> Priced(events)
  {
    hide MarketCount, PricedCount, Priced;
    PricedMeaning(events);
  }

  lemma PricedMeaning(events: seq<Event>)
    ensures PricedCount(events) > 0 <==> Priced(events)
  {
    hide MarketCount, PricedCount;
    PricedExactly(events);
    if HasPrice(events) {
      var e, m :| e in events && m in e.markets && true in m.priced;
      var i :| 0 <= i < |events| && events[i] == e;
      var j :| 0 <= j < |e.markets| && e.markets[j] == m;
      var k :| 0 <= k < |m.priced| && m.priced[k];
      assert events[i].markets[j].priced[k];
    }
    if i, j, k :| 0 <= i < |events| && 0 <= j < |events[i].markets| && 0 <= k < |events[i].markets[j].priced| &&
                  events[i].markets[j].priced[k] {
      assert events[i] in events && events[i].markets[j] in events[i].markets;
      assert true in events[i].markets[j].priced;
    }
  }

  /**
   * The outcome and the reason: a block page, no verified profile, critical drift, no events, other drift, no priced
   * inventory, something unresolved, unknown or incomplete, and otherwise admission; an inventory without native
   * markets but with valid quotes counts as priced and complete.
   */
  lemma OutcomeOnFields(blockReason: Option<string>, b: Bundle, n: Normalised, verified: bool)
    ensures var d := Evaluate(blockReason, b, n, verified);
            (d.reason, d.outcome) ==
            if blockReason.Some? then (blockReason.value, Blocked)
            else if !verified then ("no-verified-extraction-profile", Unavailable)
            else if "unknown-schema" in b.driftCodes || "schema-contradiction" in b.driftCodes then
              ("critical-parser-drift", DriftDetected)
            else if b.events == [] then ("no-supported-events", Unavailable)
            else if exists code <- b.driftCodes :: !Informs(code) then ("parser-drift", DriftDetected)
            else if !Priced(b.events) && (Native(b.events) || n.validQuotes == 0) then
              ("no-valid-provider-native-inventory", Unavailable)
            else if n.unresolvedEvents > 0 || n.unknownMarkets > 0 ||
                    (Native(b.events) && exists e <- b.events :: e.completeness == Incomplete) then
              ("partial-acquisition", Partial)
            else ("admitted", Admitted)
  {
    hide MarketCount, PricedCount, Native, Priced, Informs;
    NativeMeaning(b.events);
    PricedIsNative(b.events);
    DriftMeaning(b.driftCodes);
  }

  lemma PricedIsNative(events: seq<Event>)
    ensures Priced(events) ==> Native(events)
  {
    PricedMeaning(events);
    PricedExactly(events);
  }

  lemma DriftMeaning(codes: seq<string>)
    ensures BlockingDrift(codes) <==> exists code <- codes :: !Informs(code)
  {
    assert forall code :: code in INFORMATIONAL_DRIFT <==> Informs(code);
  }

  /** What the outcome permits. */
  lemma PermissionsOnFields(blockReason: Option<string>, b: Bundle, n: Normalised, verified: bool)
    ensures var d := Evaluate(blockReason, b, n, verified);
            var stocked := d.outcome == Admitted || d.outcome == Partial;
            && d.outcome in {Admitted, Partial, Blocked, DriftDetected, Unavailable}
            && (d.mayPublish <==> d.outcome == Admitted || (d.outcome == Partial && Native(b.events)))
            && (d.mayReplaceLastValid <==> d.outcome == Admitted) && (d.exhaustive <==> d.outcome == Admitted)
            && (d.inventoryAdmitted <==> stocked) && (d.projectionAdmitted <==> stocked && n.validQuotes > 0)
            && (d.catalogueAdmitted <==> stocked && n.comparable)
  {
    hide MarketCount, PricedCount, Native, Priced, BlockingDrift, AllComplete, INFORMATIONAL_DRIFT;
    NativeMeaning(b.events);
    PricedIsNative(b.events);
  }

  /* ---------- The rows of one cycle ---------- */

  /** What a stored cycle leaves in the run, attempt and provider rows of its key. */
  datatype Rows = Rows(run: Run, attempt: Attempt, code: Label, nextEligible: Option<int>)

  /**
   * Retryable endings fail for good once the attempts are used up; a block page and a rejection as blocked put the
   * provider into cooldown; a publication schedules it one interval later.
   */
  function RowsFor(a: Acquired, known: Option<nat>, policy: ProviderPolicy, t: Times, last: bool): Rows {
    var cooldown := Some(t.finishedAt + policy.cooldownSeconds * 1_000_000);
    if a.SourceRetryable? || (Publishes(a) && a.publication.SnapshotBusy?) then
      var reason := if a.SourceRetryable? then "retryable-source-error" else "snapshot-busy";
      Rows(if last then Run(Failed, known, None, "retry-exhausted") else Run(Retryable, known, None, reason),
           Attempt(Retryable, Some(reason), Some(reason)), Unavailable, None)
    else if a.SourcePermanent? then
      Rows(Run(Failed, known, None, "permanent-source-error"), Attempt(Failed, Some("permanent-source-error"), None),
           Unavailable, None)
    else if a.blockReason.Some? then
      Rows(Run(Blocked, known, a.blockReason, a.blockReason.value),
           Attempt(Blocked, a.blockReason, a.blockReason), Blocked, cooldown)
    else if !a.normalises then
      Rows(Run(Failed, known, None, "normalize-error"), Attempt(Failed, Some("normalize-error"), None),
           Unavailable, None)
    else if !a.admission.mayPublish then
      var reason := a.admission.reason;
      if a.admission.outcome == Blocked then
        Rows(Run(Blocked, known, Some(reason), reason), Attempt(Blocked, Some(reason), Some(reason)), Blocked, cooldown)
      else
        Rows(Run(Failed, known, None, reason), Attempt(Failed, Some(reason), Some(reason)),
             if a.admission.outcome == DriftDetected || a.admission.outcome == Partial then a.admission.outcome
             else Unavailable, None)
    else if a.publication.PublicationFailed? then
      Rows(Run(Failed, known, None, "snapshot-publish-error"), Attempt(Failed, Some("snapshot-publish-error"), None),
           Unavailable, None)
    else
      Rows(Run(Succeeded, Some(a.publication.snapshot.id), None, ""), Attempt(Succeeded, None, None),
           if a.admission.exhaustive then Operational else Partial,
           Some(t.finishedAt + policy.intervalSeconds * 1_000_000))
  }

  /** The page was normalised and admitted for publication. */
  predicate Publishes(a: Acquired) {
    a.Page? && a.blockReason.None? && a.normalises && a.admission.mayPublish
  }

  function KnownSnapshot(s: Store, key: RunKey): Option<nat> {
    if key in s.runs then s.runs[key].snapshot else None
  }

  lemma WriteOnFields(s: Store, key: RunKey, a: Acquired, policy: ProviderPolicy, t: Times)
    ensures var w := WriteFor(a, policy, t); var rows := RowsFor(a, KnownSnapshot(s, key), policy, t, false);
            && RunAfter(s, key, w) == rows.run && AttemptOf(w) == rows.attempt
            && w.code == rows.code && w.nextEligible == rows.nextEligible && w.observedAt == t.observedAt
            && (w.status == Retryable <==> a.SourceRetryable? || (Publishes(a) && a.publication.SnapshotBusy?))
            && (w.status == Retryable ==> w.code == Unavailable && w.nextEligible.None?)
            && (w.published.Some? <==> Publishes(a) && a.publication.Published?)
            && (w.published.Some? ==>
                  w.published.value == a.publication.snapshot && w.replaceLastValid == a.admission.mayReplaceLastValid)
    ensures var rows, last := RowsFor(a, KnownSnapshot(s, key), policy, t, false),
                              RowsFor(a, KnownSnapshot(s, key), policy, t, true);
            last == if WriteFor(a, policy, t).status == Retryable
                    then rows.(run := Run(Failed, KnownSnapshot(s, key), None, "retry-exhausted")) else rows
  {
  }

  /**
   * An accepted cycle that is not terminal, meets no conflicting row and whose commits go through leaves exactly these
   * rows under its key, its provider and its sport, registers exactly the snapshot it published, and replaces the last
   * valid snapshot only by one it may replace it with.
   */
  lemma IngestOnRows(s: Store, settings: ServiceSettings, key: RunKey, number: int, maximum: int, a: Acquired,
                     t: Times, faults: IngestFaults)
    requires key.sport in ["basketball", "football", "tennis"] && settings.enabled && 1 <= number <= maximum
    requires if key.provider == Betano then settings.betano.enabled else settings.betclic.enabled
    requires key in s.runs ==> s.runs[key].status !in {Succeeded, Blocked, Failed}
    requires Ingested(s, settings, key, number, maximum, a, t, faults).1 != Err(NotDurable)
    requires !Ingested(s, settings, key, number, maximum, a, t, faults).1.Err? ||
             !Ingested(s, settings, key, number, maximum, a, t, faults).1.error.StoreFailed?
    ensures var after := Ingested(s, settings, key, number, maximum, a, t, faults).0;
            var policy := if key.provider == Betano then settings.betano else settings.betclic;
            var rows := RowsFor(a, KnownSnapshot(s, key), policy, t, number == maximum);
            var slot := (key.provider, key.sport);
            var known := if slot in s.states then s.states[slot].lastValid else None;
            && after.runs == s.runs[key := rows.run]
            && after.attempts == s.attempts[(key, number) := rows.attempt]
            && after.states == s.states[slot := ProviderState(rows.code,
                 if Publishes(a) && a.publication.Published? && a.admission.mayReplaceLastValid
                 then Some(a.publication.snapshot.id) else known, rows.nextEligible)]
            && after.registrations ==
               (if Publishes(a) && a.publication.Published? && a.publication.snapshot.id !in s.registrations
                then s.registrations[a.publication.snapshot.id :=
                       Registration(key, a.publication.snapshot.checksum, a.publication.snapshot.path, t.observedAt)]
                else s.registrations)
            && after.decisions == s.decisions
  {
    hide Persisted, Registrable, WriteFor, ResultFor, RowsFor, RunAfter;
    var policy := settings.Of(key.provider);
    var w := WriteFor(a, policy, t);
    WriteOnFields(s, key, a, policy, t);
    AnswerOnFields(a, policy, t);
    PersistedEffect(s, key, number, w);
    if w.status == Retryable && number == maximum {
      FinalisedRows(s, Persisted(s, key, number, w).value, key, w);
    }
  }

  /**
   * An accepted cycle that is not terminal fails on the store if and only if its attempt number holds a different
   * attempt; or it publishes a snapshot that is registered with another checksum, path or cycle, or one that is not
   * registered while its path or its run's key is.
   */
  lemma ConflictsOnRows(s: Store, settings: ServiceSettings, key: RunKey, number: int, maximum: int, a: Acquired,
                        t: Times, faults: IngestFaults)
    requires key.sport in ["basketball", "football", "tennis"] && settings.enabled && 1 <= number <= maximum
    requires if key.provider == Betano then settings.betano.enabled else settings.betclic.enabled
    requires key in s.runs ==> s.runs[key].status !in {Succeeded, Blocked, Failed}
    ensures var r := Ingested(s, settings, key, number, maximum, a, t, faults).1;
            var policy := if key.provider == Betano then settings.betano else settings.betclic;
            var attempt := RowsFor(a, None, policy, t, false).attempt;
            (r.Err? && r.error.StoreFailed?) <==>
            || ((key, number) in s.attempts && s.attempts[(key, number)] != attempt)
            || (Publishes(a) && a.publication.Published? &&
                var p := a.publication.snapshot;
                if p.id in s.registrations then
                  s.registrations[p.id].checksum != p.checksum || s.registrations[p.id].path != p.path ||
                  s.registrations[p.id].key.cycle != key.cycle
                else
                  exists id <- s.registrations :: s.registrations[id].path == p.path || s.registrations[id].key == key)
    ensures var r := Ingested(s, settings, key, number, maximum, a, t, faults).1;
            var policy := if key.provider == Betano then settings.betano else settings.betclic;
            var attempt := RowsFor(a, None, policy, t, false).attempt;
            r.Err? && r.error.StoreFailed? ==>
              r.error.error == if (key, number) in s.attempts && s.attempts[(key, number)] != attempt
                               then AttemptConflict else RegistrationConflict
  {
    hide Persisted, WriteFor, ResultFor, RowsFor, RunAfter;
    var policy := settings.Of(key.provider);
    WriteOnFields(s, key, a, policy, t);
    SameAttempt(a, KnownSnapshot(s, key), policy, t);
    PersistedEffect(s, key, number, WriteFor(a, policy, t));
  }

  lemma SameAttempt(a: Acquired, known: Option<nat>, policy: ProviderPolicy, t: Times)
    ensures RowsFor(a, known, policy, t, false).attempt == RowsFor(a, None, policy, t, false).attempt
  {
  }

  lemma FinalisedRows(s: Store, stored: Store, key: RunKey, w: Write)
    requires w.published.None? && w.code == Unavailable && w.nextEligible.None?
    requires stored.runs == s.runs[key := RunAfter(s, key, w)]
    requires stored.states == s.states[(key.provider, key.sport) :=
               ProviderState(Unavailable, LastValid(s, key.provider, key.sport), None)]
    ensures Finalized(stored, key, EXHAUSTED) ==
            stored.(runs := s.runs[key := Run(Failed, KnownSnapshot(s, key), None, "retry-exhausted")])
  {
    assert stored.runs[key := Run(Failed, KnownSnapshot(s, key), None, EXHAUSTED)] ==
           s.runs[key := Run(Failed, KnownSnapshot(s, key), None, EXHAUSTED)];
    assert stored.states[(key.provider, key.sport) := stored.states[(key.provider, key.sport)]] == stored.states;
  }

  /** Which cycles return, and what; the others raise. */
  lemma AnswerOnFields(a: Acquired, policy: ProviderPolicy, t: Times)
    ensures ResultFor(a) ==
            if !a.Page? then None
            else if a.blockReason.Some? then Some(IngestResult(Blocked, None, a.blockReason, a.blockReason.value))
            else if !a.normalises then None
            else if !a.admission.mayPublish then
              if a.admission.outcome == Blocked then
                Some(IngestResult(Blocked, None, Some(a.admission.reason), a.admission.reason))
              else
                Some(IngestResult(if a.admission.outcome == DriftDetected || a.admission.outcome == Partial ||
                                     a.admission.outcome == Unavailable then a.admission.outcome else Failed,
                                  None, None, a.admission.reason))
            else if a.publication.Published? then
              Some(IngestResult(if a.admission.exhaustive then Succeeded else Partial,
                                Some(a.publication.snapshot.id), None, ""))
            else None
    ensures WriteFor(a, policy, t).status == Retryable ==> ResultFor(a).None?
  {
  }

  /**
   * What a call answers: refusals are permanent, a terminal run answers from its row, and a stored cycle answers as its
   * page says, raising a retryable error only below the attempt limit.
   */
  lemma IngestAnswers(s: Store, settings: ServiceSettings, key: RunKey, number: int, maximum: int, a: Acquired,
                      t: Times, faults: IngestFaults)
    ensures var (after, r) := Ingested(s, settings, key, number, maximum, a, t, faults);
            var enabled := if key.provider == Betano then settings.betano.enabled else settings.betclic.enabled;
            if key.sport !in ["basketball", "football", "tennis"] || !settings.enabled || !enabled ||
               !(1 <= number <= maximum) then
              after == s && r == Err(PermanentJob)
            else if key in s.runs && s.runs[key].status in {Succeeded, Blocked, Failed} then
              && after == s && r.Ok? && r.value.status == s.runs[key].status
              && r.value.snapshot == s.runs[key].snapshot && r.value.blockReason == s.runs[key].blockReason
              && r.value.classification == s.runs[key].classification
            else
              || (r.Err? && r.error.StoreFailed? && after == s)
              || (r == Err(NotDurable) && (faults.persist.commitFails || faults.finalise.commitFails))
              || (if ResultFor(a).Some? then r == Ok(ResultFor(a).value)
                  else if a.SourceRetryable? || (Publishes(a) && a.publication.SnapshotBusy?) then
                    r == Err(if number < maximum then RetryableJob else PermanentJob)
                  else r == Err(PermanentJob))
  {
    hide Persisted, Finalized, WriteFor, ResultFor, RowsFor, RunAfter;
    WriteOnFields(s, key, a, settings.Of(key.provider), t);
  }
}
