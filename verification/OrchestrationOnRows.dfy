/** How each provider's turn is classified and what an attempt records, read off rows and results (orchestration.py). */
module OrchestrationOnRows {
  import opened Wrappers
  import opened Providers
  import opened Admission
  import opened AcquisitionStore
  import opened AcquisitionService
  import opened Orchestration
  import opened OrchestrationRuns
  import F = Fallback

  /** A provider gets a turn when it is enabled and the selection mode does not leave it out. */
  lemma ProvidersOnFields(mode: SelectionMode, settings: ServiceSettings)
    ensures Betano in ProvidersFor(mode, settings) <==> settings.betano.enabled && mode != BetclicOnly
    ensures Betclic in ProvidersFor(mode, settings) <==> settings.betclic.enabled && mode != BetanoOnly
  {
  }

  /**
   * A blocked provider is skipped until its next eligible time and counts as blocked. Any other turn ingests under the
   * provider's own sub-cycle; it succeeds exactly when it returns a succeeded result, and its failure is blocked for a
   * blocked result, retryable for a result so classified or a retryable error, and permanent otherwise.
   */
  lemma TurnOnRows(s: Store, settings: ServiceSettings, c: Cycle, p: Provider, input: Input)
    requires Tried(s, settings, c, p, input).1.Ok?
    ensures var (after, r) := Tried(s, settings, c, p, input); var sub := r.value;
            var slot := (p, c.sport);
            var key := RunKey(p, c.sport, c.id + (if p == Betano then "-betano" else "-betclic") +
                                          (if c.window.Some? then "-w" + c.window.value else ""));
            var (stored, answer) := Ingested(s, settings, key, c.number, c.maximum, input.acquired(p), input.times(p),
                                             input.faults(p));
            && sub.provider == p && sub.outcome.provider == (if p == Betano then "betano-pt" else "betclic-pt")
            && if slot in s.states && s.states[slot].code == Blocked &&
                  (s.states[slot].nextEligible.None? || input.startedAt < s.states[slot].nextEligible.value) then
                 && after == s && sub.skipped && !sub.raised && sub.result.None?
                 && !sub.outcome.success && sub.outcome.failure == F.BlockedFailure
               else
                 && after == stored && !sub.skipped && (sub.raised <==> answer == Err(RetryableJob))
                 && (answer == Err(RetryableJob) ==>
                       sub.result.None? && !sub.outcome.success && sub.outcome.failure == F.RetryableFailure)
                 && (answer == Err(PermanentJob) ==>
                       && sub.result == Some(IngestResult(Failed, None, None, "permanent"))
                       && !sub.outcome.success && sub.outcome.failure == F.PermanentFailure)
                 && (answer.Ok? ==>
                       && sub.result == Some(answer.value)
                       && (sub.outcome.success <==> answer.value.status == Succeeded)
                       && sub.outcome.failure ==
                          if answer.value.status == Succeeded then F.NoFailure
                          else if answer.value.status == Blocked then F.BlockedFailure
                          else if answer.value.classification == "retryable" then F.RetryableFailure
                          else F.PermanentFailure)
  {
    hide Ingested;
    ClassesDiffer();
  }

  lemma ClassesDiffer()
    ensures "permanent" != "retryable"
  {
    assert "permanent"[0] == 'p' && "retryable"[0] == 'r';
  }

  /** The provider has a last valid snapshot that is registered, was observed by now and loads as the provider's own. */
  predicate Usable(s: Store, p: Provider, sport: string, now: int, loaded: nat -> (Provider, string)) {
    && (p, sport) in s.states && s.states[(p, sport)].lastValid.Some?
    && s.states[(p, sport)].lastValid.value in s.registrations
    && s.registrations[s.states[(p, sport)].lastValid.value].observedAt <= now
    && loaded(s.states[(p, sport)].lastValid.value) == (p, sport)
  }

  /** The cache offers the most recently observed usable snapshot, Betano's of two observed at once, with its age. */
  lemma CachedOnRows(s: Store, sport: string, now: int, loaded: nat -> (Provider, string))
    ensures var cached := SelectCached(s, sport, now, loaded);
            && (cached.Some? <==> Usable(s, Betano, sport, now, loaded) || Usable(s, Betclic, sport, now, loaded))
            && (cached.Some? ==>
                  var p := if cached.value.provider == "betano-pt" then Betano else Betclic;
                  && (cached.value.provider == "betano-pt" || cached.value.provider == "betclic-pt")
                  && Usable(s, p, sport, now, loaded)
                  && cached.value.snapshot == s.states[(p, sport)].lastValid.value
                  && cached.value.observedAt == s.registrations[cached.value.snapshot].observedAt
                  && cached.value.ageSeconds == (now - cached.value.observedAt) / 1_000_000
                  && forall q: Provider :: q != p && Usable(s, q, sport, now, loaded) ==>
                       var other := s.registrations[s.states[(q, sport)].lastValid.value].observedAt;
                       other < cached.value.observedAt || (other == cached.value.observedAt && p == Betano))
  {
    NamesDiffer();
    CachedWhenUsable(s, Betano, sport, now, loaded);
    CachedWhenUsable(s, Betclic, sport, now, loaded);
    hide CachedOf, Usable;
  }

  lemma NamesDiffer()
    ensures Name(Betano) == "betano-pt" && Name(Betclic) == "betclic-pt" && Name(Betano) != Name(Betclic)
  {
    assert "betano-pt"[3] == 'a' && "betclic-pt"[3] == 'c';
  }

  lemma CachedWhenUsable(s: Store, p: Provider, sport: string, now: int, loaded: nat -> (Provider, string))
    ensures CachedOf(s, p, sport, now, loaded).Some? <==> Usable(s, p, sport, now, loaded)
    ensures Usable(s, p, sport, now, loaded) ==>
              var id := s.states[(p, sport)].lastValid.value;
              var at := s.registrations[id].observedAt;
              CachedOf(s, p, sport, now, loaded) == Some(F.Cached(Name(p), id, at, (now - at) / 1_000_000))
  {
  }

  /**
   * The decision of an attempt lists Betano first, as a permanent failure if it had no turn, and then Betclic if it had
   * one, each with its failure class. Its reason is which of them succeeded or what the cache held, and the result
   * carries the ingest result of the selected provider.
   */
  lemma RecordOnFields(s: Store, settings: ServiceSettings, mode: SelectionMode, c: Cycle,
                       loaded: nat -> (Provider, string), input: Input)
    requires Attempted(s, settings, mode, c, loaded, input).1.Ok?
    ensures var r := Attempted(s, settings, mode, c, loaded, input).1.value; var d := r.decision;
            var betano := Betano in ProvidersFor(mode, settings);
            var betclic := Betclic in ProvidersFor(mode, settings);
            var first := Tried(s, settings, c, Betano, input).1;
            var second := Tried(AfterBetano(s, settings, mode, c, input), settings, c, Betclic, input).1;
            && (betano ==> first.Ok?) && (betclic ==> second.Ok?)
            && d.attempted == ["betano-pt"] + (if betclic then ["betclic-pt"] else [])
            && d.classifications ==
               [("betano-pt", if betano then first.value.outcome.failure else F.PermanentFailure)] +
               (if betclic then [("betclic-pt", second.value.outcome.failure)] else [])
            && d.reason == (if betano && first.value.outcome.success then
                              if betclic && second.value.outcome.success then F.BothRetained else F.PreferredOnly
                            else if betclic && second.value.outcome.success then F.ComparisonFallback
                            else if d.cached.Some? then F.CachedStalePreserved
                            else F.ProviderUnavailable)
            && r.selected == (if betano && first.value.outcome.success then first.value.result
                              else if betclic && second.value.outcome.success then second.value.result
                              else None)
            && r.subAttempts == (if betano then [first.value] else []) + (if betclic then [second.value] else [])
  {
    hide Tried, SelectCached, F.Resolution, ProvidersFor;
    LoopUnrolled(s, settings, mode, c, input);
    NamesDiffer();
    var middle := AfterBetano(s, settings, mode, c, input);
    var betano, betclic := Betano in ProvidersFor(mode, settings), Betclic in ProvidersFor(mode, settings);
    var (after, all) := TriedAll(s, settings, c, ProvidersFor(mode, settings), input, []);
    var subs := all.value;
    var first, second := Tried(s, settings, c, Betano, input).1, Tried(middle, settings, c, Betclic, input).1;
    if betano {
      OwnTurn(s, settings, c, Betano, input);
    }
    if betclic {
      OwnTurn(middle, settings, c, Betclic, input);
    }
    assert SubOf(subs, Betano) == if betano then Some(first.value) else None;
    assert SubOf(subs, Betclic) == if betclic then Some(second.value) else None;
    var preferred := if betano then first.value.outcome else NOT_ATTEMPTED;
    var comparison := if betclic then Some(second.value.outcome) else None;
    WholeRecord(preferred, comparison, SelectCached(after, c.sport, input.cacheNow, loaded));
  }

  lemma OwnTurn(s: Store, settings: ServiceSettings, c: Cycle, p: Provider, input: Input)
    requires Tried(s, settings, c, p, input).1.Ok?
    ensures var sub := Tried(s, settings, c, p, input).1.value;
            sub.provider == p && sub.outcome.provider == Name(p)
  {
    hide Ingested, Eligible;
  }

  /** With at most two attempts the record is always the whole chain. */
  lemma WholeRecord(preferred: F.Outcome, comparison: Option<F.Outcome>, cached: Option<F.Cached>)
    ensures var d := F.Resolution(preferred, comparison, [], cached);
            && d.attempted == [preferred.provider] + (if comparison.Some? then [comparison.value.provider] else [])
            && d.classifications == [(preferred.provider, preferred.failure)] +
               (if comparison.Some? then [(comparison.value.provider, comparison.value.failure)] else [])
            && d.reason == (if preferred.success then
                              if comparison.Some? && comparison.value.success then F.BothRetained else F.PreferredOnly
                            else if comparison.Some? && comparison.value.success then F.ComparisonFallback
                            else if d.cached.Some? then F.CachedStalePreserved
                            else F.ProviderUnavailable)
            && d.selected == (if preferred.success then Some(preferred.provider)
                              else if comparison.Some? && comparison.value.success then
                                Some(comparison.value.provider)
                              else None)
  {
    hide F.Resolution, F.Chain;
    var chain := F.Chain(preferred, comparison, []);
    F.ChainStarts(preferred, comparison, []);
    var base := if comparison.Some? then 2 else 1;
    assert chain[..base] == chain;
    if preferred.success {
      F.PreferredSucceeds(preferred, comparison, [], cached);
    } else if comparison.Some? && comparison.value.success {
      F.FallbackAt(preferred, comparison, [], cached, 1);
    } else {
      F.NothingSucceeds(preferred, comparison, [], cached);
    }
  }
}
