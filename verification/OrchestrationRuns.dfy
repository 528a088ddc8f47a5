/** What a logical cycle guarantees over all the attempts that drive it. */
module OrchestrationRuns {
  import opened Wrappers
  import opened Providers
  import opened Transactions
  import opened Aggregates
  import opened Admission
  import opened AcquisitionStore
  import opened AcquisitionService
  import opened Orchestration
  import F = Fallback
  import Runs = AcquisitionRuns

  /* ---------- One ingest call, seen from outside ---------- */

  /**
   * Nothing but the row of its own key changes among the runs, nothing but its own slot among the states, and no
   * decision.
   */
  predicate TouchesOnly(s: Store, after: Store, key: RunKey) {
    && after.decisions == s.decisions
    && after.runs - {key} == s.runs - {key}
    && after.states - {(key.provider, key.sport)} == s.states - {(key.provider, key.sport)}
  }

  lemma PersistTouchesOnly(s: Store, key: RunKey, number: nat, w: Write)
    requires Persisted(s, key, number, w).Ok?
    ensures TouchesOnly(s, Persisted(s, key, number, w).value, key)
  {
    hide Persisted, Registrable;
    PersistedEffect(s, key, number, w);
  }

  lemma FinaliseTouchesOnly(s: Store, after: Store, key: RunKey, classification: string)
    requires TouchesOnly(s, after, key)
    ensures TouchesOnly(s, Finalized(after, key, classification), key)
  {
  }

  lemma IngestTouchesOnly(s: Store, settings: ServiceSettings, key: RunKey, number: int, maximum: int, a: Acquired,
                          t: Times, faults: IngestFaults)
    ensures TouchesOnly(s, Ingested(s, settings, key, number, maximum, a, t, faults).0, key)
  {
    hide Persisted, Finalized, WriteFor, ResultFor;
    if Accepts(settings, key, number, maximum) && !RunIsTerminal(s, key) {
      var persisted := Persisted(s, key, number, WriteFor(a, settings.Of(key.provider), t));
      if persisted.Ok? {
        PersistTouchesOnly(s, key, number, WriteFor(a, settings.Of(key.provider), t));
        FinaliseTouchesOnly(s, persisted.value, key, EXHAUSTED);
      }
    }
  }

  lemma RetryOnlyBelowLimit(s: Store, settings: ServiceSettings, key: RunKey, number: int, maximum: int, a: Acquired,
                            t: Times, faults: IngestFaults)
    requires Ingested(s, settings, key, number, maximum, a, t, faults).1 == Err(RetryableJob)
    ensures number < maximum
  {
    hide Persisted, WriteFor, ResultFor, Finalized;
  }

  /**
   * The call ends in success: the run had succeeded before, or this acquisition is published exhaustively and stored.
   */
  predicate Succeeds(s: Store, settings: ServiceSettings, c: Cycle, p: Provider, input: Input) {
    && Eligible(s, p, c.sport, input.startedAt)
    && Accepts(settings, KeyOf(c, p), c.number, c.maximum)
    && if RunIsTerminal(s, KeyOf(c, p)) then s.runs[KeyOf(c, p)].status == Succeeded
       else
         var a := input.acquired(p);
         && a.Page? && a.blockReason.None? && a.normalises && a.admission.mayPublish && a.admission.exhaustive
         && a.publication.Published?
         && Persisted(s, KeyOf(c, p), c.number, WriteFor(a, settings.Of(p), input.times(p))).Ok?
         && !input.faults(p).persist.commitFails
  }

  lemma SuccessfulResult(s: Store, settings: ServiceSettings, c: Cycle, p: Provider, input: Input)
    requires Accepts(settings, KeyOf(c, p), c.number, c.maximum) && Eligible(s, p, c.sport, input.startedAt)
    ensures var r := Ingested(s, settings, KeyOf(c, p), c.number, c.maximum, input.acquired(p), input.times(p),
                              input.faults(p)).1;
            (r.Ok? && r.value.status == Succeeded) <==> Succeeds(s, settings, c, p, input)
  {
    hide Persisted, Finalized, Eligible, Accepts;
    PublishedAsSucceeded(input.acquired(p), settings.Of(p), input.times(p));
  }

  lemma PublishedAsSucceeded(a: Acquired, p: ProviderPolicy, t: Times)
    ensures ResultFor(a).Some? && ResultFor(a).value.status == Succeeded <==>
            a.Page? && a.blockReason.None? && a.normalises && a.admission.mayPublish && a.admission.exhaustive &&
            a.publication.Published?
  {
  }

  lemma TriedSucceeds(s: Store, settings: ServiceSettings, c: Cycle, p: Provider, input: Input)
    requires Tried(s, settings, c, p, input).1.Ok?
    ensures Tried(s, settings, c, p, input).1.value.outcome.success <==> Succeeds(s, settings, c, p, input)
    ensures Tried(s, settings, c, p, input).1.value.raised ==> c.number < c.maximum
    ensures Tried(s, settings, c, p, input).1.value.provider == p
  {
    hide Ingested, Persisted, Eligible;
    if Eligible(s, p, c.sport, input.startedAt) {
      var key := KeyOf(c, p);
      if Accepts(settings, key, c.number, c.maximum) {
        SuccessfulResult(s, settings, c, p, input);
      } else {
        RefusedPermanently(s, settings, key, c.number, c.maximum, input.acquired(p), input.times(p), input.faults(p));
      }
      if Tried(s, settings, c, p, input).1.value.raised {
        RetryOnlyBelowLimit(s, settings, key, c.number, c.maximum, input.acquired(p), input.times(p), input.faults(p));
      }
    }
  }

  lemma RefusedPermanently(s: Store, settings: ServiceSettings, key: RunKey, number: int, maximum: int, a: Acquired,
                           t: Times, faults: IngestFaults)
    requires !Accepts(settings, key, number, maximum)
    ensures Ingested(s, settings, key, number, maximum, a, t, faults) == (s, Err(PermanentJob))
  {
  }

  /* ---------- One attempt ---------- */

  /**
   * A provider whose sub-cycle is terminal is never acquired again: what acquisition would return makes no difference.
   */
  lemma TerminalIsNotReacquired(s: Store, settings: ServiceSettings, c: Cycle, p: Provider, input: Input, other: Input)
    requires RunIsTerminal(s, KeyOf(c, p)) && input.startedAt == other.startedAt
    ensures Tried(s, settings, c, p, input) == Tried(s, settings, c, p, other)
    ensures Tried(s, settings, c, p, input).0 == s
  {
    hide Eligible, Persisted, WriteFor, ResultFor, Finalized;
  }

  lemma TriedTouchesOnly(s: Store, settings: ServiceSettings, c: Cycle, p: Provider, input: Input)
    ensures TouchesOnly(s, Tried(s, settings, c, p, input).0, KeyOf(c, p))
  {
    hide Eligible, Ingested;
    IngestTouchesOnly(s, settings, KeyOf(c, p), c.number, c.maximum, input.acquired(p), input.times(p),
                      input.faults(p));
  }

  /** The store Betclic's turn finds, and the store after both turns. */
  function AfterBetano(s: Store, settings: ServiceSettings, mode: SelectionMode, c: Cycle, input: Input): Store {
    if Betano in ProvidersFor(mode, settings) then Tried(s, settings, c, Betano, input).0 else s
  }

  function AfterBoth(s: Store, settings: ServiceSettings, mode: SelectionMode, c: Cycle, input: Input): Store {
    var first := AfterBetano(s, settings, mode, c, input);
    if Betclic in ProvidersFor(mode, settings) then Tried(first, settings, c, Betclic, input).0 else first
  }

  lemma ProvidersShape(mode: SelectionMode, settings: ServiceSettings)
    ensures var providers := ProvidersFor(mode, settings);
            providers == [] || providers == [Betano] || providers == [Betclic] || providers == [Betano, Betclic]
  {
    assert [Betano] + [] == [Betano] && [] + [Betclic] == [Betclic] && [Betano] + [Betclic] == [Betano, Betclic];
  }

  /** The loop over the providers, unrolled. */
  lemma LoopUnrolled(s: Store, settings: ServiceSettings, mode: SelectionMode, c: Cycle, input: Input)
    ensures var providers := ProvidersFor(mode, settings);
            var first := Tried(s, settings, c, Betano, input);
            var second := Tried(AfterBetano(s, settings, mode, c, input), settings, c, Betclic, input);
            var all := TriedAll(s, settings, c, providers, input, []);
            if Betano in providers && first.1.Err? then all == (first.0, Err(first.1.error))
            else if Betclic in providers && second.1.Err? then all == (second.0, Err(second.1.error))
            else all == (AfterBoth(s, settings, mode, c, input),
                         Ok((if Betano in providers then [first.1.value]
                             else []) + (if Betclic in providers then [second.1.value] else [])))
  {
    hide Tried;
    var providers := ProvidersFor(mode, settings);
    ProvidersShape(mode, settings);
    var none: seq<SubAttempt> := [];
    assert none + none == none;
    var first := Tried(s, settings, c, Betano, input);
    var second := Tried(AfterBetano(s, settings, mode, c, input), settings, c, Betclic, input);
    if providers == [Betano, Betclic] && first.1.Ok? {
      assert providers[1..] == [Betclic] && providers[1..][1..] == [];
      assert TriedAll(s, settings, c, providers, input, []) ==
             TriedAll(first.0, settings, c, [Betclic], input, [] + [first.1.value]);
      assert [] + [first.1.value] == [first.1.value];
      if second.1.Ok? {
        assert [first.1.value] + [second.1.value] == [first.1.value, second.1.value];
        assert [Betclic][1..] == [];
      }
    } else if providers == [Betano] {
      assert providers[1..] == [];
      assert first.1.Ok? ==> [] + [first.1.value] == [first.1.value] + [];
    } else if providers == [Betclic] {
      assert providers[1..] == [];
      assert second.1.Ok? ==> [] + [second.1.value] == [second.1.value];
    }
  }

  /** An attempt at the limit never asks for another one, and no attempt ever fails the job for good by itself. */
  lemma LastAttemptDoesNotRetry(s: Store, settings: ServiceSettings, mode: SelectionMode, c: Cycle,
                                loaded: nat -> (Provider, string), input: Input)
    ensures Attempted(s, settings, mode, c, loaded, input).1 == Err(RetryableJob) ==> c.number < c.maximum
    ensures Attempted(s, settings, mode, c, loaded, input).1 != Err(PermanentJob)
  {
    hide Tried, SelectCached, F.Resolution, ProvidersFor;
    LoopUnrolled(s, settings, mode, c, input);
    NoJobError(s, settings, c, Betano, input);
    NoJobError(AfterBetano(s, settings, mode, c, input), settings, c, Betclic, input);
  }

  lemma NoJobError(s: Store, settings: ServiceSettings, c: Cycle, p: Provider, input: Input)
    ensures Tried(s, settings, c, p, input).1 != Err(RetryableJob)
    ensures Tried(s, settings, c, p, input).1 != Err(PermanentJob)
  {
    hide Ingested, Eligible;
  }

  /** An attempt that returns has persisted exactly one decision, its own; an attempt that raises has persisted none. */
  lemma OneDecisionPerResult(s: Store, settings: ServiceSettings, mode: SelectionMode, c: Cycle,
                             loaded: nat -> (Provider, string), input: Input)
    ensures var (after, r) := Attempted(s, settings, mode, c, loaded, input);
            after.decisions == s.decisions + if r.Ok? then [F.DecisionRow(r.value.decision, input.decidedAt)] else []
  {
    hide Tried, SelectCached, F.Resolution, ProvidersFor;
    LoopUnrolled(s, settings, mode, c, input);
    TriedTouchesOnly(s, settings, c, Betano, input);
    TriedTouchesOnly(AfterBetano(s, settings, mode, c, input), settings, c, Betclic, input);
    assert s.decisions + [] == s.decisions;
  }

  lemma TriedWithoutCommit(s: Store, settings: ServiceSettings, c: Cycle, p: Provider, input: Input)
    requires input.faults(p).persist.commitFails
    ensures Tried(s, settings, c, p, input).0 == s
  {
    hide Eligible, Persisted, Finalized, WriteFor, ResultFor;
  }

  /**
   * An attempt none of whose commits goes through leaves the store alone and raises, as does a worker that is stopped
   * before its first commit.
   */
  lemma NothingCommitted(s: Store, settings: ServiceSettings, mode: SelectionMode, c: Cycle,
                         loaded: nat -> (Provider, string), input: Input)
    requires input.decision.commitFails && forall p: Provider :: input.faults(p).persist.commitFails
    ensures Attempted(s, settings, mode, c, loaded, input).0 == s
    ensures Attempted(s, settings, mode, c, loaded, input).1.Err?
  {
    hide Tried, SelectCached, F.Resolution, ProvidersFor;
    LoopUnrolled(s, settings, mode, c, input);
    TriedWithoutCommit(s, settings, c, Betano, input);
    TriedWithoutCommit(s, settings, c, Betclic, input);
  }

  /**
   * The choice: Betano exactly when its turn ends in success, else Betclic exactly when its turn does, else the cached
   * snapshot, reported as stale and never as current, or nothing. The selected result is that of the selected provider.
   */
  lemma SelectionIsExact(s: Store, settings: ServiceSettings, mode: SelectionMode, c: Cycle,
                         loaded: nat -> (Provider, string), input: Input)
    requires Attempted(s, settings, mode, c, loaded, input).1.Ok?
    ensures var d := Attempted(s, settings, mode, c, loaded, input).1.value.decision;
            var betano := Betano in ProvidersFor(mode, settings) && Succeeds(s, settings, c, Betano, input);
            var betclic := Betclic in ProvidersFor(mode, settings)
                           && Succeeds(AfterBetano(s, settings, mode, c, input), settings, c, Betclic, input);
            var cached := SelectCached(AfterBoth(s, settings, mode, c, input), c.sport, input.cacheNow, loaded);
            if betano then d.selected == Some(F.BETANO) && d.currency == F.Current && d.cached.None?
            else if betclic then d.selected == Some(F.BETCLIC) && d.currency == F.Current && d.cached.None?
            else d.selected.None? && d.cached == cached && d.currency == if cached.Some? then F.Stale else F.NoData
  {
    hide Tried, SelectCached, F.Resolution, ProvidersFor, Succeeds, F.Chain, F.FirstSuccess;
    LoopUnrolled(s, settings, mode, c, input);
    var first, middle := Tried(s, settings, c, Betano, input), AfterBetano(s, settings, mode, c, input);
    var second := Tried(middle, settings, c, Betclic, input);
    var subs := TriedAll(s, settings, c, ProvidersFor(mode, settings), input, []).1.value;
    var cached := SelectCached(AfterBoth(s, settings, mode, c, input), c.sport, input.cacheNow, loaded);
    if Betano in ProvidersFor(mode, settings) {
      TriedSucceeds(s, settings, c, Betano, input);
    }
    if Betclic in ProvidersFor(mode, settings) {
      TriedSucceeds(middle, settings, c, Betclic, input);
    }
    assert SubOf(subs, Betano) == if Betano in ProvidersFor(mode, settings) then Some(first.1.value) else None;
    assert SubOf(subs, Betclic) == if Betclic in ProvidersFor(mode, settings) then Some(second.1.value) else None;
    NamesAreRight(s, settings, c, ProvidersFor(mode, settings), input, []);
    ResolutionOfTwo(if SubOf(subs, Betano).Some? then first.1.value.outcome else NOT_ATTEMPTED,
                    if SubOf(subs, Betclic).Some? then Some(second.1.value.outcome) else None, cached);
  }

  /** The persisted decision shows by its failure classes alone whether its data are current. */
  lemma DecisionShowsSuccess(s: Store, settings: ServiceSettings, mode: SelectionMode, c: Cycle,
                             loaded: nat -> (Provider, string), input: Input)
    requires Attempted(s, settings, mode, c, loaded, input).1.Ok?
    ensures var d := Attempted(s, settings, mode, c, loaded, input).1.value.decision;
            d.currency == F.Current <==> exists entry <- d.classifications :: entry.1 == F.NoFailure
  {
    hide Tried, SelectCached, F.Resolution, ProvidersFor, F.FirstSuccess;
    var (after, r) := TriedAll(s, settings, c, ProvidersFor(mode, settings), input, []);
    NamesAreRight(s, settings, c, ProvidersFor(mode, settings), input, []);
    var betano, betclic := SubOf(r.value, Betano), SubOf(r.value, Betclic);
    F.RecordShowsSuccess(if betano.Some? then betano.value.outcome else NOT_ATTEMPTED,
                         if betclic.Some? then Some(betclic.value.outcome) else None, [],
                         SelectCached(after, c.sport, input.cacheNow, loaded));
  }

  lemma ResolutionOfTwo(preferred: F.Outcome, comparison: Option<F.Outcome>, cached: Option<F.Cached>)
    ensures var d := F.Resolution(preferred, comparison, [], cached);
            if preferred.success then
              d.selected == Some(preferred.provider) && d.currency == F.Current && d.cached.None?
            else if comparison.Some? && comparison.value.success then
              d.selected == Some(comparison.value.provider) && d.currency == F.Current && d.cached.None?
            else d.selected.None? && d.cached == cached && d.currency == if cached.Some? then F.Stale else F.NoData
  {
    var chain := F.Chain(preferred, comparison, []);
    assert chain[0] == preferred && (comparison.Some? ==> chain[1] == comparison.value);
    F.FirstSuccessIs(chain, if preferred.success then 0
                            else if comparison.Some? && comparison.value.success then 1 else |chain|);
  }

  /** The acquisition ended on a block page, or was rejected as blocked. */
  predicate EndsBlocked(a: Acquired) {
    a.Page? && (a.blockReason.Some? || (a.normalises && !a.admission.mayPublish && a.admission.outcome == Blocked))
  }

  /**
   * After an acquisition that was stored its provider is in cooldown exactly while a block is younger than the cooldown
   * time.
   */
  lemma CooldownExactly(s: Store, settings: ServiceSettings, c: Cycle, p: Provider, input: Input, now: int)
    requires Accepts(settings, KeyOf(c, p), c.number, c.maximum) && !RunIsTerminal(s, KeyOf(c, p))
    requires !input.faults(p).persist.commitFails
    requires Persisted(s, KeyOf(c, p), c.number, WriteFor(input.acquired(p), settings.Of(p), input.times(p))).Ok?
    ensures var after := Ingested(s, settings, KeyOf(c, p), c.number, c.maximum, input.acquired(p), input.times(p),
                                  input.faults(p)).0;
            Eligible(after, p, c.sport, now) <==>
            (EndsBlocked(input.acquired(p)) ==>
               now >= input.times(p).finishedAt + settings.Of(p).cooldownSeconds * SECOND)
  {
    hide Persisted, Registrable, WriteFor, EndsBlocked, ResultFor;
    var w := WriteFor(input.acquired(p), settings.Of(p), input.times(p));
    WriteCools(input.acquired(p), settings.Of(p), input.times(p));
    PersistedEffect(s, KeyOf(c, p), c.number, w);
  }

  lemma WriteCools(a: Acquired, p: ProviderPolicy, t: Times)
    ensures var w := WriteFor(a, p, t);
            && (w.code == Blocked <==> EndsBlocked(a))
            && (EndsBlocked(a) ==>
                  w.nextEligible == Some(t.finishedAt + p.cooldownSeconds * SECOND) && w.status == Blocked)
  {
  }

  /** The cached snapshot is a provider's own last valid one, observed in the past, and the most recent such one. */
  lemma CachedIsMostRecent(s: Store, sport: string, now: int, loaded: nat -> (Provider, string))
    ensures var cached := SelectCached(s, sport, now, loaded);
            && (cached.None? <==> forall p: Provider :: CachedOf(s, p, sport, now, loaded).None?)
            && (cached.Some? ==>
                  && (exists p: Provider :: cached.value.provider == Name(p)
                                            && LastValid(s, p, sport) == Some(cached.value.snapshot)
                                            && loaded(cached.value.snapshot) == (p, sport))
                  && cached.value.observedAt <= now
                  && cached.value.ageSeconds == (now - cached.value.observedAt) / SECOND
                  && forall p: Provider :: CachedOf(s, p, sport, now, loaded).Some? ==>
                       CachedOf(s, p, sport, now, loaded).value.observedAt <= cached.value.observedAt)
  {
    var cached := SelectCached(s, sport, now, loaded);
    if cached.Some? {
      var p := if cached == CachedOf(s, Betano, sport, now, loaded) then Betano else Betclic;
      assert cached == CachedOf(s, p, sport, now, loaded);
      assert cached.value.provider == Name(p) && LastValid(s, p, sport) == Some(cached.value.snapshot)
          && loaded(cached.value.snapshot) == (p, sport);
    } else {
      assert CachedOf(s, Betano, sport, now, loaded).None? && CachedOf(s, Betclic, sport, now, loaded).None?;
    }
  }

  /* ---------- The attempts that drive a logical cycle ---------- */

  /**
   * One claim of the cycle's job. It is interrupted when a shutdown or a lost lease keeps the worker from recording how
   * the attempt ended. A worker that dies midway leaves what an attempt whose next commit fails leaves.
   */
  datatype Entry = Entry(before: Store, input: Input, after: Store, result: Result<CycleResult, JobError>,
                         interrupted: bool)

  /** The job goes back to the queue: the attempt raised anything but a permanent error, or its end was not recorded. */
  predicate Requeued(e: Entry) {
    e.interrupted || (e.result.Err? && e.result.error != PermanentJob)
  }

  /** Between attempts other work may change the store, but the lease keeps it from the terminal rows of this cycle. */
  predicate Rely(s: Store, t: Store, c: Cycle) {
    forall p: Provider :: RunIsTerminal(s, KeyOf(c, p)) ==>
      KeyOf(c, p) in t.runs && t.runs[KeyOf(c, p)] == s.runs[KeyOf(c, p)]
  }

  predicate IsAttempt(e: Entry, settings: ServiceSettings, mode: SelectionMode, c: Cycle,
                      loaded: nat -> (Provider, string))
  {
    (e.after, e.result) == Attempted(e.before, settings, mode, c, loaded, e.input)
  }

  /**
   * Attempts 1, 2, ... of one cycle. The job is claimed while fewer attempts than the maximum were made, and again only
   * after it went back to the queue.
   */
  predicate Drives(entries: seq<Entry>, settings: ServiceSettings, mode: SelectionMode, c: Cycle,
                   loaded: nat -> (Provider, string)) {
    && (entries != [] ==> |entries| - 1 < c.maximum)
    && (forall i :: 0 <= i < |entries| ==> IsAttempt(entries[i], settings, mode, c.(number := i + 1), loaded))
    && (forall i :: 0 <= i < |entries| - 1 ==> Requeued(entries[i]))
    && (forall i :: 0 <= i < |entries| - 1 ==> Rely(entries[i].after, entries[i + 1].before, c))
  }

  predicate Returned(e: Entry) { e.result.Ok? }

  predicate Uninterrupted(entries: seq<Entry>) {
    forall i :: 0 <= i < |entries| ==> !entries[i].interrupted
  }

  /** The decision rows that the attempts added to the store, in their order. */
  function Added(entries: seq<Entry>): seq<F.DecisionRow>
    requires forall e <- entries :: e.before.decisions <= e.after.decisions
  {
    if entries == [] then []
    else
      var front, last := entries[..|entries| - 1], entries[|entries| - 1];
      assert entries == front + [last];
      Added(front) + last.after.decisions[|last.before.decisions|..]
  }

  /** Each attempt adds its own decision if it returns, and none if it raises. */
  lemma EachAddsItsOwn(entries: seq<Entry>, settings: ServiceSettings, mode: SelectionMode, c: Cycle,
                       loaded: nat -> (Provider, string), e: Entry)
    requires Drives(entries, settings, mode, c, loaded) && e in entries
    ensures e.before.decisions <= e.after.decisions
    ensures e.after.decisions[|e.before.decisions|..] ==
            if Returned(e) then [F.DecisionRow(e.result.value.decision, e.input.decidedAt)] else []
  {
    hide Attempted, Rely;
    var i :| 0 <= i < |entries| && entries[i] == e;
    assert IsAttempt(e, settings, mode, c.(number := i + 1), loaded);
    OneDecisionPerResult(e.before, settings, mode, c.(number := i + 1), loaded, e.input);
  }

  lemma {:induction false} AddedCount(entries: seq<Entry>)
    requires forall e <- entries :: e.before.decisions <= e.after.decisions
    requires forall e <- entries :: |e.after.decisions[|e.before.decisions|..]| == if Returned(e) then 1 else 0
    ensures |Added(entries)| == CountBy(entries, Returned)
  {
    if entries != [] {
      var front, last := entries[..|entries| - 1], entries[|entries| - 1];
      assert entries == front + [last];
      AddedCount(front);
    }
  }

  /** The attempt at the index returned, and no other one did. */
  predicate OnlyReturn(entries: seq<Entry>, i: int) {
    0 <= i < |entries| && Returned(entries[i]) && forall j :: 0 <= j < |entries| && j != i ==> !Returned(entries[j])
  }

  lemma OneReturned(entries: seq<Entry>)
    ensures CountBy(entries, Returned) == 1 <==> exists i :: OnlyReturn(entries, i)
  {
    hide Returned, CountBy;
    CountNone(entries, Returned);
    CountAtMostOne(entries, Returned);
    if CountBy(entries, Returned) == 1 {
      var e :| e in entries && Returned(e);
      var i :| 0 <= i < |entries| && entries[i] == e;
      forall j | 0 <= j < |entries| && j != i ensures !Returned(entries[j]) {
        assert j < i || i < j;
      }
      assert OnlyReturn(entries, i);
    }
    if i :| OnlyReturn(entries, i) {
      assert entries[i] in entries;
    }
  }

  /**
   * The attempts add as many decisions as there are attempts that returned; one decision if and only if exactly one
   * returned. Only an interrupted attempt returns without being the last.
   */
  lemma DecisionsExactly(entries: seq<Entry>, settings: ServiceSettings, mode: SelectionMode, c: Cycle,
                         loaded: nat -> (Provider, string))
    requires Drives(entries, settings, mode, c, loaded)
    ensures forall e <- entries :: e.before.decisions <= e.after.decisions
    ensures |Added(entries)| == CountBy(entries, Returned)
    ensures |Added(entries)| == 1 <==> exists i :: OnlyReturn(entries, i)
    ensures forall i :: 0 <= i < |entries| - 1 && Returned(entries[i]) ==> entries[i].interrupted
  {
    hide Drives, Returned, CountBy;
    forall e <- entries
      ensures e.before.decisions <= e.after.decisions
      ensures |e.after.decisions[|e.before.decisions|..]| == if Returned(e) then 1 else 0
    {
      EachAddsItsOwn(entries, settings, mode, c, loaded, e);
    }
    AddedCount(entries);
    OneReturned(entries);
    ReturnedAreInterrupted(entries, settings, mode, c, loaded);
  }

  lemma ReturnedAreInterrupted(entries: seq<Entry>, settings: ServiceSettings, mode: SelectionMode, c: Cycle,
                               loaded: nat -> (Provider, string))
    requires Drives(entries, settings, mode, c, loaded)
    ensures forall i :: 0 <= i < |entries| - 1 && Returned(entries[i]) ==> entries[i].interrupted
  {
    hide IsAttempt, Rely;
    forall i | 0 <= i < |entries| - 1 && Returned(entries[i]) ensures entries[i].interrupted {
      assert Requeued(entries[i]);
    }
  }

  /**
   * The cycle ends by its maximum attempt. Without interruptions at most one decision is added, and exactly one if and
   * only if the last attempt returned; the job then stays out of the queue exactly when it did.
   */
  lemma DriveEnds(entries: seq<Entry>, settings: ServiceSettings, mode: SelectionMode, c: Cycle,
                  loaded: nat -> (Provider, string))
    requires entries != [] && Drives(entries, settings, mode, c, loaded)
    ensures |entries| <= c.maximum
    ensures forall e <- entries :: Requeued(e) <==> e.interrupted || !Returned(e)
    ensures |entries| == c.maximum ==> entries[|entries| - 1].result != Err(RetryableJob)
    ensures (forall e <- entries :: e.before.decisions <= e.after.decisions)
    ensures Uninterrupted(entries) ==> |Added(entries)| == if Returned(entries[|entries| - 1]) then 1 else 0
  {
    hide Attempted, Rely, CountBy, Added, Returned;
    forall e <- entries ensures Requeued(e) <==> e.interrupted || !Returned(e) {
      NeverPermanent(entries, settings, mode, c, loaded, e);
    }
    var last := entries[|entries| - 1];
    assert IsAttempt(last, settings, mode, c.(number := |entries|), loaded);
    LastAttemptDoesNotRetry(last.before, settings, mode, c.(number := |entries|), loaded, last.input);
    DecisionsExactly(entries, settings, mode, c, loaded);
    if Uninterrupted(entries) {
      assert forall i :: 0 <= i < |entries| - 1 ==> !Returned(entries[i]) by {
        ReturnedAreInterrupted(entries, settings, mode, c, loaded);
      }
      LastReturnOnly(entries);
    }
  }

  lemma NeverPermanent(entries: seq<Entry>, settings: ServiceSettings, mode: SelectionMode, c: Cycle,
                       loaded: nat -> (Provider, string), e: Entry)
    requires Drives(entries, settings, mode, c, loaded) && e in entries
    ensures Requeued(e) <==> e.interrupted || !Returned(e)
  {
    hide Attempted, Rely;
    var i :| 0 <= i < |entries| && entries[i] == e;
    assert IsAttempt(e, settings, mode, c.(number := i + 1), loaded);
    LastAttemptDoesNotRetry(e.before, settings, mode, c.(number := i + 1), loaded, e.input);
  }

  lemma LastReturnOnly(entries: seq<Entry>)
    requires entries != [] && forall i :: 0 <= i < |entries| - 1 ==> !Returned(entries[i])
    ensures CountBy(entries, Returned) == if Returned(entries[|entries| - 1]) then 1 else 0
  {
    hide Returned;
    var n := |entries| - 1;
    forall e <- entries[..n] ensures !Returned(e) {
      var k :| 0 <= k < n && entries[..n][k] == e;
      assert entries[k] == e;
    }
    CountNone(entries[..n], Returned);
  }

  lemma TriedKeepsTerminal(s: Store, settings: ServiceSettings, c: Cycle, p: Provider, q: Provider, input: Input)
    requires RunIsTerminal(s, KeyOf(c, p))
    ensures var after := Tried(s, settings, c, q, input).0;
            KeyOf(c, p) in after.runs && after.runs[KeyOf(c, p)] == s.runs[KeyOf(c, p)]
  {
    hide Tried;
    if p == q {
      TerminalIsNotReacquired(s, settings, c, p, input, input);
    } else {
      TriedTouchesOnly(s, settings, c, q, input);
      assert KeyOf(c, p) in s.runs - {KeyOf(c, q)};
    }
  }

  lemma AttemptKeepsTerminal(s: Store, settings: ServiceSettings, mode: SelectionMode, c: Cycle,
                             loaded: nat -> (Provider, string), input: Input,
                             p: Provider)
    requires RunIsTerminal(s, KeyOf(c, p))
    ensures var after := Attempted(s, settings, mode, c, loaded, input).0;
            KeyOf(c, p) in after.runs && after.runs[KeyOf(c, p)] == s.runs[KeyOf(c, p)]
  {
    hide Tried, SelectCached, F.Resolution, ProvidersFor, KeyOf;
    LoopUnrolled(s, settings, mode, c, input);
    TriedKeepsTerminal(s, settings, c, p, Betano, input);
    TriedKeepsTerminal(AfterBetano(s, settings, mode, c, input), settings, c, p, Betclic, input);
  }

  /** A sub-cycle that is terminal after one attempt keeps its row through all the later ones, however they end. */
  lemma {:induction false} TerminalSubCycleStays(entries: seq<Entry>, settings: ServiceSettings, mode: SelectionMode,
                                                 c: Cycle, loaded: nat -> (Provider, string), p: Provider,
                                                 i: nat, j: nat)
    requires Drives(entries, settings, mode, c, loaded) && i < j < |entries|
    requires RunIsTerminal(entries[i].after, KeyOf(c, p))
    ensures var row := entries[i].after.runs[KeyOf(c, p)];
            && KeyOf(c, p) in entries[j].before.runs && entries[j].before.runs[KeyOf(c, p)] == row
            && KeyOf(c, p) in entries[j].after.runs && entries[j].after.runs[KeyOf(c, p)] == row
    decreases j
  {
    hide Attempted;
    if i < j - 1 {
      TerminalSubCycleStays(entries, settings, mode, c, loaded, p, i, j - 1);
    }
    assert Rely(entries[j - 1].after, entries[j].before, c);
    assert IsAttempt(entries[j], settings, mode, c.(number := j + 1), loaded);
    SameKey(c, j + 1, p);
    AttemptKeepsTerminal(entries[j].before, settings, mode, c.(number := j + 1), loaded, entries[j].input, p);
  }

  lemma SameKey(c: Cycle, number: int, p: Provider)
    ensures KeyOf(c.(number := number), p) == KeyOf(c, p)
  {
  }

  /**
   * A Betano sub-cycle stored as succeeded in an earlier attempt is what every later attempt that returns selects,
   * unless Betano is in cooldown by then; whether it had published only a partial page is not remembered.
   */
  lemma EarlierSuccessIsSelected(entries: seq<Entry>, settings: ServiceSettings, mode: SelectionMode, c: Cycle,
                                 loaded: nat -> (Provider, string), i: nat, j: nat)
    requires Drives(entries, settings, mode, c, loaded) && i < j < |entries|
    requires KeyOf(c, Betano) in entries[i].after.runs && entries[i].after.runs[KeyOf(c, Betano)].status == Succeeded
    requires c.sport in SUPPORTED_SPORTS && settings.enabled && Betano in ProvidersFor(mode, settings)
    requires entries[j].result.Ok?
    ensures entries[j].result.value.decision.selected == Some(F.BETANO) <==>
            Eligible(entries[j].before, Betano, c.sport, entries[j].input.startedAt)
  {
    hide Attempted, Eligible, SelectCached;
    TerminalSubCycleStays(entries, settings, mode, c, loaded, Betano, i, j);
    SameKey(c, j + 1, Betano);
    assert IsAttempt(entries[j], settings, mode, c.(number := j + 1), loaded);
    SelectionIsExact(entries[j].before, settings, mode, c.(number := j + 1), loaded, entries[j].input);
    assert F.BETANO[3] != F.BETCLIC[3];
  }

  /* ---------- A drive that decides twice ---------- */

  const LONE_BETANO := ServiceSettings(true, Runs.POLICY, Runs.POLICY.(enabled := false))

  const CYCLE := Cycle("football", "cycle", None, 1, 2)

  /** Every acquisition would publish, and nothing fails. */
  const INPUT := Input((_: Provider) => Runs.PAGE, (_: Provider) => Runs.TIMES,
                       (_: Provider) => IngestFaults(NO_FAULTS, NO_FAULTS), 0, 0, 0, NO_FAULTS)

  /** Another cycle of the same provider, which meets a block page. */
  const OTHER_CYCLE := Cycle("football", "other", None, 1, 1)

  const BLOCKED_INPUT := INPUT.(acquired := (_: Provider) => Page(Some("captcha"), true, Refused(Blocked, "captcha"),
                                                                  PublicationFailed))

  /** With Betano alone, an attempt whose turn does not raise returns. */
  lemma LoneBetanoReturns(s: Store, c: Cycle, loaded: nat -> (Provider, string), input: Input)
    requires Tried(s, LONE_BETANO, c, Betano, input).1.Ok? && !Tried(s, LONE_BETANO, c, Betano, input).1.value.raised
    requires !input.decision.commitFails
    ensures Attempted(s, LONE_BETANO, BetanoOnly, c, loaded, input).1.Ok?
    ensures var after := Attempted(s, LONE_BETANO, BetanoOnly, c, loaded, input).0;
            after == Tried(s, LONE_BETANO, c, Betano, input).0.(decisions := after.decisions)
  {
    hide Tried, SelectCached, F.Resolution;
    LoopUnrolled(s, LONE_BETANO, BetanoOnly, c, input);
    var sub := Tried(s, LONE_BETANO, c, Betano, input).1.value;
    assert [sub] + [] == [sub];
  }

  /** The first attempt publishes and selects Betano. */
  lemma FirstAttempt(loaded: nat -> (Provider, string))
    ensures var (after, r) := Attempted(EMPTY, LONE_BETANO, BetanoOnly, CYCLE, loaded, INPUT);
            && r.Ok? && r.value.decision.selected == Some(F.BETANO)
            && after.runs == map[KeyOf(CYCLE, Betano) := Run(Succeeded, Some(7), None, "")]
            && after.attempts.Keys == {(KeyOf(CYCLE, Betano), 1)}
            && Eligible(after, Betano, "football", 0)
  {
    hide Persisted, WriteFor, Attempted, SelectCached;
    Runs.FirstPublication(KeyOf(CYCLE, Betano), 1);
    assert SUPPORTED_SPORTS[1] == "football";
    LoneBetanoReturns(EMPTY, CYCLE, loaded, INPUT);
    SelectionIsExact(EMPTY, LONE_BETANO, BetanoOnly, CYCLE, loaded, INPUT);
  }

  lemma KeysDiffer()
    ensures KeyOf(OTHER_CYCLE, Betano) != KeyOf(CYCLE, Betano)
  {
    assert KeyOf(OTHER_CYCLE, Betano).cycle[0] != KeyOf(CYCLE, Betano).cycle[0];
  }

  /** What the other cycle leaves behind: its own blocked run, and Betano in cooldown. */
  lemma OtherCycleBlocks(s: Store)
    requires s.runs.Keys == {KeyOf(CYCLE, Betano)} && s.attempts.Keys == {(KeyOf(CYCLE, Betano), 1)}
    requires Eligible(s, Betano, "football", 0)
    ensures var after := Tried(s, LONE_BETANO, OTHER_CYCLE, Betano, BLOCKED_INPUT).0;
            Rely(s, after, CYCLE) && !Eligible(after, Betano, "football", 0)
  {
    hide Persisted, WriteFor, KeyOf;
    var key := KeyOf(OTHER_CYCLE, Betano);
    KeysDiffer();
    assert SUPPORTED_SPORTS[1] == "football";
    TriedTouchesOnly(s, LONE_BETANO, OTHER_CYCLE, Betano, BLOCKED_INPUT);
    forall p: Provider | RunIsTerminal(s, KeyOf(CYCLE, p)) ensures KeyOf(CYCLE, p) in s.runs - {key} {
    }
    OtherCycleIsNew();
    PersistedEffect(s, key, 1, WriteFor(BLOCKED_INPUT.acquired(Betano), Runs.POLICY, Runs.TIMES));
    CooldownExactly(s, LONE_BETANO, OTHER_CYCLE, Betano, BLOCKED_INPUT, 0);
  }

  lemma OtherCycleIsNew()
    ensures WriteFor(BLOCKED_INPUT.acquired(Betano), Runs.POLICY, Runs.TIMES).published.None?
    ensures KeyOf(OTHER_CYCLE, Betano).sport == "football" && KeyOf(OTHER_CYCLE, Betano).provider == Betano
  {
  }

  /** While Betano is in cooldown an attempt returns without selecting anything. */
  lemma AttemptInCooldown(s: Store, c: Cycle, loaded: nat -> (Provider, string))
    requires c.sport == "football" && !Eligible(s, Betano, "football", 0)
    ensures Attempted(s, LONE_BETANO, BetanoOnly, c, loaded, INPUT).1.Ok?
    ensures Attempted(s, LONE_BETANO, BetanoOnly, c, loaded, INPUT).1.value.decision.selected.None?
  {
    hide Attempted, SelectCached, Ingested, Eligible;
    LoneBetanoReturns(s, c, loaded, INPUT);
    SelectionIsExact(s, LONE_BETANO, BetanoOnly, c, loaded, INPUT);
  }

  lemma BothReturned(entries: seq<Entry>)
    requires |entries| == 2 && Returned(entries[0]) && Returned(entries[1])
    ensures CountBy(entries, Returned) == 2
  {
    assert entries[..1][..0] == [];
    assert CountBy(entries[..1], Returned) == 1;
  }

  /**
   * An interrupted attempt decides for Betano; by the next one another cycle has put Betano into cooldown, and a
   * second, different decision is added.
   */
  lemma TwoDecisionsDisagree(loaded: nat -> (Provider, string)) returns (entries: seq<Entry>)
    ensures Drives(entries, LONE_BETANO, BetanoOnly, CYCLE, loaded) && |entries| == 2
    ensures Returned(entries[0]) && entries[0].result.value.decision.selected == Some(F.BETANO)
    ensures KeyOf(CYCLE, Betano) in entries[0].after.runs
    ensures entries[0].after.runs[KeyOf(CYCLE, Betano)].status == Succeeded
    ensures Returned(entries[1]) && entries[1].result.value.decision.selected.None?
    ensures forall e <- entries :: e.before.decisions <= e.after.decisions
    ensures |Added(entries)| == 2
  {
    hide Attempted, Rely, Tried, Eligible, KeyOf, Added;
    var (after, r) := Attempted(EMPTY, LONE_BETANO, BetanoOnly, CYCLE, loaded, INPUT);
    var between := Tried(after, LONE_BETANO, OTHER_CYCLE, Betano, BLOCKED_INPUT).0;
    var again := CYCLE.(number := 2);
    var (later, s) := Attempted(between, LONE_BETANO, BetanoOnly, again, loaded, INPUT);
    entries := [Entry(EMPTY, INPUT, after, r, true), Entry(between, INPUT, later, s, false)];
    FirstAttempt(loaded);
    OtherCycleBlocks(after);
    AttemptInCooldown(between, again, loaded);
    assert CYCLE.(number := 1) == CYCLE;
    DecisionsExactly(entries, LONE_BETANO, BetanoOnly, CYCLE, loaded);
    BothReturned(entries);
  }

  /** A partial publication does not count as a success when it happens, but does when the next attempt replays it. */
  lemma PartialBecomesSuccess(s: Store, settings: ServiceSettings, c: Cycle, p: Provider, input: Input, later: Input)
    requires Accepts(settings, KeyOf(c, p), c.number, c.maximum) && c.number < c.maximum
    requires !RunIsTerminal(s, KeyOf(c, p))
    requires var a := input.acquired(p);
             a.Page? && a.blockReason.None? && a.normalises && a.admission.mayPublish && !a.admission.exhaustive &&
             a.publication.Published?
    requires Eligible(s, p, c.sport, input.startedAt) && !input.faults(p).persist.commitFails
    requires Persisted(s, KeyOf(c, p), c.number, WriteFor(input.acquired(p), settings.Of(p), input.times(p))).Ok?
    ensures var (after, first) := Tried(s, settings, c, p, input);
            first.Ok? && !first.value.outcome.success && Succeeds(after, settings, c.(number := c.number + 1), p, later)
  {
    hide Persisted, Finalized, Registrable;
    SameKey(c, c.number + 1, p);
    PersistedEffect(s, KeyOf(c, p), c.number, WriteFor(input.acquired(p), settings.Of(p), input.times(p)));
  }
}
