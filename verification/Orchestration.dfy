/** One autonomous cycle over the providers (bookmakers/orchestration.py). */
module Orchestration {
  import opened Wrappers
  import opened Providers
  import opened Transactions
  import opened Admission
  import opened AcquisitionStore
  import opened AcquisitionService
  import F = Fallback

  datatype SelectionMode = BetanoOnly | BetclicOnly | Both | Best | PreferredUnlessBetter

  /** A logical cycle and the number of the attempt that drives it. */
  datatype Cycle = Cycle(sport: string, id: string, window: Option<string>, number: int, maximum: int)

  /** Everything an attempt reads from outside: browser and publisher outcomes, clocks, commit faults. */
  datatype Input = Input(
    acquired: Provider -> Acquired,
    times: Provider -> Times,
    faults: Provider -> IngestFaults,
    startedAt: int,
    cacheNow: int,
    decidedAt: int,
    decision: Faults)

  datatype SubAttempt = SubAttempt(provider: Provider, outcome: F.Outcome, result: Option<IngestResult>, skipped: bool,
                                   raised: bool)

  datatype CycleResult = CycleResult(decision: F.Decision, subAttempts: seq<SubAttempt>, selected: Option<IngestResult>)

  function Name(p: Provider): string {
    if p.Betano? then F.BETANO else F.BETCLIC
  }

  /** _providers_for_selection_mode */
  function ProvidersFor(mode: SelectionMode, settings: ServiceSettings): seq<Provider> {
    match mode
    case BetanoOnly => if settings.betano.enabled then [Betano] else []
    case BetclicOnly => if settings.betclic.enabled then [Betclic] else []
    case _ => (if settings.betano.enabled then [Betano] else []) + (if settings.betclic.enabled then [Betclic] else [])
  }

  /** provider_sub_cycle_id, and the window suffix that ingest appends */
  function KeyOf(c: Cycle, p: Provider): RunKey {
    RunKey(p, c.sport,
           c.id + (if p.Betano? then "-betano"
                   else "-betclic") + (if c.window.Some? then "-w" + c.window.value else ""))
  }

  /** _provider_eligible */
  predicate Eligible(s: Store, p: Provider, sport: string, now: int) {
    (p, sport) !in s.states ||
    var state := s.states[(p, sport)];
    state.code != Blocked || (state.nextEligible.Some? && state.nextEligible.value <= now)
  }

  /** _outcome_from_result */
  function OutcomeOf(r: IngestResult, p: Provider): F.Outcome {
    if r.status == Succeeded then F.Outcome(Name(p), true, F.NoFailure)
    else if r.status == Blocked then F.Outcome(Name(p), false, F.BlockedFailure)
    else if r.classification == "retryable" then F.Outcome(Name(p), false, F.RetryableFailure)
    else F.Outcome(Name(p), false, F.PermanentFailure)
  }

  const PERMANENT := IngestResult(Failed, None, None, "permanent")

  /** One pass of the provider loop; errors other than the two job errors end the attempt. */
  function Tried(s: Store, settings: ServiceSettings, c: Cycle, p: Provider, input: Input)
      : (Store, Result<SubAttempt, JobError>)
  {
    if !Eligible(s, p, c.sport, input.startedAt) then
      (s, Ok(SubAttempt(p, F.Outcome(Name(p), false, F.BlockedFailure), None, true, false)))
    else
      var (after, r) := Ingested(s, settings, KeyOf(c, p), c.number, c.maximum, input.acquired(p), input.times(p),
                                 input.faults(p));
      match r
      case Ok(result) => (after, Ok(SubAttempt(p, OutcomeOf(result, p), Some(result), false, false)))
      case Err(PermanentJob) => (after, Ok(SubAttempt(p, OutcomeOf(PERMANENT, p), Some(PERMANENT), false, false)))
      case Err(RetryableJob) => (after,
                                 Ok(SubAttempt(p, F.Outcome(Name(p), false, F.RetryableFailure), None, false, true)))
      case Err(e) => (after, Err(e))
  }

  function TriedAll(s: Store, settings: ServiceSettings, c: Cycle, providers: seq<Provider>, input: Input,
                    tried: seq<SubAttempt>)
    : (Store, Result<seq<SubAttempt>, JobError>)
    decreases |providers|
  {
    if providers == [] then (s, Ok(tried))
    else
      match Tried(s, settings, c, providers[0], input)
      case (after, Err(e)) => (after, Err(e))
      case (after, Ok(sub)) => TriedAll(after, settings, c, providers[1..], input, tried + [sub])
  }

  /** _attempt_for_provider */
  function SubOf(subs: seq<SubAttempt>, p: Provider): (r: Option<SubAttempt>)
    ensures r.None? <==> forall sub <- subs :: sub.provider != p
    ensures r.Some? ==> r.value in subs && r.value.provider == p
  {
    if subs == [] then None else if subs[0].provider == p then Some(subs[0]) else SubOf(subs[1..], p)
  }

  /** _verified_cached_snapshot_reference; loaded tells whose snapshot the verified directory turns out to be. */
  function CachedOf(s: Store, p: Provider, sport: string, now: int, loaded: nat -> (Provider, string))
      : Option<F.Cached>
  {
    var id := LastValid(s, p, sport);
    if id.None? || id.value !in s.registrations then None
    else
      var observedAt := s.registrations[id.value].observedAt;
      if observedAt > now || loaded(id.value) != (p, sport) then None
      else Some(F.Cached(Name(p), id.value, observedAt, (now - observedAt) / SECOND))
  }

  /** The most recently observed of the two cached snapshots, Betano's when they tie. */
  function SelectCached(s: Store, sport: string, now: int, loaded: nat -> (Provider, string)): Option<F.Cached> {
    var betano, betclic := CachedOf(s, Betano, sport, now, loaded), CachedOf(s, Betclic, sport, now, loaded);
    if betano.None? then betclic
    else if betclic.Some? && betclic.value.observedAt > betano.value.observedAt then betclic
    else betano
  }

  const NOT_ATTEMPTED := F.Outcome(F.BETANO, false, F.PermanentFailure)

  function Decided(subs: seq<SubAttempt>, cached: Option<F.Cached>): F.Decision {
    var betano, betclic := SubOf(subs, Betano), SubOf(subs, Betclic);
    F.Resolution(if betano.Some? then betano.value.outcome else NOT_ATTEMPTED,
                 if betclic.Some? then Some(betclic.value.outcome) else None, [], cached)
  }

  function SelectedOf(subs: seq<SubAttempt>, d: F.Decision): Option<IngestResult> {
    var p := if d.selected == Some(F.BETANO) then Some(Betano)
             else if d.selected == Some(F.BETCLIC) then Some(Betclic) else None;
    if p.Some? && SubOf(subs, p.value).Some? then SubOf(subs, p.value).value.result else None
  }

  predicate RetryWanted(subs: seq<SubAttempt>, c: Cycle) {
    c.number < c.maximum && exists sub <- subs :: sub.raised
  }

  /** run_autonomous_cycle */
  function Attempted(s: Store, settings: ServiceSettings, mode: SelectionMode, c: Cycle,
                     loaded: nat -> (Provider, string), input: Input)
    : (Store, Result<CycleResult, JobError>)
  {
    match TriedAll(s, settings, c, ProvidersFor(mode, settings), input, [])
    case (after, Err(e)) => (after, Err(e))
    case (after, Ok(subs)) =>
      if RetryWanted(subs, c) then (after, Err(RetryableJob))
      else
        var d := Decided(subs, SelectCached(after, c.sport, input.cacheNow, loaded));
        if input.decision.commitFails then (after, Err(NotDurable))
        else (after.(decisions := after.decisions + [F.DecisionRow(d, input.decidedAt)]),
              Ok(CycleResult(d, subs, SelectedOf(subs, d))))
  }

  class AcquisitionOrchestrator {
    const service: IngestionService
    const mode: SelectionMode
    const loaded: nat -> (Provider, string)

    constructor (service: IngestionService, mode: SelectionMode, loaded: nat -> (Provider, string))
      ensures this.service == service && this.mode == mode && this.loaded == loaded
    {
      this.service := service;
      this.mode := mode;
      this.loaded := loaded;
    }

    method TryProvider(c: Cycle, p: Provider, input: Input) returns (r: Result<SubAttempt, JobError>)
      modifies service.database
      ensures (service.database.committed, r) == Tried(old(service.database.committed), service.settings, c, p, input)
    {
      hide Ingested;
      if !Eligible(service.database.committed, p, c.sport, input.startedAt) {
        return Ok(SubAttempt(p, F.Outcome(Name(p), false, F.BlockedFailure), None, true, false));
      }
      var ingested := service.Ingest(KeyOf(c, p), c.number, c.maximum, input.acquired(p), input.times(p),
                                     input.faults(p));
      match ingested {
        case Ok(result) => r := Ok(SubAttempt(p, OutcomeOf(result, p), Some(result), false, false));
        case Err(e) =>
          if e == PermanentJob {
            r := Ok(SubAttempt(p, OutcomeOf(PERMANENT, p), Some(PERMANENT), false, false));
          } else if e == RetryableJob {
            r := Ok(SubAttempt(p, F.Outcome(Name(p), false, F.RetryableFailure), None, false, true));
          } else {
            r := Err(e);
          }
      }
    }

    method PersistFallback(decision: F.Decision, decidedAt: int, faults: Faults) returns (durable: bool)
      modifies service.database
      ensures durable <==> !faults.commitFails
      ensures service.database.committed ==
              if durable then old(service.database.committed).(decisions := old(service.database.committed).decisions +
                                                               [F.DecisionRow(decision, decidedAt)])
              else old(service.database.committed)
    {
      var connection := new Connection(service.database);
      var begun := connection.Begin();
      var tables := connection.working.value;
      connection.working := Some(tables.(decisions := tables.decisions + [F.DecisionRow(decision, decidedAt)]));
      durable := connection.Commit(faults);
    }

    method RunAutonomousCycle(c: Cycle, input: Input) returns (r: Result<CycleResult, JobError>)
      modifies service.database
      ensures (service.database.committed, r) ==
              Attempted(old(service.database.committed), service.settings, mode, c, loaded, input)
    {
      hide Tried, SelectCached, F.Resolution, ProvidersFor;
      var providers := ProvidersFor(mode, service.settings);
      var subs: seq<SubAttempt> := [];
      var retryable: seq<Provider> := [];
      for i := 0 to |providers|
        invariant TriedAll(service.database.committed, service.settings, c, providers[i..], input, subs)
               == TriedAll(old(service.database.committed), service.settings, c, providers, input, [])
        invariant retryable != [] <==> RetryWanted(subs, c)
      {
        assert providers[i..][1..] == providers[i + 1..];
        var tried := TryProvider(c, providers[i], input);
        if tried.Err? {
          return Err(tried.error);
        }
        ghost var before := subs;
        subs := subs + [tried.value];
        assert RetryWanted(subs, c) <==> RetryWanted(before, c) || (c.number < c.maximum && tried.value.raised);
        if tried.value.raised && c.number < c.maximum {
          retryable := retryable + [providers[i]];
        }
      }
      assert providers[|providers|..] == [];
      if retryable != [] {
        return Err(RetryableJob);
      }
      var betano, betclic := SubOf(subs, Betano), SubOf(subs, Betclic);
      var cached := SelectCached(service.database.committed, c.sport, input.cacheNow, loaded);
      ghost var finished := service.database.committed;
      NamesAreRight(old(service.database.committed), service.settings, c, providers, input, []);
      var resolved := F.ResolveProviderFallback(if betano.Some? then betano.value.outcome else NOT_ATTEMPTED,
                                                if betclic.Some? then Some(betclic.value.outcome)
                                                else None, [], [], cached);
      var durable := PersistFallback(resolved.value, input.decidedAt, input.decision);
      r := if durable then Ok(CycleResult(resolved.value, subs, SelectedOf(subs, resolved.value))) else Err(NotDurable);
    }
  }

  /** The outcomes carry the names of their providers, and a failure class exactly when they failed. */
  predicate WellNamed(subs: seq<SubAttempt>) {
    forall sub <- subs :: sub.outcome.provider == Name(sub.provider) && sub.outcome.Valid()
  }

  lemma {:induction false} NamesAreRight(s: Store, settings: ServiceSettings, c: Cycle, providers: seq<Provider>,
                                         input: Input, tried: seq<SubAttempt>)
    requires WellNamed(tried)
    ensures var (_, r) := TriedAll(s, settings, c, providers, input, tried); r.Ok? ==> WellNamed(r.value)
    decreases |providers|
  {
    hide Ingested, Eligible;
    if providers != [] {
      var (after, r) := Tried(s, settings, c, providers[0], input);
      if r.Ok? {
        NamesAreRight(after, settings, c, providers[1..], input, tried + [r.value]);
      }
    }
  }
}
