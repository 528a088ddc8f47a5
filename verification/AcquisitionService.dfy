/** One acquisition cycle of one provider (bookmakers/service.py). */
module AcquisitionService {
  import opened Wrappers
  import opened Providers
  import opened Transactions
  import opened Admission
  import opened AcquisitionStore

  /* What the browser and the publisher return is an input. */

  const SECOND: int := 1_000_000

  datatype ProviderPolicy = ProviderPolicy(enabled: bool, intervalSeconds: int, cooldownSeconds: int)

  datatype ServiceSettings = ServiceSettings(enabled: bool, betano: ProviderPolicy, betclic: ProviderPolicy) {
    function Of(p: Provider): ProviderPolicy {
      if p.Betano? then betano else betclic
    }
  }

  datatype Publication = Published(snapshot: Snapshot) | SnapshotBusy | PublicationFailed

  /** What acquiring, normalising, admitting and publishing came to. */
  datatype Acquired =
    | SourceRetryable
    | SourcePermanent
    | Page(blockReason: Option<string>, normalises: bool, admission: Decision, publication: Publication)

  datatype JobError = PermanentJob | RetryableJob | StoreFailed(error: StoreError) | NotDurable

  datatype IngestResult = IngestResult(status: Label, snapshot: Option<nat>, blockReason: Option<string>,
                                       classification: string)

  /** How the commits of the persisting and of the finalising transaction end. */
  datatype IngestFaults = IngestFaults(persist: Faults, finalise: Faults)

  datatype Times = Times(observedAt: int, finishedAt: int)

  /* ---------- The five persisting transactions ---------- */

  function RetryableWrite(reason: string, t: Times): Write {
    Write(Retryable, Retryable, reason, Some(reason), Some(reason), None, None, t.observedAt, Unavailable, false, None)
  }

  function FailureWrite(reason: string, t: Times): Write {
    Write(Failed, Failed, reason, Some(reason), None, None, None, t.observedAt, Unavailable, false, None)
  }

  function BlockedWrite(reason: string, p: ProviderPolicy, t: Times): Write {
    Write(Blocked, Blocked, reason, Some(reason), Some(reason), Some(reason), None, t.observedAt, Blocked, false,
          Some(t.finishedAt + p.cooldownSeconds * SECOND))
  }

  function RejectedWrite(d: Decision, p: ProviderPolicy, t: Times): Write {
    var blocked := d.outcome == Blocked;
    var status := if blocked then Blocked else Failed;
    var code := if d.outcome in {Blocked, DriftDetected, Partial} then d.outcome else Unavailable;
    Write(status, status, d.reason, Some(d.reason), Some(d.reason), if blocked then Some(d.reason)
                                                                    else None, None, t.observedAt, code,
          false, if blocked then Some(t.finishedAt + p.cooldownSeconds * SECOND) else None)
  }

  function SuccessWrite(d: Decision, published: Snapshot, p: ProviderPolicy, t: Times): Write {
    Write(Succeeded, Succeeded, "", None, None, None, Some(published), t.observedAt,
          if d.exhaustive then Operational else Partial,
          d.mayReplaceLastValid, Some(t.finishedAt + p.intervalSeconds * SECOND))
  }

  function WriteFor(a: Acquired, p: ProviderPolicy, t: Times): Write {
    match a
    case SourceRetryable => RetryableWrite("retryable-source-error", t)
    case SourcePermanent => FailureWrite("permanent-source-error", t)
    case Page(blockReason, normalises, admission, publication) =>
      if blockReason.Some? then BlockedWrite(blockReason.value, p, t)
      else if !normalises then FailureWrite("normalize-error", t)
      else if !admission.mayPublish then RejectedWrite(admission, p, t)
      else
        match publication
        case Published(snapshot) => SuccessWrite(admission, snapshot, p, t)
        case SnapshotBusy => RetryableWrite("snapshot-busy", t)
        case PublicationFailed => FailureWrite("snapshot-publish-error", t)
  }

  /** The result of a cycle that published, was blocked or was rejected; the other cycles raise. */
  function ResultFor(a: Acquired): Option<IngestResult> {
    match a
    case SourceRetryable => None
    case SourcePermanent => None
    case Page(blockReason, normalises, d, publication) =>
      if blockReason.Some? then Some(IngestResult(Blocked, None, blockReason, blockReason.value))
      else if !normalises then None
      else if !d.mayPublish then
        var status := if d.outcome in {Blocked, DriftDetected, Partial, Unavailable} then d.outcome else Failed;
        Some(IngestResult(status, None, if status == Blocked then Some(d.reason) else None, d.reason))
      else if publication.Published? then
        Some(IngestResult(if d.exhaustive then Succeeded else Partial, Some(publication.snapshot.id), None, ""))
      else None
  }

  /** _result_from_run */
  function Replay(run: Run): IngestResult {
    IngestResult(run.status, run.snapshot, run.blockReason, run.classification)
  }

  const EXHAUSTED := "retry-exhausted"

  /** The refusals that come before anything is read. */
  predicate Accepts(settings: ServiceSettings, key: RunKey, number: int, maximum: int) {
    key.sport in SUPPORTED_SPORTS && settings.enabled && settings.Of(key.provider).enabled && 1 <= number <= maximum
  }

  function Ingested(s: Store, settings: ServiceSettings, key: RunKey, number: int, maximum: int, a: Acquired, t: Times,
                    faults: IngestFaults): (Store, Result<IngestResult, JobError>)
  {
    if !Accepts(settings, key, number, maximum) then (s, Err(PermanentJob))
    else if RunIsTerminal(s, key) then (s, Ok(Replay(s.runs[key])))
    else
      var w := WriteFor(a, settings.Of(key.provider), t);
      match Persisted(s, key, number, w)
      case Err(e) => (s, Err(StoreFailed(e)))
      case Ok(after) =>
        if faults.persist.commitFails then (s, Err(NotDurable))
        else if ResultFor(a).Some? then (after, Ok(ResultFor(a).value))
        else if w.status != Retryable then (after, Err(PermanentJob))
        else if number < maximum then (after, Err(RetryableJob))
        else if faults.finalise.commitFails then (after, Err(NotDurable))
        else (Finalized(after, key, EXHAUSTED), Err(PermanentJob))
  }

  /* ---------- The service object ---------- */

  class IngestionService {
    const settings: ServiceSettings
    const database: Database<Store>

    constructor (settings: ServiceSettings, database: Database<Store>)
      ensures this.settings == settings && this.database == database
    {
      this.settings := settings;
      this.database := database;
    }

    /** The transaction shared by the five persist methods: run, attempt, status, registration, provider state. */
    method Persist(key: RunKey, number: nat, w: Write, faults: Faults) returns (error: Option<JobError>)
      modifies database
      ensures match Persisted(old(database.committed), key, number, w)
              case Err(e) => error == Some(StoreFailed(e)) && database.committed == old(database.committed)
              case Ok(after) =>
                && error == (if faults.commitFails then Some(NotDurable) else None)
                && database.committed == if faults.commitFails then old(database.committed) else after
    {
      var connection := new Connection(database);
      var begun := connection.Begin();
      EnsureRun(connection, key, w.status);
      var failure := InsertAttempt(connection, key, number, AttemptOf(w));
      if failure.Some? {
        connection.Rollback(faults);
        return Some(StoreFailed(failure.value));
      }
      UpdateRunStatus(connection, key, w);
      var lastValid: Option<nat> := None;
      if w.published.Some? {
        failure := RegisterSnapshot(connection, key, w.published.value, w.observedAt);
        if failure.Some? {
          connection.Rollback(faults);
          return Some(StoreFailed(failure.value));
        }
        if w.replaceLastValid {
          lastValid := Some(w.published.value.id);
        }
      }
      UpsertProviderState(connection, key, w.code, lastValid, !(w.published.Some? && w.replaceLastValid),
                          w.nextEligible);
      var durable := connection.Commit(faults);
      error := if durable then None else Some(NotDurable);
    }

    static method EnsureRun(connection: Connection<Store>, key: RunKey, status: Label)
      requires connection.working.Some?
      modifies connection
      ensures connection.working == Some(WithRun(old(connection.working).value, key, status))
      ensures key in connection.working.value.runs
      ensures connection.working.value.runs[key] ==
              if key in old(connection.working).value.runs then old(connection.working).value.runs[key]
              else Run(status, None, None, "")
    {
      var tables := connection.working.value;
      if key !in tables.runs {
        connection.working := Some(tables.(runs := tables.runs[key := Run(status, None, None, "")]));
      }
    }

    static method InsertAttempt(connection: Connection<Store>, key: RunKey, number: nat, attempt: Attempt)
      returns (failure: Option<StoreError>)
      requires connection.working.Some?
      modifies connection
      ensures connection.working.Some?
      ensures match WithAttempt(old(connection.working).value, key, number, attempt)
              case Err(e) => failure == Some(e) && connection.working == old(connection.working)
              case Ok(after) => failure == None && connection.working.value == after
    {
      var tables := connection.working.value;
      if (key, number) in tables.attempts {
        return if tables.attempts[(key, number)] == attempt then None else Some(AttemptConflict);
      }
      connection.working := Some(tables.(attempts := tables.attempts[(key, number) := attempt]));
      failure := None;
    }

    static method UpdateRunStatus(connection: Connection<Store>, key: RunKey, w: Write)
      requires connection.working.Some? && key in connection.working.value.runs
      modifies connection
      ensures connection.working == Some(WithStatus(old(connection.working).value, key, w))
    {
      var tables := connection.working.value;
      var snapshot := tables.runs[key].snapshot;
      if w.published.Some? {
        snapshot := Some(w.published.value.id);
      }
      var run := Run(w.status, snapshot, w.blockReason, w.classification);
      connection.working := Some(tables.(runs := tables.runs[key := run]));
    }

    static method RegisterSnapshot(connection: Connection<Store>, key: RunKey, p: Snapshot, observedAt: int)
      returns (failure: Option<StoreError>)
      requires connection.working.Some?
      modifies connection
      ensures connection.working.Some?
      ensures match WithRegistration(old(connection.working).value, key, p, observedAt)
              case Err(e) => failure == Some(e) && connection.working == old(connection.working)
              case Ok(after) => failure == None && connection.working.value == after
    {
      var tables := connection.working.value;
      if p.id in tables.registrations {
        var known := tables.registrations[p.id];
        return if known.checksum == p.checksum && known.path == p.path && known.key.cycle == key.cycle then None
               else Some(RegistrationConflict);
      }
      if PathTaken(tables, p.path) || CycleRegistered(tables, key) {
        return Some(RegistrationConflict);
      }
      var row := Registration(key, p.checksum, p.path, observedAt);
      connection.working := Some(tables.(registrations := tables.registrations[p.id := row]));
      failure := None;
    }

    static method UpsertProviderState(connection: Connection<Store>, key: RunKey, code: Label, lastValid: Option<nat>,
                                      preserve: bool,
                                      nextEligible: Option<int>)
      requires connection.working.Some?
      modifies connection
      ensures connection.working ==
              Some(WithState(old(connection.working).value, key, code, lastValid, preserve, nextEligible))
    {
      var tables := connection.working.value;
      var slot := (key.provider, key.sport);
      var snapshot := lastValid;
      if slot in tables.states {
        var known := tables.states[slot].lastValid;
        if preserve && known.Some? {
          snapshot := known;
        }
        if snapshot.None? {
          snapshot := known;
        }
      }
      connection.working := Some(tables.(states := tables.states[slot := ProviderState(code, snapshot, nextEligible)]));
    }

    /** _finalize_terminal_failure */
    method FinaliseTerminalFailure(key: RunKey, classification: string, faults: Faults)
      returns (error: Option<JobError>)
      modifies database
      ensures error == if faults.commitFails then Some(NotDurable) else None
      ensures database.committed == if faults.commitFails then old(database.committed)
                                    else Finalized(old(database.committed), key, classification)
    {
      var connection := new Connection(database);
      var begun := connection.Begin();
      var tables := connection.working.value;
      if key in tables.runs {
        var failed := Run(Failed, tables.runs[key].snapshot, None, classification);
        connection.working := Some(tables.(runs := tables.runs[key := failed]));
        UpsertProviderState(connection, key, Unavailable, None, true, None);
      }
      var durable := connection.Commit(faults);
      error := if durable then None else Some(NotDurable);
    }

    /** A retryable ending: RetryableJob while attempts remain, else the run is finalised as failed. */
    method EndRetryable(key: RunKey, number: nat, maximum: int, reason: string, t: Times, faults: IngestFaults)
      returns (e: JobError)
      modifies database
      ensures var w := RetryableWrite(reason, t);
              match Persisted(old(database.committed), key, number, w)
              case Err(error) => e == StoreFailed(error) && database.committed == old(database.committed)
              case Ok(after) =>
                if faults.persist.commitFails then e == NotDurable && database.committed == old(database.committed)
                else if number < maximum then e == RetryableJob && database.committed == after
                else if faults.finalise.commitFails then e == NotDurable && database.committed == after
                else e == PermanentJob && database.committed == Finalized(after, key, EXHAUSTED)
    {
      hide Persisted, Finalized;
      var error := Persist(key, number, RetryableWrite(reason, t), faults.persist);
      if error.Some? {
        return error.value;
      }
      if number < maximum {
        return RetryableJob;
      }
      error := FinaliseTerminalFailure(key, EXHAUSTED, faults.finalise);
      e := if error.Some? then error.value else PermanentJob;
    }

    /** ingest */
    method Ingest(key: RunKey, number: int, maximum: int, acquired: Acquired, t: Times, faults: IngestFaults)
      returns (r: Result<IngestResult, JobError>)
      modifies database
      ensures (database.committed, r) ==
              Ingested(old(database.committed), settings, key, number, maximum, acquired, t, faults)
    {
      hide Persisted, Finalized;
      if !Accepts(settings, key, number, maximum) {
        return Err(PermanentJob);
      }
      if RunIsTerminal(database.committed, key) {
        return Ok(Replay(database.committed.runs[key]));
      }
      var policy := settings.Of(key.provider);
      match acquired {
        case SourceRetryable =>
          var e := EndRetryable(key, number, maximum, "retryable-source-error", t, faults);
          return Err(e);
        case SourcePermanent =>
          var error := Persist(key, number, FailureWrite("permanent-source-error", t), faults.persist);
          return Err(if error.Some? then error.value else PermanentJob);
        case Page(blockReason, normalises, admission, publication) =>
          if blockReason.Some? {
            var error := Persist(key, number, BlockedWrite(blockReason.value, policy, t), faults.persist);
            return if error.Some? then Err(error.value)
                   else Ok(IngestResult(Blocked, None, blockReason, blockReason.value));
          }
          if !normalises {
            var error := Persist(key, number, FailureWrite("normalize-error", t), faults.persist);
            return Err(if error.Some? then error.value else PermanentJob);
          }
          if !admission.mayPublish {
            var error := Persist(key, number, RejectedWrite(admission, policy, t), faults.persist);
            return if error.Some? then Err(error.value) else Ok(ResultFor(acquired).value);
          }
          match publication {
            case SnapshotBusy =>
              var e := EndRetryable(key, number, maximum, "snapshot-busy", t, faults);
              return Err(e);
            case PublicationFailed =>
              var error := Persist(key, number, FailureWrite("snapshot-publish-error", t), faults.persist);
              return Err(if error.Some? then error.value else PermanentJob);
            case Published(snapshot) =>
              var error := Persist(key, number, SuccessWrite(admission, snapshot, policy, t), faults.persist);
              return if error.Some? then Err(error.value) else Ok(ResultFor(acquired).value);
          }
      }
    }
  }

  /* ---------- Replays ---------- */

  /** A call that returns a result has written the run row for it. */
  lemma ResultIsWritten(s: Store, settings: ServiceSettings, key: RunKey, number: int, maximum: int, a: Acquired,
                        t: Times, faults: IngestFaults)
    requires Accepts(settings, key, number, maximum) && !RunIsTerminal(s, key)
    requires Ingested(s, settings, key, number, maximum, a, t, faults).1.Ok?
    ensures var (after, first) := Ingested(s, settings, key, number, maximum, a, t, faults);
            && ResultFor(a) == Some(first.value)
            && key in after.runs && after.runs[key] == RunAfter(s, key, WriteFor(a, settings.Of(key.provider), t))
  {
    hide Persisted, Registrable, WriteFor, ResultFor, Finalized;
    PersistedEffect(s, key, number, WriteFor(a, settings.Of(key.provider), t));
  }

  /** What a cycle returns and what it stores agree exactly when the page was blocked or was published exhaustively. */
  lemma ResultMatchesRow(s: Store, key: RunKey, a: Acquired, p: ProviderPolicy, t: Times, b: Bundle, n: Normalised,
                         verified: bool)
    requires ResultFor(a).Some? && (key in s.runs ==> s.runs[key].snapshot.None?)
    requires a.Page? ==> a.admission == Evaluate(a.blockReason, b, n, verified)
    ensures Terminal(RunAfter(s, key, WriteFor(a, p, t)).status)
    ensures Replay(RunAfter(s, key, WriteFor(a, p, t))) == ResultFor(a).value <==>
            a.blockReason.Some? || (a.admission.mayPublish && a.admission.exhaustive)
  {
    RefusedOutcomes(a.blockReason, b, n, verified);
    hide Evaluate;
  }

  /**
   * A finished cycle that is asked for again answers from its run row and writes nothing. The answer equals
   * the first one exactly when the page was blocked or was published exhaustively.
   */
  lemma ReplayAgreesExactly(s: Store, settings: ServiceSettings, key: RunKey, number: int, maximum: int, a: Acquired,
                            t: Times,
                            faults: IngestFaults, again: Acquired, later: Times, b: Bundle, n: Normalised,
                            verified: bool)
    requires Accepts(settings, key, number, maximum) && !RunIsTerminal(s, key)
    requires Ingested(s, settings, key, number, maximum, a, t, faults).1.Ok?
    requires key in s.runs ==> s.runs[key].snapshot.None?
    requires a.Page? ==> a.admission == Evaluate(a.blockReason, b, n, verified)
    ensures ResultFor(a).Some?
    ensures var (after, first) := Ingested(s, settings, key, number, maximum, a, t, faults);
            var (kept, second) := Ingested(after, settings, key, number, maximum, again, later, faults);
            kept == after && second.Ok? &&
            (second == first <==> a.blockReason.Some? || (a.admission.mayPublish && a.admission.exhaustive))
  {
    hide Persisted, WriteFor, ResultFor, Finalized, Evaluate, Replay, RunAfter;
    ResultIsWritten(s, settings, key, number, maximum, a, t, faults);
    ResultMatchesRow(s, key, a, settings.Of(key.provider), t, b, n, verified);
  }

  /** A partial page that is published comes back as partial first, and as succeeded from then on. */
  lemma ReplayOfPartialDiffers()
    ensures var policy := ProviderPolicy(true, 300, 900); var settings := ServiceSettings(true, policy, policy);
            var key, t, faults := RunKey(Betano, "football", "cycle"), Times(0, 0), IngestFaults(NO_FAULTS, NO_FAULTS);
            var page := Page(None, true, PUBLISHED_PARTIAL, Published(Snapshot(7, "checksum", "path")));
            var (after, first) := Ingested(EMPTY, settings, key, 1, 2, page, t, faults);
            && first == Ok(IngestResult(Partial, Some(7), None, ""))
            && Ingested(after, settings, key, 2, 2, page, t, faults) ==
               (after, Ok(IngestResult(Succeeded, Some(7), None, "")))
    ensures Evaluate(None, OneEvent(Incomplete), Normalised(1, 0, 0, true), true) == PUBLISHED_PARTIAL
  {
    hide Persisted, Evaluate;
    OneEventAdmitted(Incomplete);
    var policy := ProviderPolicy(true, 300, 900);
    var page := Page(None, true, PUBLISHED_PARTIAL, Published(Snapshot(7, "checksum", "path")));
    var key, w := RunKey(Betano, "football", "cycle"), WriteFor(page, policy, Times(0, 0));
    assert SUPPORTED_SPORTS[1] == "football";
    assert Registrable(EMPTY, key, w.published.value);
    PersistedEffect(EMPTY, key, 1, w);
  }
}
