/** The acquisition tables and the repository statements on them (data/repositories/bookmakers.py). */
module AcquisitionStore {
  import opened Wrappers
  import opened Providers
  import opened Admission
  import Fallback

  /* Rows are found by their natural keys; generated run and attempt identifiers are left out. */

  datatype RunKey = RunKey(provider: Provider, sport: string, cycle: string)

  datatype Run = Run(status: Label, snapshot: Option<nat>, blockReason: Option<string>, classification: string)

  datatype Attempt = Attempt(outcome: Label, classification: Option<string>, detail: Option<string>)

  /** A published snapshot, as handed over for registration. */
  datatype Snapshot = Snapshot(id: nat, checksum: string, path: string)

  datatype Registration = Registration(key: RunKey, checksum: string, path: string, observedAt: int)

  datatype ProviderState = ProviderState(code: Label, lastValid: Option<nat>, nextEligible: Option<int>)

  datatype Store = Store(
    runs: map<RunKey, Run>,
    attempts: map<(RunKey, nat), Attempt>,
    registrations: map<nat, Registration>,
    states: map<(Provider, string), ProviderState>,
    decisions: seq<Fallback.DecisionRow>)

  const EMPTY := Store(map[], map[], map[], map[], [])

  datatype StoreError = AttemptConflict | RegistrationConflict

  /** Everything one persisting transaction writes. */
  datatype Write = Write(
    status: Label,
    outcome: Label,
    classification: string,
    attemptClassification: Option<string>,
    detail: Option<string>,
    blockReason: Option<string>,
    published: Option<Snapshot>,
    observedAt: int,
    code: Label,
    replaceLastValid: bool,
    nextEligible: Option<int>)

  predicate Terminal(status: Label) {
    status == Succeeded || status == Blocked || status == Failed
  }

  predicate RunIsTerminal(s: Store, key: RunKey) {
    key in s.runs && Terminal(s.runs[key].status)
  }

  /** _ensure_run */
  function WithRun(s: Store, key: RunKey, status: Label): Store {
    if key in s.runs then s else s.(runs := s.runs[key := Run(status, None, None, "")])
  }

  /** insert_acquisition_attempt: an equal replay is ignored, a different one conflicts. */
  function WithAttempt(s: Store, key: RunKey, number: nat, attempt: Attempt): Result<Store, StoreError> {
    if (key, number) !in s.attempts then Ok(s.(attempts := s.attempts[(key, number) := attempt]))
    else if s.attempts[(key, number)] == attempt then Ok(s)
    else Err(AttemptConflict)
  }

  /** update_acquisition_run_status: the snapshot is COALESCE(new, old). */
  function WithStatus(s: Store, key: RunKey, w: Write): Store
    requires key in s.runs
  {
    var snapshot := if w.published.Some? then Some(w.published.value.id) else s.runs[key].snapshot;
    s.(runs := s.runs[key := Run(w.status, snapshot, w.blockReason, w.classification)])
  }

  predicate PathTaken(s: Store, path: string) {
    exists id <- s.registrations :: s.registrations[id].path == path
  }

  predicate CycleRegistered(s: Store, key: RunKey) {
    exists id <- s.registrations :: s.registrations[id].key == key
  }

  /** register_snapshot: a known id must repeat its checksum, path and cycle; provider and sport are not compared. */
  function WithRegistration(s: Store, key: RunKey, p: Snapshot, observedAt: int): Result<Store, StoreError> {
    if p.id in s.registrations then
      var known := s.registrations[p.id];
      if known.checksum == p.checksum && known.path == p.path && known.key.cycle == key.cycle then Ok(s)
      else Err(RegistrationConflict)
    else if PathTaken(s, p.path) || CycleRegistered(s, key) then Err(RegistrationConflict)
    else Ok(s.(registrations := s.registrations[p.id := Registration(key, p.checksum, p.path, observedAt)]))
  }

  /** upsert_provider_status, its preserve flag and its COALESCE together. */
  function WithState(s: Store, key: RunKey, code: Label, lastValid: Option<nat>, preserve: bool,
                     nextEligible: Option<int>): Store
  {
    var slot := (key.provider, key.sport);
    var known := if slot in s.states then s.states[slot].lastValid else None;
    var offered := if preserve && known.Some? then known else lastValid;
    s.(states := s.states[slot := ProviderState(code, if offered.Some? then offered else known, nextEligible)])
  }

  /** The statements of one persisting transaction, in their order; an error undoes them all. */
  function Persisted(s: Store, key: RunKey, number: nat, w: Write): Result<Store, StoreError> {
    match WithAttempt(WithRun(s, key, w.status), key, number, Attempt(w.outcome, w.attemptClassification, w.detail))
    case Err(e) => Err(e)
    case Ok(attempted) =>
      assert key in attempted.runs;
      var updated := WithStatus(attempted, key, w);
      if w.published.None? then Ok(WithState(updated, key, w.code, None, true, w.nextEligible))
      else
        match WithRegistration(updated, key, w.published.value, w.observedAt)
        case Err(e) => Err(e)
        case Ok(registered) =>
          var id := w.published.value.id;
          Ok(WithState(registered, key, w.code, if w.replaceLastValid then Some(id)
                                                else None, !w.replaceLastValid, w.nextEligible))
  }

  /** _finalize_terminal_failure: nothing happens without a run. */
  function Finalized(s: Store, key: RunKey, classification: string): Store {
    if key !in s.runs then s
    else
      var run := s.runs[key];
      WithState(s.(runs := s.runs[key := Run(Failed, run.snapshot, None, classification)]), key, Unavailable, None,
                true, None)
  }

  /* ---------- What a transaction does to the parts the guarantees speak of ---------- */

  function LastValid(s: Store, provider: Provider, sport: string): Option<nat> {
    if (provider, sport) in s.states then s.states[(provider, sport)].lastValid else None
  }

  function AttemptOf(w: Write): Attempt {
    Attempt(w.outcome, w.attemptClassification, w.detail)
  }

  /** The run row that a persisting transaction leaves. */
  function RunAfter(s: Store, key: RunKey, w: Write): Run {
    var known := if key in s.runs then s.runs[key].snapshot else None;
    Run(w.status, if w.published.Some? then Some(w.published.value.id) else known, w.blockReason, w.classification)
  }

  /** A known snapshot is registered again under another provider or sport, or a new one is added. */
  predicate Registrable(s: Store, key: RunKey, p: Snapshot) {
    if p.id in s.registrations then
      var known := s.registrations[p.id];
      known.checksum == p.checksum && known.path == p.path && known.key.cycle == key.cycle
    else !PathTaken(s, p.path) && !CycleRegistered(s, key)
  }

  /** The combined effect of the statements, and exactly when they fail. */
  lemma PersistedEffect(s: Store, key: RunKey, number: nat, w: Write)
    ensures Persisted(s, key, number, w).Ok? <==>
            && ((key, number) in s.attempts ==> s.attempts[(key, number)] == AttemptOf(w))
            && (w.published.Some? ==> Registrable(s, key, w.published.value))
    ensures Persisted(s, key, number, w).Err? ==>
              Persisted(s, key, number, w).error ==
              if (key, number) in s.attempts && s.attempts[(key, number)] != AttemptOf(w) then AttemptConflict
              else RegistrationConflict
    ensures Persisted(s, key, number, w).Ok? ==>
              var after := Persisted(s, key, number, w).value;
              && after.runs == s.runs[key := RunAfter(s, key, w)]
              && after.attempts == s.attempts[(key, number) := AttemptOf(w)]
              && after.decisions == s.decisions
              && after.registrations ==
                 (if w.published.None? || w.published.value.id in s.registrations then s.registrations
                  else var p := w.published.value;
                       s.registrations[p.id := Registration(key, p.checksum, p.path, w.observedAt)])
              && after.states == s.states[(key.provider, key.sport) := ProviderState(w.code,
                   if w.published.Some? && w.replaceLastValid then Some(w.published.value.id)
                   else LastValid(s, key.provider, key.sport),
                   w.nextEligible)]
  {
    hide PathTaken, CycleRegistered, WithRun, WithAttempt, WithStatus, WithRegistration, WithState, RunAfter,
         Registrable, LastValid;
    AttemptEffect(s, key, number, w);
    var attempted := WithAttempt(WithRun(s, key, w.status), key, number, AttemptOf(w));
    if attempted.Ok? {
      var updated := WithStatus(attempted.value, key, w);
      if w.published.None? {
        StateEffect(s, updated, key, w, None, true);
      } else {
        RegistrationEffect(s, updated, key, w);
        var registered := WithRegistration(updated, key, w.published.value, w.observedAt);
        if registered.Ok? {
          var id := w.published.value.id;
          StateEffect(s, registered.value, key, w, if w.replaceLastValid then Some(id) else None, !w.replaceLastValid);
        }
      }
    }
  }

  lemma AttemptEffect(s: Store, key: RunKey, number: nat, w: Write)
    ensures var attempted := WithAttempt(WithRun(s, key, w.status), key, number, AttemptOf(w));
            && (attempted.Ok? <==> ((key, number) in s.attempts ==> s.attempts[(key, number)] == AttemptOf(w)))
            && (attempted.Err? ==> attempted.error == AttemptConflict)
            && (attempted.Ok? ==>
                  && key in attempted.value.runs
                  && WithStatus(attempted.value, key, w) ==
                     s.(runs := s.runs[key := RunAfter(s, key, w)],
                        attempts := s.attempts[(key, number) := AttemptOf(w)]))
  {
    var ran, run := WithRun(s, key, w.status), RunAfter(s, key, w);
    var attempted := WithAttempt(ran, key, number, AttemptOf(w));
    assert ran.runs[key := run] == s.runs[key := run];
    if attempted.Ok? {
      assert attempted.value == ran.(attempts := s.attempts[(key, number) := AttemptOf(w)]);
      assert WithStatus(attempted.value, key, w) == attempted.value.(runs := ran.runs[key := run]);
    }
  }

  lemma RegistrationEffect(s: Store, updated: Store, key: RunKey, w: Write)
    requires w.published.Some? && updated.registrations == s.registrations
    ensures var p := w.published.value; var registered := WithRegistration(updated, key, p, w.observedAt);
            && (registered.Ok? <==> Registrable(s, key, p))
            && (registered.Err? ==> registered.error == RegistrationConflict)
            && (registered.Ok? ==> registered.value == updated.(registrations :=
                  if p.id in s.registrations then s.registrations
                  else s.registrations[p.id := Registration(key, p.checksum, p.path, w.observedAt)]))
  {
    hide PathTaken, CycleRegistered;
    SameRegistrations(s, updated, key, w.published.value.path);
  }

  lemma StateEffect(s: Store, before: Store, key: RunKey, w: Write, lastValid: Option<nat>, preserve: bool)
    requires before.states == s.states && (preserve <==> lastValid.None?)
    ensures WithState(before, key, w.code, lastValid, preserve, w.nextEligible) == before.(states :=
              s.states[(key.provider, key.sport) := ProviderState(w.code,
                if lastValid.Some? then lastValid else LastValid(s, key.provider, key.sport), w.nextEligible)])
  {
  }

  lemma SameRegistrations(s: Store, t: Store, key: RunKey, path: string)
    requires s.registrations == t.registrations
    ensures PathTaken(s, path) == PathTaken(t, path) && CycleRegistered(s, key) == CycleRegistered(t, key)
  {
  }
}
