/** The acquisition protocol over all its runs. */
module AcquisitionRuns {
  import opened Wrappers
  import opened Providers
  import opened Admission
  import opened AcquisitionStore
  import opened AcquisitionService

  /*
   * Any number of cycles interleave and may crash between transactions, while the job lease keeps two workers from
   * ingesting the same cycle at once.
   */

  /** A cycle being ingested: acquiring, or past its last retryable attempt and about to be finalised. */
  datatype Phase = Acquiring | Exhausted

  datatype System = System(store: Store, flights: map<RunKey, Phase>)

  datatype Action =
    | Begin(key: RunKey)
    | Finish(key: RunKey, number: nat, maximum: nat, acquired: Acquired, policy: ProviderPolicy, t: Times,
             commits: bool)
    | Finalise(key: RunKey, commits: bool)
    | Crash(key: RunKey)

  /** What a Finish action writes, if it is enabled, commits and meets no conflict. */
  function Written(y: System, action: Action): Option<Write> {
    if action.Finish? && action.key in y.flights && y.flights[action.key] == Acquiring && action.commits then
      var w := WriteFor(action.acquired, action.policy, action.t);
      if Persisted(y.store, action.key, action.number, w).Ok? then Some(w) else None
    else None
  }

  function Act(y: System, action: Action): System {
    match action
    case Begin(key) =>
      if key in y.flights || RunIsTerminal(y.store, key) then y else y.(flights := y.flights[key := Acquiring])
    case Finish(key, number, maximum, _, _, _, _) =>
      if key !in y.flights || y.flights[key] != Acquiring then y
      else
        var w := Written(y, action);
        if w.None? then y.(flights := y.flights - {key})
        else
          System(Persisted(y.store, key, number, w.value).value,
                 if w.value.status == Retryable && number >= maximum then y.flights[key := Exhausted]
                 else y.flights - {key})
    case Finalise(key, commits) =>
      if key !in y.flights || y.flights[key] != Exhausted then y
      else System(if commits then Finalized(y.store, key, EXHAUSTED) else y.store, y.flights - {key})
    case Crash(key) => y.(flights := y.flights - {key})
  }

  ghost function After(y: System, actions: seq<Action>): System
    decreases |actions|
  {
    if actions == [] then y else Act(After(y, actions[..|actions| - 1]), actions[|actions| - 1])
  }

  const START := System(EMPTY, map[])

  /* ---------- The invariant ---------- */

  /** A succeeded run, and no other, names a snapshot, and that one is registered under the run's cycle identifier. */
  predicate RunsNameSnapshots(s: Store) {
    forall key <- s.runs ::
      && (Terminal(s.runs[key].status) || s.runs[key].status == Retryable)
      && (s.runs[key].status == Succeeded <==> s.runs[key].snapshot.Some?)
      && (s.runs[key].snapshot.Some? ==>
            && s.runs[key].snapshot.value in s.registrations
            && s.registrations[s.runs[key].snapshot.value].key.cycle == key.cycle)
  }

  predicate FlightsAreOpen(y: System) {
    forall key <- y.flights ::
      && (key in y.store.runs ==> y.store.runs[key].status == Retryable)
      && (y.flights[key] == Exhausted ==> key in y.store.runs)
  }

  predicate LastValidRegistered(s: Store) {
    forall slot <- s.states :: s.states[slot].lastValid.Some? ==> s.states[slot].lastValid.value in s.registrations
  }

  predicate Safe(y: System) {
    RunsNameSnapshots(y.store) && FlightsAreOpen(y) && LastValidRegistered(y.store)
  }

  /** What a write can say: only a success publishes. */
  lemma WriteShape(a: Acquired, p: ProviderPolicy, t: Times)
    ensures var w := WriteFor(a, p, t);
            && (w.status == Succeeded <==> w.published.Some?)
            && w.status in {Succeeded, Blocked, Failed, Retryable}
            && (w.published.Some? ==>
                  a.Page? && a.blockReason.None? && a.admission.mayPublish &&
                  a.publication == Published(w.published.value)
                  && w.replaceLastValid == a.admission.mayReplaceLastValid)
  {
  }

  lemma FinishKeepsSafe(y: System, action: Action)
    requires Safe(y) && action.Finish?
    ensures Safe(Act(y, action))
  {
    hide Persisted, Registrable, WriteFor;
    var w := Written(y, action);
    if w.Some? {
      WriteShape(action.acquired, action.policy, action.t);
      PersistedEffect(y.store, action.key, action.number, w.value);
      assert w.value.published.Some? ==> Registrable(y.store, action.key, w.value.published.value);
      PublishedIsRegistered(y.store, action.key, action.number, w.value);
    }
  }

  lemma PublishedIsRegistered(s: Store, key: RunKey, number: nat, w: Write)
    requires Persisted(s, key, number, w).Ok?
    ensures var after := Persisted(s, key, number, w).value;
            && (forall id <- s.registrations ::
                  id in after.registrations && after.registrations[id] == s.registrations[id])
            && (w.published.Some? ==>
                  w.published.value.id in after.registrations &&
                  after.registrations[w.published.value.id].key.cycle == key.cycle)
  {
    hide Persisted, PathTaken, CycleRegistered;
    PersistedEffect(s, key, number, w);
  }

  lemma FinaliseKeepsSafe(y: System, action: Action)
    requires Safe(y) && action.Finalise?
    ensures Safe(Act(y, action))
  {
    var key := action.key;
    if key in y.flights && y.flights[key] == Exhausted && action.commits {
      assert y.store.runs[key].snapshot.None?;
      var after := Act(y, action);
      assert after.store.registrations == y.store.registrations;
      assert after.store.runs == y.store.runs[key := Run(Failed, None, None, EXHAUSTED)];
      assert forall slot <- after.store.states :: after.store.states[slot].lastValid.Some? ==>
               slot in y.store.states && after.store.states[slot].lastValid == y.store.states[slot].lastValid;
    }
  }

  lemma ActKeepsSafe(y: System, action: Action)
    requires Safe(y)
    ensures Safe(Act(y, action))
  {
    if action.Finish? {
      FinishKeepsSafe(y, action);
    } else if action.Finalise? {
      FinaliseKeepsSafe(y, action);
    }
  }

  lemma {:induction false} EveryRunIsSafe(actions: seq<Action>)
    ensures Safe(After(START, actions))
  {
    if actions != [] {
      hide Act, Safe;
      EveryRunIsSafe(actions[..|actions| - 1]);
      ActKeepsSafe(After(START, actions[..|actions| - 1]), actions[|actions| - 1]);
    } else {
      assert Safe(START);
    }
  }

  /* ---------- Terminal runs are final ---------- */

  lemma ActKeepsTerminal(y: System, action: Action, key: RunKey)
    requires Safe(y) && RunIsTerminal(y.store, key)
    ensures key in Act(y, action).store.runs && Act(y, action).store.runs[key] == y.store.runs[key]
  {
    hide Persisted, Registrable, WriteFor;
    var w := Written(y, action);
    if w.Some? {
      PersistedEffect(y.store, action.key, action.number, w.value);
    }
  }

  /** Once a run has succeeded, been blocked or failed, its row never changes again. */
  lemma {:induction false} TerminalIsFinal(before: seq<Action>, later: seq<Action>, key: RunKey)
    requires RunIsTerminal(After(START, before).store, key)
    ensures key in After(After(START, before), later).store.runs
    ensures After(After(START, before), later).store.runs[key] == After(START, before).store.runs[key]
    decreases |later|
  {
    if later != [] {
      hide Act, Safe;
      var front := later[..|later| - 1];
      TerminalIsFinal(before, front, key);
      AfterTwice(START, before, front);
      EveryRunIsSafe(before + front);
      ActKeepsTerminal(After(After(START, before), front), later[|later| - 1], key);
    }
  }

  lemma {:induction false} AfterTwice(y: System, first: seq<Action>, second: seq<Action>)
    ensures After(After(y, first), second) == After(y, first + second)
    decreases |second|
  {
    hide Act;
    if second == [] {
      assert first + second == first;
    } else {
      var front := second[..|second| - 1];
      AfterTwice(y, first, front);
      assert (first + second)[..|first + second| - 1] == first + front;
    }
  }

  lemma NothingDone(actions: seq<Action>)
    requires actions == []
    ensures After(START, actions) == START
  {
  }

  lemma NextAfter(actions: seq<Action>, n: nat)
    requires n < |actions|
    ensures After(START, actions[..n + 1]) == Act(After(START, actions[..n]), actions[n])
  {
    assert actions[..n + 1][..n] == actions[..n];
  }

  /* ---------- The last valid snapshot ---------- */

  /** The snapshot of the latest durable admitted publication for the provider and sport. */
  ghost function LastAdmitted(actions: seq<Action>, provider: Provider, sport: string): Option<nat> {
    if actions == [] then None
    else
      var front, action := actions[..|actions| - 1], actions[|actions| - 1];
      var w := Written(After(START, front), action);
      if && w.Some? && w.value.published.Some? && action.acquired.admission.mayReplaceLastValid
         && action.key.provider == provider && action.key.sport == sport
      then Some(w.value.published.value.id)
      else LastAdmitted(front, provider, sport)
  }

  lemma ActMovesLastValid(y: System, action: Action, provider: Provider, sport: string)
    ensures var w := Written(y, action);
            LastValid(Act(y, action).store, provider, sport) ==
            if && w.Some? && w.value.published.Some? && w.value.replaceLastValid
               && action.key.provider == provider && action.key.sport == sport
            then Some(w.value.published.value.id) else LastValid(y.store, provider, sport)
  {
    hide Persisted, Registrable, WriteFor;
    var w := Written(y, action);
    if w.Some? {
      PersistedEffect(y.store, action.key, action.number, w.value);
    }
  }

  /**
   * In every reachable state the last valid snapshot is that of the latest admitted publication:
   * blocked, failed, retryable, rejected and partial cycles, crashes and rollbacks all leave it alone.
   */
  lemma {:induction false} LastValidIsLastAdmitted(actions: seq<Action>, provider: Provider, sport: string)
    ensures LastValid(After(START, actions).store, provider, sport) == LastAdmitted(actions, provider, sport)
  {
    if actions != [] {
      hide Act, WriteFor, Persisted;
      var front, action := actions[..|actions| - 1], actions[|actions| - 1];
      LastValidIsLastAdmitted(front, provider, sport);
      ActMovesLastValid(After(START, front), action, provider, sport);
      if action.Finish? {
        WriteShape(action.acquired, action.policy, action.t);
      }
    }
  }

  /* ---------- Ownership ---------- */

  /** A run names a snapshot only if that snapshot is registered for the run's own provider, sport and cycle. */
  predicate NamesItsOwn(s: Store) {
    forall key <- s.runs :: s.runs[key].snapshot.Some? ==>
      s.runs[key].snapshot.value in s.registrations && s.registrations[s.runs[key].snapshot.value].key == key
  }

  /** Runs and registrations match one to one, and last valid snapshots are of their own provider and sport. */
  predicate Owned(s: Store) {
    && NamesItsOwn(s)
    && (forall id <- s.registrations ::
          s.registrations[id].key in s.runs && s.runs[s.registrations[id].key].snapshot == Some(id))
    && (forall slot <- s.states :: s.states[slot].lastValid.Some? ==>
          && s.states[slot].lastValid.value in s.registrations
          && var owner := s.registrations[s.states[slot].lastValid.value].key;
             owner.provider == slot.0 && owner.sport == slot.1)
  }

  /** A publication that is stored brings a new snapshot, or one already registered under the very same key. */
  predicate PublishesOwn(y: System, action: Action) {
    var w := Written(y, action);
    w.Some? && w.value.published.Some? && w.value.published.value.id in y.store.registrations ==>
      y.store.registrations[w.value.published.value.id].key == action.key
  }

  lemma PersistKeepsOwned(s: Store, key: RunKey, number: nat, w: Write)
    requires Owned(s) && Persisted(s, key, number, w).Ok?
    requires w.published.Some? && w.published.value.id in s.registrations ==>
               s.registrations[w.published.value.id].key == key
    requires key in s.runs ==> s.runs[key].snapshot.None?
    ensures Owned(Persisted(s, key, number, w).value)
  {
    hide Persisted, Registrable;
    PersistedEffect(s, key, number, w);
  }

  lemma ActKeepsOwned(y: System, action: Action)
    requires Safe(y) && Owned(y.store) && PublishesOwn(y, action)
    ensures Owned(Act(y, action).store)
  {
    hide Persisted, Registrable, WriteFor;
    if action.Finish? {
      hide Owned;
      var w := Written(y, action);
      if w.Some? {
        WriteShape(action.acquired, action.policy, action.t);
        PersistKeepsOwned(y.store, action.key, action.number, w.value);
      }
    }
  }

  /** A publication of another run's snapshot leaves a run that names it. */
  lemma ForeignSnapshotIsNamed(y: System, action: Action)
    requires Safe(y) && !PublishesOwn(y, action)
    ensures !NamesItsOwn(Act(y, action).store)
  {
    hide Persisted, Registrable, WriteFor, Safe;
    var w := Written(y, action).value;
    PersistedEffect(y.store, action.key, action.number, w);
    assert Act(y, action).store.runs[action.key].snapshot == Some(w.published.value.id);
  }

  /** A run that names another's snapshot keeps naming it. */
  lemma ForeignNameStays(y: System, action: Action)
    requires Safe(y) && !NamesItsOwn(y.store)
    ensures !NamesItsOwn(Act(y, action).store)
  {
    hide Act, Persisted, Registrable, WriteFor;
    var key :| key in y.store.runs && y.store.runs[key].snapshot.Some?
               && y.store.registrations[y.store.runs[key].snapshot.value].key != key;
    ActKeepsTerminal(y, action, key);
    RegistrationsStay(y, action);
  }

  lemma RegistrationsStay(y: System, action: Action)
    ensures forall id <- y.store.registrations ::
              id in Act(y, action).store.registrations &&
              Act(y, action).store.registrations[id] == y.store.registrations[id]
  {
    hide Persisted, Registrable, WriteFor;
    var w := Written(y, action);
    if w.Some? {
      PersistedEffect(y.store, action.key, action.number, w.value);
    }
  }

  /** Snapshots and runs match one to one if and only if no stored publication repeated another run's snapshot. */
  lemma {:induction false} OwnedExactly(actions: seq<Action>)
    ensures Owned(After(START, actions).store) <==>
            forall n :: 0 <= n < |actions| ==> PublishesOwn(After(START, actions[..n]), actions[n])
    ensures Owned(After(START, actions).store) <==> NamesItsOwn(After(START, actions).store)
  {
    hide Act, After, Safe, Owned, NamesItsOwn, PublishesOwn;
    if actions == [] {
      NothingDone(actions);
      NothingNamed();
    } else {
      var front, action := actions[..|actions| - 1], actions[|actions| - 1];
      OwnedExactly(front);
      EveryRunIsSafe(front);
      NextAfter(actions, |front|);
      assert actions[..|actions|] == actions;
      var y := After(START, front);
      forall n | 0 <= n < |front| ensures actions[..n] == front[..n] && actions[n] == front[n] {
      }
      if Owned(y.store) && PublishesOwn(y, action) {
        ActKeepsOwned(y, action);
        OwnedNames(Act(y, action).store);
      } else {
        if !PublishesOwn(y, action) {
          ForeignSnapshotIsNamed(y, action);
        } else {
          ForeignNameStays(y, action);
        }
        if Owned(Act(y, action).store) {
          OwnedNames(Act(y, action).store);
        }
      }
    }
  }

  lemma OwnedNames(s: Store)
    requires Owned(s)
    ensures NamesItsOwn(s)
  {
  }

  lemma NothingNamed()
    ensures Owned(START.store) && NamesItsOwn(START.store)
  {
  }

  /** The publisher derives a snapshot's identity from the cycle, so no two cycles ever publish the same one. */
  predicate PublishesItsOwn(action: Action, origin: nat -> RunKey) {
    action.Finish? && action.acquired.Page? && action.acquired.publication.Published? ==>
      origin(action.acquired.publication.snapshot.id) == action.key
  }

  predicate RegisteredByOrigin(s: Store, origin: nat -> RunKey) {
    forall id <- s.registrations :: s.registrations[id].key == origin(id)
  }

  lemma ActKeepsOrigin(y: System, action: Action, origin: nat -> RunKey)
    requires RegisteredByOrigin(y.store, origin) && PublishesItsOwn(action, origin)
    ensures RegisteredByOrigin(Act(y, action).store, origin) && PublishesOwn(y, action)
  {
    hide Persisted, Registrable, WriteFor;
    var w := Written(y, action);
    if w.Some? {
      WriteShape(action.acquired, action.policy, action.t);
      PersistedEffect(y.store, action.key, action.number, w.value);
    }
  }

  lemma {:induction false} OriginStays(actions: seq<Action>, origin: nat -> RunKey, n: nat)
    requires n <= |actions| && forall action <- actions :: PublishesItsOwn(action, origin)
    ensures RegisteredByOrigin(After(START, actions[..n]).store, origin)
  {
    hide Act, PublishesItsOwn, RegisteredByOrigin;
    if n == 0 {
      assert RegisteredByOrigin(START.store, origin) by { NothingRegistered(origin); }
    } else {
      OriginStays(actions, origin, n - 1);
      NextAfter(actions, n - 1);
      ActKeepsOrigin(After(START, actions[..n - 1]), actions[n - 1], origin);
    }
  }

  lemma NothingRegistered(origin: nat -> RunKey)
    ensures RegisteredByOrigin(START.store, origin)
  {
  }

  /** Identities derived from the cycle are enough for that, whatever else happens. */
  lemma EveryRunIsOwned(actions: seq<Action>, origin: nat -> RunKey)
    requires forall action <- actions :: PublishesItsOwn(action, origin)
    ensures Owned(After(START, actions).store)
  {
    hide After, Act, Owned, PublishesOwn, PublishesItsOwn, RegisteredByOrigin;
    forall n | 0 <= n < |actions| ensures PublishesOwn(After(START, actions[..n]), actions[n]) {
      OriginStays(actions, origin, n);
      ActKeepsOrigin(After(START, actions[..n]), actions[n], origin);
    }
    OwnedExactly(actions);
  }

  const POLICY := ProviderPolicy(true, 300, 900)
  const TIMES := Times(0, 0)

  /** An admitted page, published. */
  const PAGE := Page(None, true, ADMITTED, Published(Snapshot(7, "checksum", "path")))

  lemma FirstPublication(key: RunKey, number: nat)
    ensures WriteFor(PAGE, POLICY, TIMES).status == Succeeded
    ensures var r := Persisted(EMPTY, key, number, WriteFor(PAGE, POLICY, TIMES));
            && r.Ok?
            && r.value.runs == map[key := Run(Succeeded, Some(7), None, "")]
            && r.value.registrations == map[7 := Registration(key, "checksum", "path", 0)]
            && r.value.attempts.Keys == {(key, number)}
            && r.value.states ==
               map[(key.provider, key.sport) := ProviderState(Operational, Some(7), Some(300 * SECOND))]
  {
    hide Persisted;
    var w := WriteFor(PAGE, POLICY, TIMES);
    PersistedEffect(EMPTY, key, number, w);
    assert Registrable(EMPTY, key, w.published.value);
  }

  const BETANO_KEY := RunKey(Betano, "football", "cycle")
  const BETCLIC_KEY := RunKey(Betclic, "football", "cycle")

  /** Two providers ingest under one cycle identifier and publish the same snapshot. */
  const REPEATED: seq<Action> := [
    Begin(BETANO_KEY), Finish(BETANO_KEY, 1, 1, PAGE, POLICY, TIMES, true),
    Begin(BETCLIC_KEY), Finish(BETCLIC_KEY, 1, 1, PAGE, POLICY, TIMES, true)]

  lemma FirstProviderPublishes()
    ensures var y := After(START, REPEATED[..2]);
            && y.flights == map[]
            && y.store.runs == map[BETANO_KEY := Run(Succeeded, Some(7), None, "")]
            && y.store.registrations == map[7 := Registration(BETANO_KEY, "checksum", "path", 0)]
            && y.store.attempts.Keys == {(BETANO_KEY, 1)}
  {
    hide Persisted, WriteFor, After;
    NextAfter(REPEATED, 0);
    NextAfter(REPEATED, 1);
    assert After(START, REPEATED[..0]) == START by { NothingDone(REPEATED[..0]); }
    FirstPublication(BETANO_KEY, 1);
  }

  /**
   * Registering a known snapshot compares checksum, path and cycle, but not the provider: the second run names it too.
   */
  lemma RegistrationIgnoresProvider()
    ensures var s := After(START, REPEATED).store;
            && BETANO_KEY in s.runs && s.runs[BETANO_KEY].snapshot == Some(7)
            && BETCLIC_KEY in s.runs && s.runs[BETCLIC_KEY].snapshot == Some(7)
            && LastValid(s, Betclic, "football") == Some(7)
            && 7 in s.registrations && s.registrations[7].key == BETANO_KEY && !Owned(s)
  {
    hide Persisted, After;
    FirstProviderPublishes();
    NextAfter(REPEATED, 2);
    NextAfter(REPEATED, 3);
    assert REPEATED[..4] == REPEATED;
    var w := WriteFor(PAGE, POLICY, TIMES);
    PersistedEffect(After(START, REPEATED[..3]).store, BETCLIC_KEY, 1, w);
  }

  /* ---------- A call of ingest is a run of actions ---------- */

  /** The actions of one ingest call that is accepted and not interrupted. */
  function CallActions(key: RunKey, number: nat, maximum: nat, a: Acquired, policy: ProviderPolicy, t: Times,
                       faults: IngestFaults): seq<Action>
  {
    [Begin(key), Finish(key, number, maximum, a, policy, t, !faults.persist.commitFails),
     Finalise(key, !faults.finalise.commitFails)]
  }

  lemma IngestIsActions(y: System, settings: ServiceSettings, key: RunKey, number: nat, maximum: nat, a: Acquired,
                        t: Times,
                        faults: IngestFaults)
    requires Accepts(settings, key, number, maximum) && key !in y.flights
    ensures After(y, CallActions(key, number, maximum, a, settings.Of(key.provider), t, faults))
         == System(Ingested(y.store, settings, key, number, maximum, a, t, faults).0, y.flights)
  {
    hide Persisted, Finalized, WriteFor;
    var actions := CallActions(key, number, maximum, a, settings.Of(key.provider), t, faults);
    assert actions[..2][..1] == [Begin(key)] && actions[..1][..0] == [] && actions[..2] == [actions[0], actions[1]];
    var begun := Act(y, actions[0]);
    var finished := Act(begun, actions[1]);
    assert After(y, actions[..1]) == begun && After(y, actions[..2]) == finished &&
           After(y, actions) == Act(finished, actions[2]);
    RaisesAsWritten(a, settings.Of(key.provider), t);
    assert Act(finished, actions[2]).flights == y.flights;
  }

  lemma RaisesAsWritten(a: Acquired, p: ProviderPolicy, t: Times)
    ensures WriteFor(a, p, t).status == Retryable ==> ResultFor(a).None?
  {
  }
}
