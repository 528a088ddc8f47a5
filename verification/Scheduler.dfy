/** The acquisition scheduler: cadence policy, next slot, and one tick (bookmakers/scheduler_ops.py, scheduler.py). */
module Scheduler {
  import opened Wrappers
  import opened Providers
  import opened Transactions
  import opened SchedulerStore

  const MINIMUM_INTERVAL: int := 300

  datatype ProviderSettings = ProviderSettings(enabled: bool, intervalSeconds: int, delaySeconds: int) {
    predicate Valid() {
      intervalSeconds >= MINIMUM_INTERVAL && delaySeconds >= 0
    }
  }

  datatype Settings = Settings(enabled: bool, betano: ProviderSettings, betclic: ProviderSettings) {
    predicate Valid() {
      betano.Valid() && betclic.Valid()
    }

    function Of(p: Provider): ProviderSettings {
      if p.Betano? then betano else betclic
    }
  }

  datatype Policy = Policy(providers: seq<Provider>, delaySeconds: int, intervalSeconds: int) {
    predicate Valid() {
      intervalSeconds >= MINIMUM_INTERVAL && delaySeconds >= 0
    }

    function Gap(): int {
      intervalSeconds * SECOND
    }
  }

  function ResolvePolicy(b: Settings): (r: Option<Policy>)
    ensures r.None? <==> !b.betano.enabled && !b.betclic.enabled
    ensures r.Some? ==> forall p: Provider :: p in r.value.providers <==> b.Of(p).enabled
    ensures r.Some? ==> forall p <- r.value.providers :: r.value.intervalSeconds <= b.Of(p).intervalSeconds
    ensures r.Some? ==> exists p <- r.value.providers :: r.value.intervalSeconds == b.Of(p).intervalSeconds
    ensures r.Some? ==> r.value.delaySeconds == (if b.betano.enabled then b.betano else b.betclic).delaySeconds
  {
    var enabled := (if b.betano.enabled then [Betano] else []) + (if b.betclic.enabled then [Betclic] else []);
    if enabled == [] then None
    else if enabled == [Betano] then
      assert Betano in enabled;
      Some(Policy(enabled, b.betano.delaySeconds, b.betano.intervalSeconds))
    else if enabled == [Betclic] then
      assert Betclic in enabled;
      Some(Policy(enabled, b.betclic.delaySeconds, b.betclic.intervalSeconds))
    else
      var interval := if b.betclic.intervalSeconds < b.betano.intervalSeconds then b.betclic.intervalSeconds
                      else b.betano.intervalSeconds;
      assert Betano in enabled && Betclic in enabled && b.Of(Betano).enabled;
      assert interval == b.Of(Betano).intervalSeconds || interval == b.Of(Betclic).intervalSeconds;
      Some(Policy(enabled, b.betano.delaySeconds, interval))
  }

  /* ---------- The next slot ---------- */

  type Statuses = map<(Provider, string), ProviderStatus>

  /** The time until which a provider's status defers the sport, if it does. */
  function Deferral(statuses: Statuses, p: Provider, sport: string): Option<int> {
    if (p, sport) !in statuses then None
    else
      var status := statuses[(p, sport)];
      if status.blocked then status.nextEligible else None
  }

  function EligibleAt(statuses: Statuses, providers: seq<Provider>, sport: string, now: int): int {
    if providers == [] then now
    else
      var before := EligibleAt(statuses, providers[..|providers| - 1], sport, now);
      var deferral := Deferral(statuses, providers[|providers| - 1], sport);
      if deferral.Some? && deferral.value > before then deferral.value else before
  }

  function NextSlot(s: Store, policy: Option<Policy>, sport: string, now: int): int {
    if policy.None? then now
    else
      var latest := LatestSlot(s.cycles, sport);
      if latest.None? then
        if sport in s.anchors then s.anchors[sport].firstDue else now
      else
        var fromInterval := latest.value + policy.value.Gap();
        var eligible := EligibleAt(s.statuses, policy.value.providers, sport, now);
        if fromInterval > eligible then fromInterval else eligible
  }

  /** Some enabled provider is blocked for the sport until after now. */
  predicate Deferred(statuses: Statuses, providers: seq<Provider>, sport: string, now: int) {
    exists p <- providers :: Deferral(statuses, p, sport).Some? && Deferral(statuses, p, sport).value > now
  }

  lemma {:induction false} EligibleNow(statuses: Statuses, providers: seq<Provider>, sport: string, now: int)
    ensures EligibleAt(statuses, providers, sport, now) >= now
    ensures EligibleAt(statuses, providers, sport, now) > now <==> Deferred(statuses, providers, sport, now)
  {
    if providers != [] {
      var front, last := providers[..|providers| - 1], providers[|providers| - 1];
      EligibleNow(statuses, front, sport, now);
      assert forall p :: p in providers <==> p in front || p == last;
    }
  }

  /* ---------- One sport of a tick, and a tick, as functions of the tables ---------- */

  /** How the commits of the anchor transaction and of the enqueue transaction end. */
  datatype SportFaults = SportFaults(anchor: Faults, enqueue: Faults)

  function IfDue(s: Store, b: Settings, sport: string, now: int, digest: int -> nat, faults: SportFaults)
    : (Store, Result<bool, SchedulerError>)
  {
    var policy := ResolvePolicy(b);
    if policy.None? then (s, Ok(false))
    else if faults.anchor.commitFails then (s, Err(NotDurable))
    else
      var anchored := WithAnchor(s, sport, now, policy.value.delaySeconds);
      var slot := NextSlot(anchored, policy, sport, now);
      if slot > now || !b.enabled then (anchored, Ok(false))
      else
        match WithEnqueued(anchored, sport, slot, now, digest(now))
        case Err(_) => (anchored, Ok(false))
        case Ok((after, outcome)) =>
          if faults.enqueue.commitFails then (anchored, Err(NotDurable)) else (after, Ok(outcome.inserted))
  }

  function TickFrom(s: Store, b: Settings, sports: seq<string>, now: int, digest: int -> nat,
                    faults: string -> SportFaults, enqueued: nat): (Store, Result<nat, SchedulerError>)
    decreases |sports|
  {
    if sports == [] then (s, Ok(enqueued))
    else
      var (after, outcome) := IfDue(s, b, sports[0], now, digest, faults(sports[0]));
      match outcome
      case Err(e) => (after, Err(e))
      case Ok(inserted) => TickFrom(after, b, sports[1..], now, digest, faults, if inserted then enqueued + 1
                                                                                else enqueued)
  }

  function TickOnce(s: Store, b: Settings, now: int, digest: int -> nat, faults: string -> SportFaults)
    : (Store, Result<nat, SchedulerError>)
  {
    if !b.enabled then (s, Ok(0)) else TickFrom(s, b, SUPPORTED_SPORTS, now, digest, faults, 0)
  }

  /* ---------- The scheduler object ---------- */

  datatype AnchorState = AnchorState(firstDue: int, created: bool)

  class BookmakerScheduler {
    const settings: Settings
    const database: Database<Store>
    /** identity digest of the window that starts at a given time */
    const digest: int -> nat

    constructor (settings: Settings, database: Database<Store>, digest: int -> nat)
      ensures this.settings == settings && this.database == database && this.digest == digest
    {
      this.settings := settings;
      this.database := database;
      this.digest := digest;
    }

    /** ensure_scheduler_anchor */
    method EnsureAnchor(sport: string, now: int, faults: Faults) returns (r: Result<AnchorState, SchedulerError>)
      modifies database
      ensures ResolvePolicy(settings).None? ==> r == Err(NoProviderEnabled)
      ensures ResolvePolicy(settings).Some? ==> (r.Ok? <==> !faults.commitFails) && (r.Err? ==> r.error == NotDurable)
      ensures r.Err? ==> database.committed == old(database.committed)
      ensures r.Ok? ==>
                && database.committed ==
                   WithAnchor(old(database.committed), sport, now, ResolvePolicy(settings).value.delaySeconds)
                && sport in database.committed.anchors
                && r.value.firstDue == database.committed.anchors[sport].firstDue
                && (r.value.created <==> sport !in old(database.committed).anchors)
    {
      var policy := ResolvePolicy(settings);
      if policy.None? {
        return Err(NoProviderEnabled);
      }
      var connection := new Connection(database);
      var begun := connection.Begin();
      var tables := connection.working.value;
      var firstDue, created;
      if sport in tables.anchors {
        firstDue, created := tables.anchors[sport].firstDue, false;
      } else {
        var latest := LatestSlot(tables.cycles, sport);
        if latest.Some? {
          firstDue := latest.value;
        } else {
          firstDue := now + policy.value.delaySeconds * SECOND;
        }
        created := true;
        connection.working := Some(tables.(anchors := tables.anchors[sport := Anchor(firstDue, now)]));
      }
      var durable := connection.Commit(faults);
      r := if durable then Ok(AnchorState(firstDue, created)) else Err(NotDurable);
    }

    /** resolve_next_scheduled_for: raises the eligible time over the enabled providers' statuses. */
    method ResolveNext(sport: string, now: int) returns (slot: int)
      ensures slot == NextSlot(database.committed, ResolvePolicy(settings), sport, now)
    {
      var policy := ResolvePolicy(settings);
      if policy.None? {
        return now;
      }
      var tables := database.committed;
      var latest := LatestSlot(tables.cycles, sport);
      if latest.None? {
        return if sport in tables.anchors then tables.anchors[sport].firstDue else now;
      }
      var providers, nextEligible := policy.value.providers, now;
      for i := 0 to |providers|
        invariant nextEligible == EligibleAt(tables.statuses, providers[..i], sport, now)
      {
        assert providers[..i + 1][..i] == providers[..i];
        if (providers[i], sport) in tables.statuses {
          var status := tables.statuses[(providers[i], sport)];
          if status.blocked && status.nextEligible.Some? && status.nextEligible.value > nextEligible {
            nextEligible := status.nextEligible.value;
          }
        }
      }
      assert providers[..|providers|] == providers;
      var fromInterval := latest.value + policy.value.Gap();
      slot := if fromInterval > nextEligible then fromInterval else nextEligible;
    }

    /** atomic_enqueue_autonomous_cycle: job and cycle are inserted in one transaction. */
    method AtomicEnqueue(sport: string, slot: int, now: int, faults: Faults)
      returns (r: Result<Enqueued, SchedulerError>)
      modifies database
      ensures r.Err? ==> database.committed == old(database.committed)
      ensures !settings.enabled || ResolvePolicy(settings).None? ==> r == Err(NoProviderEnabled)
      ensures settings.enabled && ResolvePolicy(settings).Some? ==>
                match WithEnqueued(old(database.committed), sport, slot, now, digest(now))
                case Err(e) => r == Err(e)
                case Ok((after, outcome)) =>
                  if faults.commitFails then r == Err(NotDurable) else r == Ok(outcome) && database.committed == after
    {
      if !settings.enabled || ResolvePolicy(settings).None? {
        return Err(NoProviderEnabled);
      }
      var connection := new Connection(database);
      var begun := connection.Begin();
      var existing := FindCycle(connection.working.value.cycles, sport, slot);
      var outcome;
      if existing.Some? {
        outcome := Enqueued(false, existing.value.id);
      } else {
        var job := CreateJob(connection, KeyOf(sport, slot, digest(now)), Payload(sport, slot, now));
        if job.Err? {
          connection.Rollback(faults);
          return Err(job.error);
        }
        outcome := InsertCycle(connection, sport, slot, now, job.value);
      }
      var durable := connection.Commit(faults);
      r := if durable then Ok(outcome) else Err(NotDurable);
    }

    /** JobRepository.create_job, inside the caller's transaction */
    static method CreateJob(connection: Connection<Store>, key: Key, payload: Payload)
      returns (r: Result<nat, SchedulerError>)
      requires connection.working.Some?
      modifies connection
      ensures connection.working.Some?
      ensures match WithJob(old(connection.working).value, key, payload)
              case Err(e) => r == Err(e) && connection.working == old(connection.working)
              case Ok((after, id)) => r == Ok(id) && connection.working.value == after
    {
      var tables := connection.working.value;
      var existing := FindJob(tables.jobs, key);
      if existing.Some? {
        return if existing.value.payload == payload then Ok(existing.value.id) else Err(KeyConflict);
      }
      var id := tables.nextId;
      connection.working := Some(tables.(jobs := tables.jobs + [Job(id, key, payload)], nextId := id + 1));
      r := Ok(id);
    }

    /** BookmakerRepository.insert_scheduler_cycle, inside the caller's transaction */
    static method InsertCycle(connection: Connection<Store>, sport: string, slot: int, now: int, jobId: nat)
      returns (r: Enqueued)
      requires connection.working.Some?
      modifies connection
      ensures connection.working.Some?
      ensures (connection.working.value, r) == WithCycle(old(connection.working).value, sport, slot, now, jobId)
      ensures r.inserted <==> !SlotTaken(old(connection.working).value, sport, slot)
      ensures !r.inserted ==> connection.working == old(connection.working)
    {
      var tables := connection.working.value;
      var existing := FindCycle(tables.cycles, sport, slot);
      if existing.Some? {
        return Enqueued(false, existing.value.id);
      }
      var id := tables.nextId;
      connection.working := Some(tables.(cycles := tables.cycles + [Cycle(id, sport, slot, now, jobId)],
                                         nextId := id + 1));
      r := Enqueued(true, id);
    }

    /** _enqueue_sport_if_due: policy and key errors are swallowed, a failing commit is not. */
    method EnqueueSportIfDue(sport: string, now: int, faults: SportFaults) returns (r: Result<bool, SchedulerError>)
      modifies database
      ensures (database.committed, r) == IfDue(old(database.committed), settings, sport, now, digest, faults)
    {
      var anchor := EnsureAnchor(sport, now, faults.anchor);
      if anchor.Err? {
        return if anchor.error == NotDurable then Err(NotDurable) else Ok(false);
      }
      var slot := ResolveNext(sport, now);
      if slot > now {
        return Ok(false);
      }
      var outcome := AtomicEnqueue(sport, slot, now, faults.enqueue);
      match outcome {
        case Err(e) => r := if e == NotDurable then Err(NotDurable) else Ok(false);
        case Ok(e) => r := Ok(e.inserted);
      }
    }

    /** tick: the number of newly enqueued jobs */
    method Tick(now: int, faults: string -> SportFaults) returns (r: Result<nat, SchedulerError>)
      modifies database
      ensures (database.committed, r) == TickOnce(old(database.committed), settings, now, digest, faults)
    {
      if !settings.enabled {
        return Ok(0);
      }
      var enqueued: nat := 0;
      for i := 0 to |SUPPORTED_SPORTS|
        invariant TickFrom(database.committed, settings, SUPPORTED_SPORTS[i..], now, digest, faults, enqueued)
               == TickFrom(old(database.committed), settings, SUPPORTED_SPORTS, now, digest, faults, 0)
      {
        var sport := SUPPORTED_SPORTS[i];
        assert SUPPORTED_SPORTS[i..][1..] == SUPPORTED_SPORTS[i + 1..];
        var inserted := EnqueueSportIfDue(sport, now, faults(sport));
        if inserted.Err? {
          return Err(inserted.error);
        }
        if inserted.value {
          enqueued := enqueued + 1;
        }
      }
      r := Ok(enqueued);
    }
  }
}
