/** The persisted scheduler tables and the atomic steps on them (bookmakers/scheduler_ops.py). */
module SchedulerStore {
  import opened Wrappers
  import opened Providers

  /* Timestamps are microseconds; generated identifiers are drawn from a counter. */

  const SECOND: int := 1_000_000

  datatype ProviderStatus = ProviderStatus(blocked: bool, nextEligible: Option<int>)

  datatype Anchor = Anchor(firstDue: int, setAt: int)

  datatype Cycle = Cycle(id: nat, sport: string, slot: int, enqueuedAt: int, jobId: nat)

  /** bookmaker-auto:<sport>:<slot to the second>:window:<digest of the window starting now> */
  datatype Key = Key(sport: string, second: int, digest: nat)

  /** The part of the job payload that varies; the window is a function of the enqueue time. */
  datatype Payload = Payload(sport: string, slot: int, enqueuedAt: int)

  datatype Job = Job(id: nat, key: Key, payload: Payload)

  datatype Store = Store(
    anchors: map<string, Anchor>,
    cycles: seq<Cycle>,
    jobs: seq<Job>,
    statuses: map<(Provider, string), ProviderStatus>,
    nextId: nat)

  const EMPTY := Store(map[], [], [], map[], 0)

  datatype SchedulerError = NoProviderEnabled | KeyConflict | NotDurable

  datatype Enqueued = Enqueued(inserted: bool, cycleId: nat)

  /* ---------- Queries ---------- */

  function FindCycle(cycles: seq<Cycle>, sport: string, slot: int): (r: Option<Cycle>)
    ensures r.Some? ==> r.value in cycles && r.value.sport == sport && r.value.slot == slot
    ensures r.None? ==> forall c <- cycles :: !(c.sport == sport && c.slot == slot)
  {
    if cycles == [] then None
    else if cycles[0].sport == sport && cycles[0].slot == slot then Some(cycles[0])
    else FindCycle(cycles[1..], sport, slot)
  }

  function FindJob(jobs: seq<Job>, key: Key): (r: Option<Job>)
    ensures r.Some? ==> r.value in jobs && r.value.key == key
    ensures r.None? ==> forall j <- jobs :: j.key != key
  {
    if jobs == [] then None else if jobs[0].key == key then Some(jobs[0]) else FindJob(jobs[1..], key)
  }

  /** ORDER BY scheduled_for DESC LIMIT 1: the greatest slot of the sport. */
  function LatestSlot(cycles: seq<Cycle>, sport: string): (r: Option<int>)
    ensures r.None? <==> forall c <- cycles :: c.sport != sport
    ensures r.Some? ==> forall c <- cycles :: c.sport == sport ==> c.slot <= r.value
    ensures r.Some? ==> exists c <- cycles :: c.sport == sport && c.slot == r.value
  {
    if cycles == [] then None
    else
      var rest := LatestSlot(cycles[1..], sport);
      assert forall c <- cycles :: c == cycles[0] || c in cycles[1..];
      if cycles[0].sport != sport then rest
      else if rest.Some? && rest.value >= cycles[0].slot then rest
      else Some(cycles[0].slot)
  }

  function KeyOf(sport: string, slot: int, digest: nat): Key {
    Key(sport, slot / SECOND, digest)
  }

  /* ---------- The two writing steps, as functions of the tables ---------- */

  /** ensure_scheduler_anchor: an existing anchor is kept; else the latest slot, else now plus the delay. */
  function WithAnchor(s: Store, sport: string, now: int, delaySeconds: int): Store {
    if sport in s.anchors then s
    else
      var latest := LatestSlot(s.cycles, sport);
      var firstDue := if latest.Some? then latest.value else now + delaySeconds * SECOND;
      s.(anchors := s.anchors[sport := Anchor(firstDue, now)])
  }

  /** JobRepository.create_job under an idempotency key */
  function WithJob(s: Store, key: Key, payload: Payload): Result<(Store, nat), SchedulerError> {
    var existing := FindJob(s.jobs, key);
    if existing.Some? then
      if existing.value.payload == payload then Ok((s, existing.value.id)) else Err(KeyConflict)
    else
      Ok((s.(jobs := s.jobs + [Job(s.nextId, key, payload)], nextId := s.nextId + 1), s.nextId))
  }

  /** BookmakerRepository.insert_scheduler_cycle */
  function WithCycle(s: Store, sport: string, slot: int, now: int, jobId: nat): (Store, Enqueued) {
    var existing := FindCycle(s.cycles, sport, slot);
    if existing.Some? then (s, Enqueued(false, existing.value.id))
    else (s.(cycles := s.cycles + [Cycle(s.nextId, sport, slot, now, jobId)], nextId := s.nextId + 1),
          Enqueued(true, s.nextId))
  }

  /** The body of atomic_enqueue_autonomous_cycle's transaction. */
  function WithEnqueued(s: Store, sport: string, slot: int, now: int, digest: nat)
    : Result<(Store, Enqueued), SchedulerError>
  {
    var existing := FindCycle(s.cycles, sport, slot);
    if existing.Some? then Ok((s, Enqueued(false, existing.value.id)))
    else
      match WithJob(s, KeyOf(sport, slot, digest), Payload(sport, slot, now))
      case Err(e) => Err(e)
      case Ok((s1, jobId)) => Ok(WithCycle(s1, sport, slot, now, jobId))
  }

  /** The durable effect of an enqueue attempt, which a failing commit undoes as well. */
  function AfterEnqueue(s: Store, sport: string, slot: int, now: int, digest: nat, commits: bool): Store {
    match WithEnqueued(s, sport, slot, now, digest)
    case Err(_) => s
    case Ok((s1, _)) => if commits then s1 else s
  }

  /* ---------- What every interleaving keeps ---------- */

  predicate Matches(c: Cycle, j: Job) {
    && c.jobId == j.id
    && j.payload == Payload(c.sport, c.slot, c.enqueuedAt)
    && j.key.sport == c.sport && j.key.second == c.slot / SECOND
  }

  /** No two rows of the table share a value of the column. */
  predicate Unique<A, K(==)>(rows: seq<A>, column: A -> K) {
    forall i, j :: 0 <= i < j < |rows| ==> column(rows[i]) != column(rows[j])
  }

  function CycleSlot(c: Cycle): (string, int) { (c.sport, c.slot) }
  function CycleId(c: Cycle): nat { c.id }
  function CycleJob(c: Cycle): nat { c.jobId }
  function JobKey(j: Job): Key { j.key }
  function JobId(j: Job): nat { j.id }

  predicate Paired(cycles: seq<Cycle>, jobs: seq<Job>) {
    |cycles| == |jobs| && forall i :: 0 <= i < |cycles| ==> Matches(cycles[i], jobs[i])
  }

  predicate Consistent(s: Store) {
    && Paired(s.cycles, s.jobs)
    && Unique(s.cycles, CycleSlot) && Unique(s.cycles, CycleId)
    && Unique(s.jobs, JobKey) && Unique(s.jobs, JobId)
    && (forall j <- s.jobs :: j.id < s.nextId)
    && (forall c <- s.cycles :: c.id < s.nextId)
  }

  lemma UniqueAppend<A, K>(rows: seq<A>, column: A -> K, row: A)
    requires Unique(rows, column) && forall r <- rows :: column(r) != column(row)
    ensures Unique(rows + [row], column)
  {
  }

  lemma CycleOfJob(cycles: seq<Cycle>, jobs: seq<Job>, j: Job) returns (c: Cycle)
    requires Paired(cycles, jobs) && j in jobs
    ensures c in cycles && Matches(c, j)
  {
    var i :| 0 <= i < |jobs| && jobs[i] == j;
    c := cycles[i];
  }

  lemma JobOfCycle(cycles: seq<Cycle>, jobs: seq<Job>, c: Cycle) returns (j: Job)
    requires Paired(cycles, jobs) && c in cycles
    ensures j in jobs && Matches(c, j)
  {
    var i :| 0 <= i < |cycles| && cycles[i] == c;
    j := jobs[i];
  }

  /** Each cycle has exactly one job and each job exactly one cycle, carrying the same slot and time. */
  lemma CyclesAndJobsOneToOne(s: Store)
    requires Consistent(s)
    ensures |s.cycles| == |s.jobs|
    ensures forall c <- s.cycles :: exists j <- s.jobs :: Matches(c, j)
    ensures forall j <- s.jobs :: exists c <- s.cycles :: Matches(c, j)
    ensures Unique(s.cycles, CycleJob) && Unique(s.jobs, JobId) && Unique(s.cycles, CycleSlot)
  {
    hide Consistent;
    assert Paired(s.cycles, s.jobs) && Unique(s.jobs, JobId) && Unique(s.cycles, CycleSlot) by { ConsistentParts(s); }
    forall c <- s.cycles ensures exists j <- s.jobs :: Matches(c, j) {
      var j := JobOfCycle(s.cycles, s.jobs, c);
    }
    forall j <- s.jobs ensures exists c <- s.cycles :: Matches(c, j) {
      var c := CycleOfJob(s.cycles, s.jobs, j);
    }
    forall i, j | 0 <= i < j < |s.cycles| ensures CycleJob(s.cycles[i]) != CycleJob(s.cycles[j]) {
      assert Matches(s.cycles[i], s.jobs[i]) && Matches(s.cycles[j], s.jobs[j]);
      assert JobId(s.jobs[i]) != JobId(s.jobs[j]);
    }
  }

  lemma ConsistentParts(s: Store)
    requires Consistent(s)
    ensures Paired(s.cycles, s.jobs)
    ensures Unique(s.cycles, CycleSlot) && Unique(s.cycles, CycleId)
    ensures Unique(s.jobs, JobKey) && Unique(s.jobs, JobId)
  {
  }

  /** The tables after a fresh job and its cycle were inserted. */
  function Inserted(s: Store, sport: string, slot: int, now: int, digest: nat): Store {
    s.(jobs := s.jobs + [Job(s.nextId, KeyOf(sport, slot, digest), Payload(sport, slot, now))],
       cycles := s.cycles + [Cycle(s.nextId + 1, sport, slot, now, s.nextId)],
       nextId := s.nextId + 2)
  }

  predicate SlotTaken(s: Store, sport: string, slot: int) {
    exists c <- s.cycles :: c.sport == sport && c.slot == slot
  }

  predicate KeyTaken(s: Store, key: Key) {
    exists j <- s.jobs :: j.key == key
  }

  /**
   * An enqueue for a free slot never reuses a job: it either inserts a fresh job and a fresh cycle,
   * or fails because another job already holds the key for a different slot or time.
   */
  lemma EnqueueOutcome(s: Store, sport: string, slot: int, now: int, digest: nat)
    requires Consistent(s)
    ensures WithEnqueued(s, sport, slot, now, digest).Err? <==>
            !SlotTaken(s, sport, slot) && KeyTaken(s, KeyOf(sport, slot, digest))
    ensures WithEnqueued(s, sport, slot, now, digest).Ok? ==>
            WithEnqueued(s, sport, slot, now, digest).value.0 ==
            if SlotTaken(s, sport, slot) then s else Inserted(s, sport, slot, now, digest)
    ensures WithEnqueued(s, sport, slot, now, digest).Ok? ==>
            WithEnqueued(s, sport, slot, now, digest).value.1.inserted == !SlotTaken(s, sport, slot)
  {
    hide Consistent, Unique;
    assert Paired(s.cycles, s.jobs) by { ConsistentParts(s); }
    var holder := FindJob(s.jobs, KeyOf(sport, slot, digest));
    if holder.Some? {
      var c := CycleOfJob(s.cycles, s.jobs, holder.value);
    }
    assert FindCycle(s.cycles, sport, slot).Some? == SlotTaken(s, sport, slot);
    assert FindJob(s.jobs, KeyOf(sport, slot, digest)).Some? == KeyTaken(s, KeyOf(sport, slot, digest));
  }

  lemma InsertKeepsConsistent(s: Store, sport: string, slot: int, now: int, digest: nat)
    requires Consistent(s)
    requires !SlotTaken(s, sport, slot) && !KeyTaken(s, KeyOf(sport, slot, digest))
    ensures Consistent(Inserted(s, sport, slot, now, digest))
  {
    hide Unique;
    var job := Job(s.nextId, KeyOf(sport, slot, digest), Payload(sport, slot, now));
    var cycle := Cycle(s.nextId + 1, sport, slot, now, s.nextId);
    UniqueAppend(s.cycles, CycleSlot, cycle);
    UniqueAppend(s.cycles, CycleId, cycle);
    UniqueAppend(s.jobs, JobKey, job);
    UniqueAppend(s.jobs, JobId, job);
  }

  /** Whatever slot, clock reading and digest an enqueue brings, and whether or not it commits. */
  lemma EnqueueKeepsConsistent(s: Store, sport: string, slot: int, now: int, digest: nat, commits: bool)
    requires Consistent(s)
    ensures Consistent(AfterEnqueue(s, sport, slot, now, digest, commits))
  {
    hide Consistent, Inserted, WithEnqueued;
    EnqueueOutcome(s, sport, slot, now, digest);
    if !SlotTaken(s, sport, slot) && !KeyTaken(s, KeyOf(sport, slot, digest)) {
      InsertKeepsConsistent(s, sport, slot, now, digest);
    }
  }
}
