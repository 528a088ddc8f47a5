/** What every run of one scheduler with fixed settings guarantees, for any clock readings. */
module SchedulerRuns {
  import opened Wrappers
  import opened Providers
  import opened SchedulerStore
  import opened Scheduler

  /** Between ticks the acquisition workers may rewrite the provider statuses. */
  datatype Step =
    | Tick(now: int, faults: string -> SportFaults)
    | StatusChange(statuses: Statuses)

  function Apply(s: Store, b: Settings, digest: int -> nat, step: Step): Store {
    match step
    case Tick(now, faults) => TickOnce(s, b, now, digest, faults).0
    case StatusChange(statuses) => s.(statuses := statuses)
  }

  ghost function Run(steps: seq<Step>, b: Settings, digest: int -> nat): Store {
    if steps == [] then EMPTY else Apply(Run(steps[..|steps| - 1], b, digest), b, digest, steps[|steps| - 1])
  }

  /* ---------- The guarantees ---------- */

  /** Slots of one sport increase from each cycle to every later one by at least the gap. */
  predicate Spaced(cycles: seq<Cycle>, gap: int) {
    forall i, j :: 0 <= i < j < |cycles| && cycles[i].sport == cycles[j].sport ==>
      cycles[j].slot >= cycles[i].slot + gap
  }

  /** No cycle is enqueued before its slot. */
  predicate NeverEarly(cycles: seq<Cycle>) {
    forall c <- cycles :: c.slot <= c.enqueuedAt
  }

  predicate FirstOfSport(cycles: seq<Cycle>, i: nat)
    requires i < |cycles|
  {
    forall c <- cycles[..i] :: c.sport != cycles[i].sport
  }

  /**
   * The first slot of a sport is its anchor, the later ones are the very times of the ticks that
   * enqueued them: the interval bounds the spacing from below but does not set it.
   */
  predicate SlotOrigin(s: Store) {
    forall i :: 0 <= i < |s.cycles| ==>
      && s.cycles[i].sport in s.anchors
      && s.cycles[i].slot == if FirstOfSport(s.cycles, i) then s.anchors[s.cycles[i].sport].firstDue
                             else s.cycles[i].enqueuedAt
  }

  /** Every anchor is the initial delay after the tick that set it. */
  predicate Anchored(s: Store, delaySeconds: int) {
    forall sport <- s.anchors :: s.anchors[sport].firstDue == s.anchors[sport].setAt + delaySeconds * SECOND
  }

  predicate Scheduled(s: Store, policy: Policy) {
    && Consistent(s)
    && Spaced(s.cycles, policy.Gap())
    && NeverEarly(s.cycles)
    && SlotOrigin(s)
    && Anchored(s, policy.delaySeconds)
  }

  /* ---------- One sport of a tick ---------- */

  lemma AnchorKeepsSchedule(s: Store, policy: Policy, sport: string, now: int)
    requires Scheduled(s, policy)
    ensures Scheduled(WithAnchor(s, sport, now, policy.delaySeconds), policy)
    ensures sport in WithAnchor(s, sport, now, policy.delaySeconds).anchors
    ensures WithAnchor(s, sport, now, policy.delaySeconds) ==
            s.(anchors := WithAnchor(s, sport, now, policy.delaySeconds).anchors)
  {
    if sport !in s.anchors {
      var latest := LatestSlot(s.cycles, sport);
      forall c <- s.cycles ensures c.sport != sport {
        var i :| 0 <= i < |s.cycles| && s.cycles[i] == c;
      }
      assert latest.None?;
    }
  }

  /**
   * When the sport is due: its first cycle at the anchor, a later one an interval after the latest and never while
   * deferred.
   */
  predicate Due(s: Store, policy: Policy, sport: string, now: int) {
    var latest := LatestSlot(s.cycles, sport);
    if latest.None? then sport in s.anchors && s.anchors[sport].firstDue <= now
    else latest.value + policy.Gap() <= now && !Deferred(s.statuses, policy.providers, sport, now)
  }

  function DueSlot(s: Store, sport: string, now: int): int
    requires LatestSlot(s.cycles, sport).None? ==> sport in s.anchors
  {
    if LatestSlot(s.cycles, sport).None? then s.anchors[sport].firstDue else now
  }

  /** A slot that leaves the gap to the sport's latest one is free, and so is its key. */
  lemma SpacedSlotIsFree(s: Store, sport: string, slot: int, gap: int, digest: nat)
    requires Consistent(s) && gap >= SECOND
    requires LatestSlot(s.cycles, sport).Some? ==> slot >= LatestSlot(s.cycles, sport).value + gap
    ensures !SlotTaken(s, sport, slot) && !KeyTaken(s, KeyOf(sport, slot, digest))
  {
    hide Consistent;
    assert Paired(s.cycles, s.jobs) by { ConsistentParts(s); }
    forall j <- s.jobs ensures j.key != KeyOf(sport, slot, digest) {
      var c := CycleOfJob(s.cycles, s.jobs, j);
      assert c.sport == sport ==> slot >= c.slot + SECOND;
    }
  }

  lemma AppendKeepsSpaced(cycles: seq<Cycle>, gap: int, c: Cycle)
    requires Spaced(cycles, gap)
    requires LatestSlot(cycles, c.sport).Some? ==> c.slot >= LatestSlot(cycles, c.sport).value + gap
    ensures Spaced(cycles + [c], gap)
  {
    forall d <- cycles ensures d.sport == c.sport ==> c.slot >= d.slot + gap {
    }
  }

  lemma NewestIsFirst(cycles: seq<Cycle>, c: Cycle)
    ensures FirstOfSport(cycles + [c], |cycles|) <==> LatestSlot(cycles, c.sport).None?
  {
    hide LatestSlot;
    assert (cycles + [c])[..|cycles|] == cycles;
  }

  lemma EarlierStayFirst(cycles: seq<Cycle>, c: Cycle, i: nat)
    requires i < |cycles|
    ensures FirstOfSport(cycles + [c], i) == FirstOfSport(cycles, i)
  {
    assert (cycles + [c])[..i] == cycles[..i];
  }

  lemma AppendKeepsOrigin(s: Store, after: Store, c: Cycle)
    requires SlotOrigin(s) && after.anchors == s.anchors && after.cycles == s.cycles + [c]
    requires c.sport in s.anchors
    requires c.slot == if LatestSlot(s.cycles, c.sport).None? then s.anchors[c.sport].firstDue else c.enqueuedAt
    ensures SlotOrigin(after)
  {
    hide FirstOfSport, LatestSlot;
    NewestIsFirst(s.cycles, c);
    forall i | 0 <= i < |s.cycles| ensures FirstOfSport(after.cycles, i) == FirstOfSport(s.cycles, i) {
      EarlierStayFirst(s.cycles, c, i);
    }
  }

  lemma InsertKeepsSchedule(s: Store, policy: Policy, sport: string, now: int, digest: nat)
    requires Scheduled(s, policy) && policy.Valid() && sport in s.anchors && Due(s, policy, sport, now)
    ensures !SlotTaken(s, sport, DueSlot(s, sport, now)) && !KeyTaken(s, KeyOf(sport, DueSlot(s, sport, now), digest))
    ensures Scheduled(Inserted(s, sport, DueSlot(s, sport, now), now, digest), policy)
  {
    hide Consistent, Deferred, Spaced, SlotOrigin, SlotTaken, KeyTaken, LatestSlot;
    var slot := DueSlot(s, sport, now);
    var cycle := Cycle(s.nextId + 1, sport, slot, now, s.nextId);
    SpacedSlotIsFree(s, sport, slot, policy.Gap(), digest);
    InsertKeepsConsistent(s, sport, slot, now, digest);
    AppendKeepsSpaced(s.cycles, policy.Gap(), cycle);
    AppendKeepsOrigin(s, Inserted(s, sport, slot, now, digest), cycle);
  }

  /** The tick enqueues a sport exactly when it is due, at its due slot, and never fails on a duplicate slot or key. */
  lemma EnqueuedExactlyWhenDue(s: Store, b: Settings, sport: string, now: int, digest: int -> nat, faults: SportFaults)
    requires b.Valid() && b.enabled && ResolvePolicy(b).Some? && Scheduled(s, ResolvePolicy(b).value)
    requires !faults.anchor.commitFails
    ensures var policy := ResolvePolicy(b).value; var anchored := WithAnchor(s, sport, now, policy.delaySeconds);
            && sport in anchored.anchors
            && IfDue(s, b, sport, now, digest, faults) ==
               if !Due(anchored, policy, sport, now) then (anchored, Ok(false))
               else if faults.enqueue.commitFails then (anchored, Err(NotDurable))
               else (Inserted(anchored, sport, DueSlot(anchored, sport, now), now, digest(now)), Ok(true))
  {
    hide Scheduled, Consistent, Inserted, Deferred, WithAnchor, WithEnqueued;
    var policy := ResolvePolicy(b).value;
    AnchorKeepsSchedule(s, policy, sport, now);
    var anchored := WithAnchor(s, sport, now, policy.delaySeconds);
    EligibleNow(anchored.statuses, policy.providers, sport, now);
    var slot := NextSlot(anchored, Some(policy), sport, now);
    assert slot <= now <==> Due(anchored, policy, sport, now);
    if slot <= now {
      assert slot == DueSlot(anchored, sport, now);
      InsertKeepsSchedule(anchored, policy, sport, now, digest(now));
      assert Consistent(anchored) by { ScheduledIsConsistent(anchored, policy); }
      EnqueueOutcome(anchored, sport, slot, now, digest(now));
    }
  }

  lemma ScheduledIsConsistent(s: Store, policy: Policy)
    requires Scheduled(s, policy)
    ensures Consistent(s)
  {
  }

  lemma SportKeepsSchedule(s: Store, b: Settings, sport: string, now: int, digest: int -> nat, faults: SportFaults)
    requires b.Valid() && b.enabled && ResolvePolicy(b).Some? && Scheduled(s, ResolvePolicy(b).value)
    ensures Scheduled(IfDue(s, b, sport, now, digest, faults).0, ResolvePolicy(b).value)
  {
    hide Scheduled, Inserted, Deferred, WithAnchor, WithEnqueued;
    var policy := ResolvePolicy(b).value;
    if !faults.anchor.commitFails {
      EnqueuedExactlyWhenDue(s, b, sport, now, digest, faults);
      AnchorKeepsSchedule(s, policy, sport, now);
      var anchored := WithAnchor(s, sport, now, policy.delaySeconds);
      if Due(anchored, policy, sport, now) {
        InsertKeepsSchedule(anchored, policy, sport, now, digest(now));
      }
    }
  }

  /* ---------- Whole runs ---------- */

  lemma {:induction false} TickKeepsSchedule(s: Store, b: Settings, sports: seq<string>, now: int, digest: int -> nat,
                                             faults: string -> SportFaults, enqueued: nat)
    requires b.Valid() && b.enabled && ResolvePolicy(b).Some? && Scheduled(s, ResolvePolicy(b).value)
    ensures Scheduled(TickFrom(s, b, sports, now, digest, faults, enqueued).0, ResolvePolicy(b).value)
    decreases |sports|
  {
    hide Scheduled, IfDue;
    if sports != [] {
      SportKeepsSchedule(s, b, sports[0], now, digest, faults(sports[0]));
      var (after, outcome) := IfDue(s, b, sports[0], now, digest, faults(sports[0]));
      if outcome.Ok? {
        TickKeepsSchedule(after, b, sports[1..], now, digest, faults, if outcome.value then enqueued + 1 else enqueued);
      }
    }
  }

  lemma {:induction false} RunIsScheduled(steps: seq<Step>, b: Settings, digest: int -> nat)
    requires b.Valid() && ResolvePolicy(b).Some?
    ensures Scheduled(Run(steps, b, digest), ResolvePolicy(b).value)
  {
    if steps != [] {
      hide TickFrom;
      var before, step := Run(steps[..|steps| - 1], b, digest), steps[|steps| - 1];
      RunIsScheduled(steps[..|steps| - 1], b, digest);
      if step.Tick? && b.enabled {
        TickKeepsSchedule(before, b, SUPPORTED_SPORTS, step.now, digest, step.faults, 0);
      }
    }
  }

  /** With no provider enabled, or scheduling disabled, nothing is ever written. */
  lemma {:induction false} DisabledRunIsIdle(steps: seq<Step>, b: Settings, digest: int -> nat)
    requires !b.enabled || ResolvePolicy(b).None?
    ensures Run(steps, b, digest) == EMPTY.(statuses := Run(steps, b, digest).statuses)
  {
    if steps != [] {
      var before, step := Run(steps[..|steps| - 1], b, digest), steps[|steps| - 1];
      DisabledRunIsIdle(steps[..|steps| - 1], b, digest);
      if step.Tick? && b.enabled {
        DisabledTickIsIdle(before, b, SUPPORTED_SPORTS, step.now, digest, step.faults, 0);
      }
    }
  }

  lemma {:induction false} DisabledTickIsIdle(s: Store, b: Settings, sports: seq<string>, now: int, digest: int -> nat,
                                              faults: string -> SportFaults, enqueued: nat)
    requires ResolvePolicy(b).None?
    ensures TickFrom(s, b, sports, now, digest, faults, enqueued).0 == s
    decreases |sports|
  {
    if sports != [] {
      DisabledTickIsIdle(s, b, sports[1..], now, digest, faults, enqueued);
    }
  }

  /** Cycles of a sport whose slot lies in [from, to]. */
  function CountIn(cycles: seq<Cycle>, sport: string, from: int, to: int): nat {
    if cycles == [] then 0
    else
      var last := cycles[|cycles| - 1];
      CountIn(cycles[..|cycles| - 1], sport, from, to) + if last.sport == sport && from <= last.slot <= to then 1 else 0
  }

  lemma {:induction false} CountOnlyBelow(cycles: seq<Cycle>, sport: string, from: int, to: int, bound: int)
    requires bound <= to && forall c <- cycles :: c.sport == sport ==> c.slot <= bound
    ensures CountIn(cycles, sport, from, to) == CountIn(cycles, sport, from, bound)
  {
    if cycles != [] {
      CountOnlyBelow(cycles[..|cycles| - 1], sport, from, to, bound);
    }
  }

  function Copies(count: nat, gap: int): (r: int)
    ensures r == count * gap
  {
    if count == 0 then 0 else Copies(count - 1, gap) + gap
  }

  /** The slots counted, each followed by the gap, fit into the span and one gap more. */
  lemma {:induction false} SpacedCount(cycles: seq<Cycle>, sport: string, from: int, to: int, gap: int)
    requires gap > 0 && Spaced(cycles, gap) && to >= from - gap
    ensures Copies(CountIn(cycles, sport, from, to), gap) <= to - from + gap
  {
    if cycles == [] {
      assert Copies(0, gap) == 0;
    } else {
      var front, last := cycles[..|cycles| - 1], cycles[|cycles| - 1];
      if last.sport == sport && from <= last.slot <= to {
        forall c <- front ensures c.sport == sport ==> c.slot <= last.slot - gap {
          var i :| 0 <= i < |front| && front[i] == c;
          assert cycles[i] == c;
        }
        CountOnlyBelow(front, sport, from, to, last.slot - gap);
        SpacedCount(front, sport, from, last.slot - gap, gap);
      } else {
        SpacedCount(front, sport, from, to, gap);
      }
    }
  }

  lemma FloorBound(count: int, span: int, gap: int)
    requires gap > 0 && count * gap <= span + gap
    ensures count <= span / gap + 1
  {
    var q := span / gap;
    assert span < q * gap + gap;
    assert count >= q + 2 ==> count * gap >= (q + 2) * gap;
    assert (q + 2) * gap == q * gap + gap + gap;
  }

  /** At most floor(W / interval) + 1 cycles of a sport fall in any span of length W, whatever the clock did. */
  lemma RunRateIsBounded(steps: seq<Step>, b: Settings, digest: int -> nat, sport: string, from: int, span: nat)
    requires b.Valid() && ResolvePolicy(b).Some?
    ensures CountIn(Run(steps, b, digest).cycles, sport, from, from + span) <= span / ResolvePolicy(b).value.Gap() + 1
  {
    hide ResolvePolicy, CountIn, Run;
    RunIsScheduled(steps, b, digest);
    var gap := ResolvePolicy(b).value.Gap();
    SpacedCount(Run(steps, b, digest).cycles, sport, from, from + span, gap);
    FloorBound(CountIn(Run(steps, b, digest).cycles, sport, from, from + span), span, gap);
  }

  /* ---------- Deferral ---------- */

  lemma {:induction false} LatestSurvives(cycles: seq<Cycle>, more: seq<Cycle>, sport: string)
    requires LatestSlot(cycles, sport).Some?
    ensures LatestSlot(cycles + more, sport).Some?
  {
    var c :| c in cycles && c.sport == sport;
    assert c in cycles + more;
  }

  /**
   * A cycle a tick adds to a sport that had one is added at the tick's time, with no enabled provider deferring the
   * sport.
   */
  predicate RespectsDeferral(before: Store, after: Store, providers: seq<Provider>, now: int) {
    && before.statuses == after.statuses
    && before.cycles <= after.cycles
    && forall c <- after.cycles[|before.cycles|..] ::
         && c.enqueuedAt == now
         && (LatestSlot(before.cycles, c.sport).Some? ==> !Deferred(before.statuses, providers, c.sport, now))
  }

  lemma SportRespectsDeferral(s: Store, b: Settings, sport: string, now: int, digest: int -> nat, faults: SportFaults)
    requires b.Valid() && b.enabled && ResolvePolicy(b).Some? && Scheduled(s, ResolvePolicy(b).value)
    ensures RespectsDeferral(s, IfDue(s, b, sport, now, digest, faults).0, ResolvePolicy(b).value.providers, now)
  {
    hide Scheduled, Deferred, WithEnqueued;
    if !faults.anchor.commitFails {
      EnqueuedExactlyWhenDue(s, b, sport, now, digest, faults);
    }
  }

  lemma RespectsDeferralChains(a: Store, b: Store, c: Store, providers: seq<Provider>, now: int)
    requires RespectsDeferral(a, b, providers, now) && RespectsDeferral(b, c, providers, now)
    ensures RespectsDeferral(a, c, providers, now)
  {
    hide Deferred, LatestSlot;
    forall d <- c.cycles[|a.cycles|..]
      ensures d.enqueuedAt == now
      ensures LatestSlot(a.cycles, d.sport).Some? ==> !Deferred(a.statuses, providers, d.sport, now)
    {
      var i :| |a.cycles| <= i < |c.cycles| && c.cycles[i] == d;
      if i < |b.cycles| {
        assert b.cycles[i] == d && d in b.cycles[|a.cycles|..];
      } else {
        assert d in c.cycles[|b.cycles|..];
        if LatestSlot(a.cycles, d.sport).Some? {
          assert b.cycles == a.cycles + b.cycles[|a.cycles|..];
          LatestSurvives(a.cycles, b.cycles[|a.cycles|..], d.sport);
        }
      }
    }
  }

  lemma {:induction false} TickRespectsDeferral(s: Store, b: Settings, sports: seq<string>, now: int,
                                                digest: int -> nat,
                                                faults: string -> SportFaults, enqueued: nat)
    requires b.Valid() && b.enabled && ResolvePolicy(b).Some? && Scheduled(s, ResolvePolicy(b).value)
    ensures RespectsDeferral(s, TickFrom(s, b, sports, now, digest, faults, enqueued).0,
                             ResolvePolicy(b).value.providers, now)
    decreases |sports|
  {
    hide Scheduled, IfDue, Deferred, LatestSlot;
    if sports != [] {
      SportRespectsDeferral(s, b, sports[0], now, digest, faults(sports[0]));
      SportKeepsSchedule(s, b, sports[0], now, digest, faults(sports[0]));
      var (after, outcome) := IfDue(s, b, sports[0], now, digest, faults(sports[0]));
      if outcome.Ok? {
        var count := if outcome.value then enqueued + 1 else enqueued;
        TickRespectsDeferral(after, b, sports[1..], now, digest, faults, count);
        RespectsDeferralChains(s, after, TickFrom(after, b, sports[1..], now, digest, faults, count).0,
                               ResolvePolicy(b).value.providers, now);
      }
    }
  }

  /** In every reachable state the next tick defers every sport that already had a cycle and has a blocked provider. */
  lemma RunRespectsDeferral(steps: seq<Step>, b: Settings, digest: int -> nat, now: int, faults: string -> SportFaults)
    requires b.Valid() && ResolvePolicy(b).Some?
    ensures var s := Run(steps, b, digest);
            RespectsDeferral(s, Apply(s, b, digest, Tick(now, faults)), ResolvePolicy(b).value.providers, now)
  {
    RunIsScheduled(steps, b, digest);
    if b.enabled {
      TickRespectsDeferral(Run(steps, b, digest), b, SUPPORTED_SPORTS, now, digest, faults, 0);
    }
  }
}
