/** What the next tick of any run enqueues, read off the stored rows and the settings (bookmakers/scheduler_ops.py). */
module SchedulerTicks {
  import opened Wrappers
  import opened Providers
  import opened SchedulerStore
  import opened Scheduler
  import opened SchedulerRuns

  /* ---------- A sport is enqueued by its own turn only ---------- */

  lemma EnqueueAddsItsSport(s: Store, sport: string, slot: int, now: int, digest: nat)
    requires WithEnqueued(s, sport, slot, now, digest).Ok?
    ensures var after := WithEnqueued(s, sport, slot, now, digest).value.0;
            && after.statuses == s.statuses && after.anchors == s.anchors
            && (after.cycles == s.cycles || exists c: Cycle :: after.cycles == s.cycles + [c] && c.sport == sport)
  {
  }

  lemma AnotherSport(s: Store, b: Settings, other: string, now: int, digest: int -> nat, faults: SportFaults,
                     sport: string)
    requires other != sport
    ensures var after := IfDue(s, b, other, now, digest, faults).0;
            && after.statuses == s.statuses && s.cycles <= after.cycles
            && (forall c <- after.cycles[|s.cycles|..] :: c.sport != sport)
            && (sport in after.anchors <==> sport in s.anchors)
            && (sport in s.anchors ==> after.anchors[sport] == s.anchors[sport])
  {
    hide ResolvePolicy, NextSlot, LatestSlot, WithEnqueued;
    var policy := ResolvePolicy(b);
    if policy.Some? {
      var anchored := WithAnchor(s, other, now, policy.value.delaySeconds);
      var slot := NextSlot(anchored, policy, other, now);
      if WithEnqueued(anchored, other, slot, now, digest(now)).Ok? {
        EnqueueAddsItsSport(anchored, other, slot, now, digest(now));
      }
    }
  }

  lemma AddedChain(a: seq<Cycle>, b: seq<Cycle>, c: seq<Cycle>)
    requires a <= b <= c
    ensures c[|a|..] == b[|a|..] + c[|b|..]
  {
  }

  lemma {:induction false} OtherSports(s: Store, b: Settings, sports: seq<string>, now: int, digest: int -> nat,
                                       faults: string -> SportFaults, enqueued: nat, sport: string)
    requires sport !in sports
    ensures var after := TickFrom(s, b, sports, now, digest, faults, enqueued).0;
            s.cycles <= after.cycles && forall c <- after.cycles[|s.cycles|..] :: c.sport != sport
    decreases |sports|
  {
    hide IfDue;
    if sports != [] {
      AnotherSport(s, b, sports[0], now, digest, faults(sports[0]), sport);
      var (between, outcome) := IfDue(s, b, sports[0], now, digest, faults(sports[0]));
      if outcome.Ok? {
        var count := if outcome.value then enqueued + 1 else enqueued;
        OtherSports(between, b, sports[1..], now, digest, faults, count, sport);
        AddedChain(s.cycles, between.cycles, TickFrom(between, b, sports[1..], now, digest, faults, count).0.cycles);
      }
    }
  }

  lemma {:induction false} LatestIgnoresOthers(cycles: seq<Cycle>, more: seq<Cycle>, sport: string)
    requires forall c <- more :: c.sport != sport
    ensures LatestSlot(cycles + more, sport) == LatestSlot(cycles, sport)
  {
    hide LatestSlot;
    var latest, all := LatestSlot(cycles, sport), LatestSlot(cycles + more, sport);
    if latest.Some? {
      var c :| c in cycles && c.sport == sport && c.slot == latest.value;
      assert c in cycles + more;
    }
    if all.Some? {
      var c :| c in cycles + more && c.sport == sport && c.slot == all.value;
      assert c in cycles;
    }
  }

  /** Whether and when a sport is due depends on its own cycles and anchor, and on the statuses. */
  lemma DueIgnoresOthers(s: Store, t: Store, policy: Policy, sport: string, now: int)
    requires t.statuses == s.statuses && s.cycles <= t.cycles
    requires forall c <- t.cycles[|s.cycles|..] :: c.sport != sport
    requires sport in t.anchors <==> sport in s.anchors
    requires sport in s.anchors ==> t.anchors[sport] == s.anchors[sport]
    ensures var former := WithAnchor(s, sport, now, policy.delaySeconds);
            var latter := WithAnchor(t, sport, now, policy.delaySeconds);
            && (Due(former, policy, sport, now) <==> Due(latter, policy, sport, now))
            && sport in former.anchors && sport in latter.anchors
            && DueSlot(former, sport, now) == DueSlot(latter, sport, now)
  {
    hide LatestSlot, Deferred;
    assert t.cycles == s.cycles + t.cycles[|s.cycles|..];
    LatestIgnoresOthers(s.cycles, t.cycles[|s.cycles|..], sport);
  }

  /* ---------- Its turn, in any list of sports ---------- */

  /** What the tick may and must add for one sport. */
  ghost predicate AddsWhenDue(before: Store, after: Store, policy: Policy, sport: string, now: int, certain: bool) {
    var anchored := WithAnchor(before, sport, now, policy.delaySeconds);
    && before.cycles <= after.cycles
    && sport in anchored.anchors
    && (forall c <- after.cycles[|before.cycles|..] :: c.sport == sport ==>
          Due(anchored, policy, sport, now) && c.slot == DueSlot(anchored, sport, now) && c.enqueuedAt == now)
    && (certain && Due(anchored, policy, sport, now) ==>
          exists c <- after.cycles[|before.cycles|..] :: c.sport == sport)
  }

  predicate Commits(faults: SportFaults) {
    !faults.anchor.commitFails && !faults.enqueue.commitFails
  }

  lemma SportAddsWhenDue(s: Store, b: Settings, sport: string, now: int, digest: int -> nat, faults: SportFaults)
    requires b.Valid() && b.enabled && ResolvePolicy(b).Some? && Scheduled(s, ResolvePolicy(b).value)
    ensures AddsWhenDue(s, IfDue(s, b, sport, now, digest, faults).0, ResolvePolicy(b).value, sport, now,
                        Commits(faults))
    ensures Commits(faults) ==> IfDue(s, b, sport, now, digest, faults).1.Ok?
  {
    hide Scheduled, Due, WithEnqueued, ResolvePolicy, NextSlot;
    if !faults.anchor.commitFails {
      EnqueuedExactlyWhenDue(s, b, sport, now, digest, faults);
      var anchored := WithAnchor(s, sport, now, ResolvePolicy(b).value.delaySeconds);
      if Due(anchored, ResolvePolicy(b).value, sport, now) && !faults.enqueue.commitFails {
        var added := Cycle(s.nextId + 1, sport, DueSlot(anchored, sport, now), now, s.nextId);
        assert IfDue(s, b, sport, now, digest, faults).0.cycles[|s.cycles|..] == [added];
        assert added in [added];
      }
    }
  }

  lemma {:induction false} TickAddsWhenDue(s: Store, b: Settings, sports: seq<string>, now: int, digest: int -> nat,
                                           faults: string -> SportFaults, enqueued: nat, sport: string)
    requires b.Valid() && b.enabled && ResolvePolicy(b).Some? && Scheduled(s, ResolvePolicy(b).value)
    requires sport in sports && forall i, j :: 0 <= i < j < |sports| ==> sports[i] != sports[j]
    ensures AddsWhenDue(s, TickFrom(s, b, sports, now, digest, faults, enqueued).0, ResolvePolicy(b).value, sport, now,
                        forall other :: Commits(faults(other)))
    decreases |sports|
  {
    hide Scheduled, IfDue, Due, DueSlot, WithAnchor, Commits;
    var policy, first := ResolvePolicy(b).value, sports[0];
    var (between, outcome) := IfDue(s, b, first, now, digest, faults(first));
    var count := if outcome.Ok? && outcome.value then enqueued + 1 else enqueued;
    var after := TickFrom(s, b, sports, now, digest, faults, enqueued).0;
    SportKeepsSchedule(s, b, first, now, digest, faults(first));
    SportAddsWhenDue(s, b, first, now, digest, faults(first));
    if first == sport {
      if outcome.Ok? {
        OtherSports(between, b, sports[1..], now, digest, faults, count, sport);
        AddedChain(s.cycles, between.cycles, after.cycles);
      }
    } else {
      AnotherSport(s, b, first, now, digest, faults(first), sport);
      DueIgnoresOthers(s, between, policy, sport, now);
      if outcome.Ok? {
        TickAddsWhenDue(between, b, sports[1..], now, digest, faults, count, sport);
        AddedChain(s.cycles, between.cycles, after.cycles);
      }
    }
  }

  lemma NextTickAddsWhenDue(steps: seq<Step>, b: Settings, digest: int -> nat, now: int,
                            faults: string -> SportFaults, sport: string)
    requires b.Valid() && b.enabled && ResolvePolicy(b).Some? && sport in SUPPORTED_SPORTS
    ensures var s := Run(steps, b, digest);
            AddsWhenDue(s, Apply(s, b, digest, Tick(now, faults)), ResolvePolicy(b).value, sport, now,
                        forall other :: Commits(faults(other)))
  {
    hide Scheduled, TickFrom, AddsWhenDue, Commits, Run, ResolvePolicy;
    RunIsScheduled(steps, b, digest);
    assert |SUPPORTED_SPORTS[0]| == 10 && |SUPPORTED_SPORTS[1]| == 8 && |SUPPORTED_SPORTS[2]| == 6;
    TickAddsWhenDue(Run(steps, b, digest), b, SUPPORTED_SPORTS, now, digest, faults, 0, sport);
  }

  /* ---------- The same, on the rows ---------- */

  /**
   * In every reachable state, when all commits go through, the next tick enqueues a sport that already has a cycle if
   * and only if the least interval of the enabled providers has passed since every one of its slots and no enabled
   * provider is blocked for it until later; a sport without a cycle if and only if its first due time has come, or
   * there is no delay.
   */
  lemma TickEnqueuesExactly(steps: seq<Step>, b: Settings, digest: int -> nat, now: int,
                            faults: string -> SportFaults, sport: string, interval: int, delay: int)
    requires b.betano.intervalSeconds >= 300 && b.betano.delaySeconds >= 0
    requires b.betclic.intervalSeconds >= 300 && b.betclic.delaySeconds >= 0
    requires b.enabled && (b.betano.enabled || b.betclic.enabled)
    requires b.betano.enabled ==> interval <= b.betano.intervalSeconds && delay == b.betano.delaySeconds
    requires b.betclic.enabled ==> interval <= b.betclic.intervalSeconds
    requires (interval == b.betano.intervalSeconds && b.betano.enabled) ||
             (interval == b.betclic.intervalSeconds && b.betclic.enabled)
    requires !b.betano.enabled ==> delay == b.betclic.delaySeconds
    requires sport in ["basketball", "football", "tennis"]
    requires forall other :: !faults(other).anchor.commitFails && !faults(other).enqueue.commitFails
    ensures var s := Run(steps, b, digest); var after := Apply(s, b, digest, Tick(now, faults));
            && s.cycles <= after.cycles
            && ((exists c <- after.cycles[|s.cycles|..] :: c.sport == sport) <==>
                if exists d <- s.cycles :: d.sport == sport then
                  && (forall d <- s.cycles :: d.sport == sport ==> d.slot + interval * 1_000_000 <= now)
                  && (b.betano.enabled && (Betano, sport) in s.statuses && s.statuses[(Betano, sport)].blocked &&
                      s.statuses[(Betano, sport)].nextEligible.Some? ==>
                        s.statuses[(Betano, sport)].nextEligible.value <= now)
                  && (b.betclic.enabled && (Betclic, sport) in s.statuses && s.statuses[(Betclic, sport)].blocked &&
                      s.statuses[(Betclic, sport)].nextEligible.Some? ==>
                        s.statuses[(Betclic, sport)].nextEligible.value <= now)
                else if sport in s.anchors then s.anchors[sport].firstDue <= now
                else delay == 0)
            && forall c <- after.cycles[|s.cycles|..] :: c.sport == sport ==>
                 && c.enqueuedAt == now
                 && c.slot == if (forall d <- s.cycles :: d.sport != sport) && sport in s.anchors
                              then s.anchors[sport].firstDue else now
  {
    hide Run, Apply, Consistent;
    NextTickAddsWhenDue(steps, b, digest, now, faults, sport);
    var s := Run(steps, b, digest);
    DueOnRows(s, b, sport, now, interval, delay);
    assert forall other :: Commits(faults(other));
  }

  lemma PolicyOnSettings(b: Settings)
    requires b.betano.enabled || b.betclic.enabled
    ensures var policy := ResolvePolicy(b).value;
            && policy.delaySeconds == (if b.betano.enabled then b.betano else b.betclic).delaySeconds
            && (b.betano.enabled ==> policy.intervalSeconds <= b.betano.intervalSeconds)
            && (b.betclic.enabled ==> policy.intervalSeconds <= b.betclic.intervalSeconds)
            && ((b.betano.enabled && policy.intervalSeconds == b.betano.intervalSeconds) ||
                (b.betclic.enabled && policy.intervalSeconds == b.betclic.intervalSeconds))
  {
    assert Betano in ResolvePolicy(b).value.providers <==> b.Of(Betano).enabled;
    assert Betclic in ResolvePolicy(b).value.providers <==> b.Of(Betclic).enabled;
  }

  lemma DeferredOnRows(statuses: Statuses, b: Settings, sport: string, now: int)
    requires b.betano.enabled || b.betclic.enabled
    ensures !Deferred(statuses, ResolvePolicy(b).value.providers, sport, now) <==>
            && (b.betano.enabled && (Betano, sport) in statuses && statuses[(Betano, sport)].blocked &&
                statuses[(Betano, sport)].nextEligible.Some? ==>
                  statuses[(Betano, sport)].nextEligible.value <= now)
            && (b.betclic.enabled && (Betclic, sport) in statuses && statuses[(Betclic, sport)].blocked &&
                statuses[(Betclic, sport)].nextEligible.Some? ==>
                  statuses[(Betclic, sport)].nextEligible.value <= now)
  {
    var providers := ResolvePolicy(b).value.providers;
    assert Betano in providers <==> b.Of(Betano).enabled;
    assert Betclic in providers <==> b.Of(Betclic).enabled;
  }

  lemma DueOnRows(s: Store, b: Settings, sport: string, now: int, interval: int, delay: int)
    requires b.Valid() && (b.betano.enabled || b.betclic.enabled)
    requires b.betano.enabled ==> interval <= b.betano.intervalSeconds && delay == b.betano.delaySeconds
    requires b.betclic.enabled ==> interval <= b.betclic.intervalSeconds
    requires (interval == b.betano.intervalSeconds && b.betano.enabled) ||
             (interval == b.betclic.intervalSeconds && b.betclic.enabled)
    requires !b.betano.enabled ==> delay == b.betclic.delaySeconds
    ensures ResolvePolicy(b).Some?
    ensures Due(WithAnchor(s, sport, now, ResolvePolicy(b).value.delaySeconds), ResolvePolicy(b).value, sport, now) <==>
            if exists d <- s.cycles :: d.sport == sport then
              && (forall d <- s.cycles :: d.sport == sport ==> d.slot + interval * 1_000_000 <= now)
              && (b.betano.enabled && (Betano, sport) in s.statuses && s.statuses[(Betano, sport)].blocked &&
                  s.statuses[(Betano, sport)].nextEligible.Some? ==>
                    s.statuses[(Betano, sport)].nextEligible.value <= now)
              && (b.betclic.enabled && (Betclic, sport) in s.statuses && s.statuses[(Betclic, sport)].blocked &&
                  s.statuses[(Betclic, sport)].nextEligible.Some? ==>
                    s.statuses[(Betclic, sport)].nextEligible.value <= now)
            else if sport in s.anchors then s.anchors[sport].firstDue <= now
            else delay == 0
  {
    hide Deferred, ResolvePolicy;
    var policy := ResolvePolicy(b).value;
    assert policy.delaySeconds == delay && policy.intervalSeconds == interval by { PolicyOnSettings(b); }
    DeferredOnRows(s.statuses, b, sport, now);
  }

  /**
   * Whatever commits fail, a cycle that the next tick adds to a sport that had one is added for the tick's own time,
   * the least interval after every earlier slot, and with no enabled provider blocked for the sport until later.
   */
  lemma TickHonoursBlocks(steps: seq<Step>, b: Settings, digest: int -> nat, now: int, faults: string -> SportFaults,
                          c: Cycle, d: Cycle)
    requires b.betano.intervalSeconds >= 300 && b.betano.delaySeconds >= 0
    requires b.betclic.intervalSeconds >= 300 && b.betclic.delaySeconds >= 0
    requires b.betano.enabled || b.betclic.enabled
    requires var s := Run(steps, b, digest); var after := Apply(s, b, digest, Tick(now, faults));
             |s.cycles| <= |after.cycles| && c in after.cycles[|s.cycles|..] && d in s.cycles && d.sport == c.sport
    ensures c.slot == now && c.enqueuedAt == now
    ensures (b.betano.enabled && d.slot + b.betano.intervalSeconds * 1_000_000 <= now) ||
            (b.betclic.enabled && d.slot + b.betclic.intervalSeconds * 1_000_000 <= now)
    ensures var statuses := Run(steps, b, digest).statuses;
            forall p: Provider ::
              (if p.Betano? then b.betano.enabled else b.betclic.enabled) && (p, c.sport) in statuses ==>
                !statuses[(p, c.sport)].blocked || statuses[(p, c.sport)].nextEligible.None? ||
                statuses[(p, c.sport)].nextEligible.value <= now
  {
    hide Run, TickFrom, Consistent;
    var s := Run(steps, b, digest);
    if b.enabled {
      var policy := ResolvePolicy(b).value;
      if c.sport !in SUPPORTED_SPORTS {
        OtherSports(s, b, SUPPORTED_SPORTS, now, digest, faults, 0, c.sport);
        assert false;
      }
      NextTickAddsWhenDue(steps, b, digest, now, faults, c.sport);
      DueOnRows(s, b, c.sport, now, policy.intervalSeconds, policy.delaySeconds);
    }
  }

  /** A tick that reports n enqueued sports has added n cycles, whatever the state it started from. */
  lemma TickCounts(s: Store, b: Settings, now: int, digest: int -> nat, faults: string -> SportFaults)
    ensures var (after, r) := TickOnce(s, b, now, digest, faults);
            r.Ok? ==> |after.cycles| == |s.cycles| + r.value
  {
    hide TickFrom;
    if b.enabled {
      SportsCount(s, b, SUPPORTED_SPORTS, now, digest, faults, 0);
    }
  }

  lemma SportCounts(s: Store, b: Settings, sport: string, now: int, digest: int -> nat, faults: SportFaults)
    ensures var (after, r) := IfDue(s, b, sport, now, digest, faults);
            r.Ok? ==> |after.cycles| == |s.cycles| + if r.value then 1 else 0
  {
    hide ResolvePolicy, NextSlot, LatestSlot;
  }

  lemma {:induction false} SportsCount(s: Store, b: Settings, sports: seq<string>, now: int, digest: int -> nat,
                                       faults: string -> SportFaults, enqueued: nat)
    ensures var (after, r) := TickFrom(s, b, sports, now, digest, faults, enqueued);
            r.Ok? ==> |after.cycles| + enqueued == |s.cycles| + r.value
    decreases |sports|
  {
    hide IfDue;
    if sports != [] {
      SportCounts(s, b, sports[0], now, digest, faults(sports[0]));
      var (between, outcome) := IfDue(s, b, sports[0], now, digest, faults(sports[0]));
      if outcome.Ok? {
        SportsCount(between, b, sports[1..], now, digest, faults, if outcome.value then enqueued + 1 else enqueued);
      }
    }
  }

  /**
   * Over every run: the slots of a sport are an interval apart, no cycle is enqueued before its slot, and each cycle
   * has its own job, which carries the cycle's sport, slot and time and is keyed by sport and second of the slot.
   */
  lemma RunOnRows(steps: seq<Step>, b: Settings, digest: int -> nat, i: nat, j: nat)
    requires b.betano.intervalSeconds >= 300 && b.betano.delaySeconds >= 0
    requires b.betclic.intervalSeconds >= 300 && b.betclic.delaySeconds >= 0
    requires b.betano.enabled || b.betclic.enabled
    requires i < j < |Run(steps, b, digest).cycles|
    ensures var s := Run(steps, b, digest); var (c, d) := (s.cycles[i], s.cycles[j]);
            && |s.jobs| == |s.cycles|
            && (c.sport == d.sport ==>
                  || (b.betano.enabled && c.slot + b.betano.intervalSeconds * 1_000_000 <= d.slot)
                  || (b.betclic.enabled && c.slot + b.betclic.intervalSeconds * 1_000_000 <= d.slot))
            && c.slot <= c.enqueuedAt && d.slot <= d.enqueuedAt
            && c.id != d.id && c.jobId != d.jobId && s.jobs[i].key != s.jobs[j].key
            && c.jobId == s.jobs[i].id && s.jobs[i].payload.sport == c.sport == s.jobs[i].key.sport
            && s.jobs[i].payload.slot == c.slot && s.jobs[i].payload.enqueuedAt == c.enqueuedAt
            && s.jobs[i].key.second == c.slot / 1_000_000
  {
    hide Run, ResolvePolicy;
    RunIsScheduled(steps, b, digest);
    PolicyOnSettings(b);
    var s := Run(steps, b, digest);
    assert Matches(s.cycles[i], s.jobs[i]) && Matches(s.cycles[j], s.jobs[j]);
    assert JobKey(s.jobs[i]) != JobKey(s.jobs[j]) && JobId(s.jobs[i]) != JobId(s.jobs[j]);
    assert CycleId(s.cycles[i]) != CycleId(s.cycles[j]);
    assert s.cycles[i] in s.cycles && s.cycles[j] in s.cycles;
  }

  /** Over every run each first due time is the initial delay after the tick that set it. */
  lemma AnchorsOnRows(steps: seq<Step>, b: Settings, digest: int -> nat, sport: string)
    requires b.betano.intervalSeconds >= 300 && b.betano.delaySeconds >= 0
    requires b.betclic.intervalSeconds >= 300 && b.betclic.delaySeconds >= 0
    requires b.betano.enabled || b.betclic.enabled
    ensures var s := Run(steps, b, digest);
            && (sport in s.anchors ==>
                  s.anchors[sport].firstDue == s.anchors[sport].setAt +
                  (if b.betano.enabled then b.betano.delaySeconds else b.betclic.delaySeconds) * 1_000_000)
            && (sport !in s.anchors ==> forall c <- s.cycles :: c.sport != sport)
  {
    hide Run, ResolvePolicy;
    RunIsScheduled(steps, b, digest);
    PolicyOnSettings(b);
  }
}
