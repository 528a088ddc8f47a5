/** Any number of schedulers on one database. */
module SchedulerInterleaving {
  import opened Wrappers
  import opened Providers
  import opened SchedulerStore
  import opened Scheduler
  import opened SchedulerRuns

  /*
   * A tick is not atomic: the slot is read in one step and written in a later one, and the other schedulers, each with
   * its own settings and clock, act in between.
   */

  /** A slot that a scheduler found due and has not written yet. */
  datatype Pending = Pending(sport: string, slot: int, now: int)

  datatype System = System(store: Store, pending: map<nat, Pending>)

  datatype Action =
    | EnsureAnchor(policy: Policy, sport: string, now: int, commits: bool)
    | Look(scheduler: nat, policy: Policy, sport: string, now: int)
    | Write(scheduler: nat, digest: nat, commits: bool)
    | ChangeStatuses(statuses: Statuses)

  function Act(y: System, action: Action): System {
    match action
    case EnsureAnchor(policy, sport, now, commits) =>
      if commits then y.(store := WithAnchor(y.store, sport, now, policy.delaySeconds)) else y
    case Look(scheduler, policy, sport, now) =>
      var slot := NextSlot(y.store, Some(policy), sport, now);
      y.(pending := if slot > now then y.pending - {scheduler} else y.pending[scheduler := Pending(sport, slot, now)])
    case Write(scheduler, digest, commits) =>
      if scheduler !in y.pending then y
      else
        var p := y.pending[scheduler];
        System(AfterEnqueue(y.store, p.sport, p.slot, p.now, digest, commits), y.pending - {scheduler})
    case ChangeStatuses(statuses) => y.(store := y.store.(statuses := statuses))
  }

  ghost function Reached(actions: seq<Action>): System {
    if actions == [] then System(EMPTY, map[]) else Act(Reached(actions[..|actions| - 1]), actions[|actions| - 1])
  }

  /** What survives every interleaving: the tables agree row by row and nothing is enqueued before its slot. */
  predicate Sound(y: System) {
    Consistent(y.store) && NeverEarly(y.store.cycles) && forall i <- y.pending :: y.pending[i].slot <= y.pending[i].now
  }

  lemma WriteKeepsSound(y: System, scheduler: nat, digest: nat, commits: bool)
    requires Sound(y)
    ensures Sound(Act(y, Write(scheduler, digest, commits)))
  {
    hide Consistent, SlotTaken, KeyTaken, WithEnqueued;
    if scheduler in y.pending {
      var p := y.pending[scheduler];
      EnqueueKeepsConsistent(y.store, p.sport, p.slot, p.now, digest, commits);
      EnqueueOutcome(y.store, p.sport, p.slot, p.now, digest);
    }
  }

  lemma {:induction false} EveryInterleavingIsSound(actions: seq<Action>)
    ensures Sound(Reached(actions))
  {
    if actions != [] {
      hide WithEnqueued, AfterEnqueue, NextSlot, WithAnchor;
      var y, action := Reached(actions[..|actions| - 1]), actions[|actions| - 1];
      EveryInterleavingIsSound(actions[..|actions| - 1]);
      if action.Write? {
        WriteKeepsSound(y, action.scheduler, action.digest, action.commits);
      } else if action.EnsureAnchor? {
        AnchorTouchesNoRow(y.store, action.sport, action.now, action.policy.delaySeconds);
      }
    }
  }

  lemma AnchorTouchesNoRow(s: Store, sport: string, now: int, delaySeconds: int)
    ensures WithAnchor(s, sport, now, delaySeconds) == s.(anchors := WithAnchor(s, sport, now, delaySeconds).anchors)
    ensures forall other <- s.anchors :: other in WithAnchor(s, sport, now, delaySeconds).anchors
                                      && WithAnchor(s, sport, now, delaySeconds).anchors[other] == s.anchors[other]
  {
  }

  /** A write that is suppressed, conflicts or does not commit leaves every table as it was. */
  lemma WriteIsAllOrNothing(y: System, scheduler: nat, digest: nat, commits: bool)
    requires Sound(y) && scheduler in y.pending
    ensures var p := y.pending[scheduler];
            Act(y, Write(scheduler, digest, commits)).store ==
            if commits && !SlotTaken(y.store, p.sport, p.slot) && !KeyTaken(y.store, KeyOf(p.sport, p.slot, digest))
            then Inserted(y.store, p.sport, p.slot, p.now, digest) else y.store
  {
    hide Consistent, SlotTaken, KeyTaken, WithEnqueued, Inserted;
    var p := y.pending[scheduler];
    EnqueueOutcome(y.store, p.sport, p.slot, p.now, digest);
  }

  /** Two schedulers that found the same slot due: once one has written it, the other changes nothing. */
  lemma RaceForOneSlot(y: System, first: nat, second: nat, digest1: nat, digest2: nat)
    requires Sound(y) && first in y.pending && second in y.pending && first != second
    requires y.pending[first].sport == y.pending[second].sport && y.pending[first].slot == y.pending[second].slot
    requires !SlotTaken(y.store, y.pending[first].sport, y.pending[first].slot)
    requires !KeyTaken(y.store, KeyOf(y.pending[first].sport, y.pending[first].slot, digest1))
    ensures var once := Act(y, Write(first, digest1, true));
            && |once.store.cycles| == |y.store.cycles| + 1
            && Act(once, Write(second, digest2, true)).store == once.store
  {
    hide Consistent, WithEnqueued;
    var p := y.pending[first];
    var once := Act(y, Write(first, digest1, true));
    WriteIsAllOrNothing(y, first, digest1, true);
    WriteKeepsSound(y, first, digest1, true);
    WriteIsAllOrNothing(once, second, digest2, true);
    assert once.store.cycles[|y.store.cycles|] in once.store.cycles;
  }

  /* ---------- When an interleaving stays spaced ---------- */

  /** The write adds a cycle: it commits and finds its slot and its key free. */
  predicate Effective(y: System, scheduler: nat, digest: nat, commits: bool)
    requires scheduler in y.pending
  {
    var p := y.pending[scheduler];
    commits && !SlotTaken(y.store, p.sport, p.slot) && !KeyTaken(y.store, KeyOf(p.sport, p.slot, digest))
  }

  /** The slot lies a gap behind every cycle of its sport. */
  predicate ComesAfter(cycles: seq<Cycle>, sport: string, slot: int, gap: int) {
    forall c <- cycles :: c.sport == sport ==> slot >= c.slot + gap
  }

  lemma AppendSpaced(cycles: seq<Cycle>, c: Cycle, gap: int)
    ensures Spaced(cycles + [c], gap) <==> Spaced(cycles, gap) && ComesAfter(cycles, c.sport, c.slot, gap)
  {
    var more := cycles + [c];
    if Spaced(more, gap) {
      forall i, j | 0 <= i < j < |cycles| && cycles[i].sport == cycles[j].sport
        ensures cycles[j].slot >= cycles[i].slot + gap
      {
        assert more[i] == cycles[i] && more[j] == cycles[j];
      }
      forall d <- cycles ensures d.sport == c.sport ==> c.slot >= d.slot + gap {
        var i :| 0 <= i < |cycles| && cycles[i] == d;
        assert more[i] == d && more[|cycles|] == c;
      }
    }
  }

  /** A write keeps the cycles spaced if and only if it adds nothing or comes after every cycle of its sport. */
  lemma WriteKeepsSpacedExactly(y: System, scheduler: nat, digest: nat, commits: bool, gap: int)
    requires Sound(y) && scheduler in y.pending && Spaced(y.store.cycles, gap)
    ensures var p := y.pending[scheduler];
            Spaced(Act(y, Write(scheduler, digest, commits)).store.cycles, gap) <==>
            (Effective(y, scheduler, digest, commits) ==> ComesAfter(y.store.cycles, p.sport, p.slot, gap))
  {
    hide Act, Sound, Spaced, ComesAfter, SlotTaken, KeyTaken;
    var p := y.pending[scheduler];
    WriteIsAllOrNothing(y, scheduler, digest, commits);
    AppendSpaced(y.store.cycles, Cycle(y.store.nextId + 1, p.sport, p.slot, p.now, y.store.nextId), gap);
  }

  /** The guard, for whatever action comes next. */
  predicate MeetsGuard(y: System, action: Action, gap: int) {
    action.Write? && action.scheduler in y.pending && Effective(y, action.scheduler, action.digest, action.commits) ==>
      var p := y.pending[action.scheduler];
      ComesAfter(y.store.cycles, p.sport, p.slot, gap)
  }

  lemma ActKeepsSpacedExactly(y: System, action: Action, gap: int)
    requires Sound(y)
    ensures Spaced(Act(y, action).store.cycles, gap) <==> Spaced(y.store.cycles, gap) && MeetsGuard(y, action, gap)
  {
    hide Sound, Spaced, ComesAfter, SlotTaken, KeyTaken, WithEnqueued, AfterEnqueue, NextSlot, WithAnchor;
    if action.Write? && action.scheduler in y.pending {
      var p := y.pending[action.scheduler];
      WriteIsAllOrNothing(y, action.scheduler, action.digest, action.commits);
      AppendSpaced(y.store.cycles, Cycle(y.store.nextId + 1, p.sport, p.slot, p.now, y.store.nextId), gap);
    } else if action.EnsureAnchor? {
      AnchorTouchesNoRow(y.store, action.sport, action.now, action.policy.delaySeconds);
    }
  }

  /**
   * Whatever the schedulers, clocks and settings, a run is spaced if and only if each of its writes meets the guard.
   */
  lemma {:induction false} RunIsSpacedExactly(actions: seq<Action>, gap: int)
    ensures Spaced(Reached(actions).store.cycles, gap) <==>
            forall n :: 0 <= n < |actions| ==> MeetsGuard(Reached(actions[..n]), actions[n], gap)
  {
    hide Act, Reached, Sound, Spaced, MeetsGuard;
    if actions == [] {
      NothingReached(actions);
      NothingSpaced(gap);
    } else {
      var front := actions[..|actions| - 1];
      RunIsSpacedExactly(front, gap);
      EveryInterleavingIsSound(front);
      LastReached(actions);
      ActKeepsSpacedExactly(Reached(front), actions[|front|], gap);
      forall n | 0 <= n < |front| ensures actions[..n] == front[..n] && actions[n] == front[n] {
      }
    }
  }

  lemma NothingReached(actions: seq<Action>)
    requires actions == []
    ensures Reached(actions) == System(EMPTY, map[])
  {
  }

  lemma LastReached(actions: seq<Action>)
    requires actions != []
    ensures Reached(actions) == Act(Reached(actions[..|actions| - 1]), actions[|actions| - 1])
  {
    hide Act;
  }

  lemma NothingSpaced(gap: int)
    ensures Spaced([], gap)
  {
  }

  /* ---------- Spacing is lost ---------- */

  const LONE_BETANO := Policy([Betano], 0, MINIMUM_INTERVAL)

  /** Both schedulers look after the first cycle's interval has passed, one second apart, and then both write. */
  const RACE: seq<Action> := [
    EnsureAnchor(LONE_BETANO, "football", 0, true),
    Look(0, LONE_BETANO, "football", 0),
    Write(0, 0, true),
    Look(0, LONE_BETANO, "football", 300 * SECOND),
    Look(1, LONE_BETANO, "football", 301 * SECOND),
    Write(0, 0, true),
    Write(1, 0, true)]

  lemma ReachedStep(n: nat)
    requires n < |RACE|
    ensures Reached(RACE[..n + 1]) == Act(Reached(RACE[..n]), RACE[n])
  {
    assert RACE[..n + 1][..n] == RACE[..n];
  }

  const FIRST := Cycle(1, "football", 0, 0, 0)

  const AFTER_FIRST := Store(map["football" := Anchor(0, 0)], [FIRST],
                             [Job(0, Key("football", 0, 0), Payload("football", 0, 0))], map[], 2)

  lemma RaceBegins()
    ensures Reached(RACE[..3]) == System(AFTER_FIRST, map[])
  {
    ReachedStep(0);
    ReachedStep(1);
    ReachedStep(2);
    assert Reached(RACE[..1]).store == EMPTY.(anchors := map["football" := Anchor(0, 0)]);
    assert Reached(RACE[..2]).pending == map[0 := Pending("football", 0, 0)];
    assert KeyOf("football", 0, 0) == Key("football", 0, 0);
  }

  lemma BothLook()
    ensures Reached(RACE[..5]) == System(AFTER_FIRST, map[
                                    0 := Pending("football", 300 * SECOND, 300 * SECOND),
                                    1 := Pending("football", 301 * SECOND, 301 * SECOND)])
  {
    hide WithEnqueued, AfterEnqueue, WithAnchor;
    RaceBegins();
    ReachedStep(3);
    ReachedStep(4);
    assert LatestSlot([FIRST], "football") == Some(0);
    forall now ensures EligibleAt(map[], [Betano], "football", now) == now {
      assert [Betano][..0] == [];
    }
  }

  /** Two pending writes for the same sport closer than the gap both go through when their slots and keys are free. */
  lemma BothWritesGoThrough(y: System, first: nat, second: nat, digest: nat, gap: int)
    requires Sound(y) && first in y.pending && second in y.pending && first != second
    requires y.pending[first].sport == y.pending[second].sport
    requires y.pending[first].slot < y.pending[second].slot < y.pending[first].slot + gap
    requires y.pending[first].slot / SECOND != y.pending[second].slot / SECOND
    requires forall i <- {first, second} :: var p := y.pending[i];
               !SlotTaken(y.store, p.sport, p.slot) && !KeyTaken(y.store, KeyOf(p.sport, p.slot, digest))
    ensures !Spaced(Act(Act(y, Write(first, digest, true)), Write(second, digest, true)).store.cycles, gap)
  {
    hide Consistent, WithEnqueued, NeverEarly;
    var p, q := y.pending[first], y.pending[second];
    var once := Act(y, Write(first, digest, true));
    WriteIsAllOrNothing(y, first, digest, true);
    WriteKeepsSound(y, first, digest, true);
    WriteIsAllOrNothing(once, second, digest, true);
    var twice := Act(once, Write(second, digest, true)).store;
    var n := |y.store.cycles|;
    assert twice.cycles[n].slot == p.slot && twice.cycles[n + 1].slot == q.slot;
  }

  lemma SpacingFailsForTwoSchedulers()
    ensures LONE_BETANO.Valid() && !Spaced(Reached(RACE).store.cycles, LONE_BETANO.Gap())
  {
    hide Reached, Act, Spaced, Sound;
    BothLook();
    var looked := Reached(RACE[..5]);
    EveryInterleavingIsSound(RACE[..5]);
    ReachedStep(5);
    ReachedStep(6);
    assert RACE[..7] == RACE;
    BothWritesGoThrough(looked, 0, 1, 0, LONE_BETANO.Gap());
  }
}
