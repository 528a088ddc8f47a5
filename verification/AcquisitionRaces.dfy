/** The acquisition protocol without the job lease. */
module AcquisitionRaces {
  import opened Wrappers
  import opened Providers
  import opened Admission
  import opened AcquisitionStore
  import opened AcquisitionService
  import Runs = AcquisitionRuns

  /*
   * A worker that lost its lease may go on ingesting a cycle that another worker has claimed again, because a worker
   * only knows of the cycles it ingests itself.
   */

  /** One store, and the cycles each worker is ingesting. */
  datatype System = System(store: Store, flights: map<nat, map<RunKey, Runs.Phase>>)

  datatype Step = Step(worker: nat, action: Runs.Action)

  /** What a worker sees: the shared store and its own flights. */
  function View(y: System, worker: nat): Runs.System {
    Runs.System(y.store, if worker in y.flights then y.flights[worker] else map[])
  }

  function Act(y: System, step: Step): System {
    var after := Runs.Act(View(y, step.worker), step.action);
    System(after.store, y.flights[step.worker := after.flights])
  }

  ghost function Reached(steps: seq<Step>): System {
    if steps == [] then System(EMPTY, map[]) else Act(Reached(steps[..|steps| - 1]), steps[|steps| - 1])
  }

  /* ---------- One write ---------- */

  /** The run row that an action writes, if it writes one. */
  function RowWritten(v: Runs.System, action: Runs.Action): Option<Run> {
    match action
    case Finish(key, _, _, _, _, _, _) =>
      var w := Runs.Written(v, action);
      if w.Some? then Some(RunAfter(v.store, key, w.value)) else None
    case Finalise(key, commits) =>
      if key in v.flights && v.flights[key] == Runs.Exhausted && commits && key in v.store.runs then
        Some(Run(Failed, v.store.runs[key].snapshot, None, EXHAUSTED))
      else None
    case _ => None
  }

  lemma RowsAfter(v: Runs.System, action: Runs.Action)
    ensures var row := RowWritten(v, action);
            Runs.Act(v, action).store.runs == if row.Some? then v.store.runs[action.key := row.value] else v.store.runs
  {
    hide Persisted, WriteFor;
    var w := Runs.Written(v, action);
    if w.Some? {
      PersistedEffect(v.store, action.key, action.number, w.value);
    }
  }

  /** Every terminal row is still there, as it was. */
  predicate KeepsTerminalRows(s: Store, t: Store) {
    forall key <- s.runs :: Terminal(s.runs[key].status) ==> key in t.runs && t.runs[key] == s.runs[key]
  }

  /** The run written to is not terminal by then, or the row written is the row already there. */
  predicate MeetsGuard(v: Runs.System, action: Runs.Action) {
    var row := RowWritten(v, action);
    row.Some? && RunIsTerminal(v.store, action.key) ==> row.value == v.store.runs[action.key]
  }

  /** A step leaves all terminal rows alone if and only if what it writes meets the guard. */
  lemma StepKeepsTerminalExactly(v: Runs.System, action: Runs.Action)
    ensures KeepsTerminalRows(v.store, Runs.Act(v, action).store) <==> MeetsGuard(v, action)
  {
    hide RowWritten, Runs.Act;
    RowsAfter(v, action);
    var s, t := v.store, Runs.Act(v, action).store;
    if KeepsTerminalRows(s, t) && RunIsTerminal(s, action.key) {
      assert t.runs[action.key] == s.runs[action.key];
    }
  }

  /* ---------- Whole runs ---------- */

  lemma KeepsTransitive(s: Store, t: Store, u: Store)
    requires KeepsTerminalRows(s, t) && KeepsTerminalRows(t, u)
    ensures KeepsTerminalRows(s, u)
  {
  }

  ghost predicate EveryWriteMeetsGuard(steps: seq<Step>) {
    forall n :: 0 <= n < |steps| ==> MeetsGuard(View(Reached(steps[..n]), steps[n].worker), steps[n].action)
  }

  ghost predicate TerminalRowsStay(steps: seq<Step>) {
    forall m, n :: 0 <= m <= n <= |steps| ==> KeepsTerminalRows(Reached(steps[..m]).store, Reached(steps[..n]).store)
  }

  lemma NextReached(steps: seq<Step>, n: nat)
    requires n < |steps|
    ensures Reached(steps[..n + 1]) == Act(Reached(steps[..n]), steps[n])
  {
    assert steps[..n + 1][..n] == steps[..n];
  }

  lemma {:induction false} RowsStayTill(steps: seq<Step>, m: nat, n: nat)
    requires EveryWriteMeetsGuard(steps) && m <= n <= |steps|
    ensures KeepsTerminalRows(Reached(steps[..m]).store, Reached(steps[..n]).store)
    decreases n
  {
    hide Reached, MeetsGuard, KeepsTerminalRows;
    var s := Reached(steps[..m]).store;
    if m == n {
      assert KeepsTerminalRows(s, s) by { NothingLost(s); }
    } else {
      RowsStayTill(steps, m, n - 1);
      NextReached(steps, n - 1);
      var before, step := Reached(steps[..n - 1]), steps[n - 1];
      StepKeepsTerminalExactly(View(before, step.worker), step.action);
      KeepsTransitive(s, before.store, Act(before, step).store);
    }
  }

  lemma NothingLost(s: Store)
    ensures KeepsTerminalRows(s, s)
  {
  }

  /** Over every run of any number of workers, terminal rows are final if and only if each write meets the guard. */
  lemma TerminalIsFinalExactly(steps: seq<Step>)
    ensures TerminalRowsStay(steps) <==> EveryWriteMeetsGuard(steps)
  {
    hide Reached, MeetsGuard, KeepsTerminalRows;
    if EveryWriteMeetsGuard(steps) {
      forall m, n | 0 <= m <= n <= |steps|
        ensures KeepsTerminalRows(Reached(steps[..m]).store, Reached(steps[..n]).store)
      {
        RowsStayTill(steps, m, n);
      }
    }
    if TerminalRowsStay(steps) {
      forall n | 0 <= n < |steps|
        ensures MeetsGuard(View(Reached(steps[..n]), steps[n].worker), steps[n].action)
      {
        NextReached(steps, n);
        StepKeepsTerminalExactly(View(Reached(steps[..n]), steps[n].worker), steps[n].action);
      }
    }
  }

  /* ---------- The lease is sufficient ---------- */

  /** A worker begins a cycle only while no other worker ingests it. */
  predicate HoldsLease(y: System, step: Step) {
    step.action.Begin? ==> forall w <- y.flights :: w != step.worker ==> step.action.key !in y.flights[w]
  }

  ghost predicate Leased(steps: seq<Step>) {
    forall n :: 0 <= n < |steps| ==> HoldsLease(Reached(steps[..n]), steps[n])
  }

  /** No cycle is ingested twice at once, and none that is ingested is terminal. */
  predicate Exclusive(y: System) {
    && (forall w <- y.flights, key <- y.flights[w] :: !RunIsTerminal(y.store, key))
    && (forall w <- y.flights, x <- y.flights :: w != x ==> y.flights[w].Keys !! y.flights[x].Keys)
  }

  /** A worker's step touches one run row, and only that of a cycle it ingests. */
  lemma StepTouches(v: Runs.System, action: Runs.Action)
    ensures RowWritten(v, action).Some? ==> action.key in v.flights
    ensures Runs.Act(v, action).flights.Keys <= v.flights.Keys + {action.key}
    ensures action.key in Runs.Act(v, action).flights && action.key !in v.flights ==>
              action.Begin? && !RunIsTerminal(v.store, action.key)
    ensures action.key in Runs.Act(v, action).flights && RowWritten(v, action).Some? ==>
              !Terminal(RowWritten(v, action).value.status)
  {
    hide Persisted, WriteFor;
  }

  lemma StepKeepsExclusive(y: System, step: Step)
    requires Exclusive(y) && HoldsLease(y, step)
    ensures Exclusive(Act(y, step))
    ensures MeetsGuard(View(y, step.worker), step.action)
  {
    hide RowWritten, Runs.Act;
    var v := View(y, step.worker);
    var after := Act(y, step);
    RowsAfter(v, step.action);
    StepTouches(v, step.action);
    forall w <- after.flights, key <- after.flights[w] ensures !RunIsTerminal(after.store, key) {
      if w != step.worker {
        assert key in y.flights[w] && !RunIsTerminal(y.store, key);
        if step.worker in y.flights {
          assert y.flights[w].Keys !! y.flights[step.worker].Keys;
        }
      } else if key in v.flights {
        assert !RunIsTerminal(y.store, key);
      }
    }
    forall w <- after.flights, x <- after.flights | w != x ensures after.flights[w].Keys !! after.flights[x].Keys {
      if w == step.worker {
        OtherKeysApart(y, step, x);
      } else if x == step.worker {
        OtherKeysApart(y, step, w);
      }
    }
  }

  lemma OtherKeysApart(y: System, step: Step, other: nat)
    requires Exclusive(y) && HoldsLease(y, step) && other in y.flights && other != step.worker
    ensures Act(y, step).flights[step.worker].Keys !! y.flights[other].Keys
  {
    hide RowWritten, Runs.Act;
    var v := View(y, step.worker);
    StepTouches(v, step.action);
    forall key <- Act(y, step).flights[step.worker].Keys ensures key !in y.flights[other] {
      if step.worker in y.flights {
        assert y.flights[step.worker].Keys !! y.flights[other].Keys;
      }
    }
  }

  lemma {:induction false} LeasedIsExclusive(steps: seq<Step>, n: nat)
    requires Leased(steps) && n <= |steps|
    ensures Exclusive(Reached(steps[..n]))
  {
    hide Act, Exclusive, HoldsLease;
    if n == 0 {
      assert Exclusive(System(EMPTY, map[])) by { NobodyIngests(); }
    } else {
      LeasedIsExclusive(steps, n - 1);
      NextReached(steps, n - 1);
      StepKeepsExclusive(Reached(steps[..n - 1]), steps[n - 1]);
    }
  }

  lemma NobodyIngests()
    ensures Exclusive(System(EMPTY, map[]))
  {
  }

  /** Under the lease every write meets the guard, so terminal rows are final for any number of workers. */
  lemma LeaseSuffices(steps: seq<Step>)
    requires Leased(steps)
    ensures TerminalRowsStay(steps)
  {
    hide Act, Exclusive, HoldsLease, MeetsGuard, TerminalRowsStay;
    forall n | 0 <= n < |steps| ensures MeetsGuard(View(Reached(steps[..n]), steps[n].worker), steps[n].action) {
      LeasedIsExclusive(steps, n);
      StepKeepsExclusive(Reached(steps[..n]), steps[n]);
    }
    TerminalIsFinalExactly(steps);
  }

  /* ---------- The lease is necessary ---------- */

  const KEY := Runs.BETANO_KEY

  /** The first worker loses its lease while acquiring; a second one claims the cycle, and both finish. */
  const RACE: seq<Step> := [
    Step(1, Runs.Begin(KEY)),
    Step(2, Runs.Begin(KEY)),
    Step(1, Runs.Finish(KEY, 1, 2, Runs.PAGE, Runs.POLICY, Runs.TIMES, true)),
    Step(2, Runs.Finish(KEY, 2, 2, SourcePermanent, Runs.POLICY, Runs.TIMES, true))]

  const OPEN: map<RunKey, Runs.Phase> := map[KEY := Runs.Acquiring]

  lemma BothBegin()
    ensures Reached(RACE[..1]) == System(EMPTY, map[1 := OPEN])
    ensures Reached(RACE[..2]) == System(EMPTY, map[1 := OPEN, 2 := OPEN])
  {
    NextReached(RACE, 0);
    NextReached(RACE, 1);
    assert Reached(RACE[..0]) == System(EMPTY, map[]);
  }

  /** The store after the first worker has published. */
  lemma FirstPublishes()
    ensures var y := Reached(RACE[..3]);
            && y.flights == map[1 := map[], 2 := OPEN]
            && y.store.runs == map[KEY := Run(Succeeded, Some(7), None, "")]
            && y.store.registrations == map[7 := Registration(KEY, "checksum", "path", 0)]
            && y.store.attempts.Keys == {(KEY, 1)}
            && LastValid(y.store, Betano, "football") == Some(7)
  {
    hide Persisted, WriteFor, Reached;
    BothBegin();
    NextReached(RACE, 2);
    Runs.FirstPublication(KEY, 1);
  }

  /** The second worker overwrites the published run: it fails, and still names the snapshot that stays registered. */
  lemma TerminalNeedsTheLease()
    ensures var before, after := Reached(RACE[..3]).store, Reached(RACE).store;
            && before.runs == map[KEY := Run(Succeeded, Some(7), None, "")]
            && after.runs == map[KEY := Run(Failed, Some(7), None, "permanent-source-error")]
            && 7 in after.registrations && after.registrations[7].key == KEY
            && LastValid(after, Betano, "football") == Some(7)
    ensures !Leased(RACE) && !EveryWriteMeetsGuard(RACE) && !TerminalRowsStay(RACE)
  {
    hide Persisted, Reached, Leased, EveryWriteMeetsGuard, TerminalRowsStay;
    FirstPublishes();
    NextReached(RACE, 3);
    assert RACE[..4] == RACE;
    var before := Reached(RACE[..3]);
    PersistedEffect(before.store, KEY, 2, WriteFor(SourcePermanent, Runs.POLICY, Runs.TIMES));
    RowsAreLost();
    TerminalIsFinalExactly(RACE);
    if Leased(RACE) {
      LeaseSuffices(RACE);
    }
  }

  lemma RowsAreLost()
    requires Reached(RACE[..3]).store.runs == map[KEY := Run(Succeeded, Some(7), None, "")]
    requires Reached(RACE).store.runs == map[KEY := Run(Failed, Some(7), None, "permanent-source-error")]
    ensures !TerminalRowsStay(RACE)
  {
    hide Reached;
    assert RACE[..4] == RACE;
    var s, t := Reached(RACE[..3]).store, Reached(RACE).store;
    assert KEY in s.runs && t.runs[KEY] != s.runs[KEY];
    assert !KeepsTerminalRows(s, t);
  }
}
