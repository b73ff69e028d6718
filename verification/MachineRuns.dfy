/** The driver availability machine (internal/driver/state.go) along whole runs: which writers stay on its edges, and
    what becomes of the status updates that read and write in two Redis calls (internal/driver/service.go). */
module MachineRuns {
  import opened Common
  import opened LeaseValues
  import opened RedisLeases
  import opened DriverMachine
  import opened LeaseRuns

  /** The states the machine allows from everywhere. */
  predicate Harmless(to: DriverState) {
    to in {AVAILABLE, OFFLINE}
  }

  /** Writers that read and write in one step, and bare writes of a harmless state: the second half of a split
      ReleaseDriver always is one. */
  predicate Orderly(s: Step) {
    s.WriteState? ==> Harmless(s.s)
  }

  // ---------- every orderly writer obeys the machine ----------

  lemma StepObeysMachine(sys: System, s: Step, d: string)
    requires Enabled(sys, s) && Orderly(s) && d in sys.db.state
    ensures d in Next(sys, s).db.state
    ensures CanTransition(sys.db.state[d], Next(sys, s).db.state[d])
    ensures Next(sys, s).db.state[d] == ON_TRIP ==> sys.db.state[d] in {RESERVED, ON_TRIP}
  {}

  lemma {:induction false} RunSplits(sys: System, steps: seq<Step>, i: nat)
    requires Legal(sys, steps) && i < |steps|
    ensures Legal(sys, steps[..i]) && Legal(sys, steps[..i + 1])
    ensures Enabled(Run(sys, steps[..i]), steps[i])
    ensures Run(sys, steps[..i + 1]) == Next(Run(sys, steps[..i]), steps[i])
    decreases i
  {
    var rest := steps[1..];
    if i == 0 {
      assert steps[..1] == [steps[0]] && steps[..1][1..] == [] && steps[..0] == [];
    } else {
      RunSplits(Next(sys, steps[0]), rest, i - 1);
      assert steps[..i][1..] == rest[..i - 1] && steps[..i + 1][1..] == rest[..i];
    }
  }

  lemma {:induction false} DriversAreKept(sys: System, steps: seq<Step>, d: string)
    requires Legal(sys, steps) && d in sys.db.state
    ensures d in Run(sys, steps).db.state
    decreases |steps|
  {
    if steps != [] { DriversAreKept(Next(sys, steps[0]), steps[1..], d); }
  }

  /** Along every run, whatever the other steps do, each change of a driver state by an orderly writer is an edge of the
      machine, and a trip starts only from RESERVED. The i-th step is compared with the state right before it. */
  lemma WritersObeyMachine(sys: System, steps: seq<Step>, i: nat, d: string)
    requires Legal(sys, steps) && i < |steps| && Orderly(steps[i])
    requires d in sys.db.state
    ensures Legal(sys, steps[..i]) && Legal(sys, steps[..i + 1])
    ensures var before, after := Run(sys, steps[..i]).db.state, Run(sys, steps[..i + 1]).db.state;
            && d in before && d in after
            && CanTransition(before[d], after[d])
            && (after[d] == ON_TRIP ==> before[d] in {RESERVED, ON_TRIP})
  {
    RunSplits(sys, steps, i);
    DriversAreKept(sys, steps[..i], d);
    StepObeysMachine(Run(sys, steps[..i]), steps[i], d);
  }

  // ---------- split updates ----------

  /** A status update to `to` reads the state after `before` and finds the transition legal. Others then take the steps
      `between`, and its write follows an edge of the machine all the same. */
  predicate StaysLegal(start: System, before: seq<Step>, between: seq<Step>, d: string, to: DriverState)
    requires Legal(start, before) && Legal(Run(start, before), between)
  {
    var read := Run(start, before).db.state;
    var write := Run(Run(start, before), between).db.state;
    d in read && CanTransition(read[d], to) ==> d in write && CanTransition(write[d], to)
  }

  predicate WholeWriters(steps: seq<Step>) {
    forall i :: 0 <= i < |steps| ==> !steps[i].WriteState?
  }

  /** Under every interleaving with writers that obey the machine themselves. */
  ghost predicate SplitSafe(to: DriverState) {
    forall start, before, between, d ::
      Initial(start) && Legal(start, before) && Legal(Run(start, before), between) && WholeWriters(between) ==>
        StaysLegal(start, before, between, d, to)
  }

  /** Nothing is in Redis, no manager runs. */
  function Empty(): System { System(Db(0, map[], map[], map[]), [], []) }

  /** What a split update to `to` may read first, and the whole update of another caller that then overtakes it. */
  function ReadState(to: DriverState): DriverState {
    if to == RESERVED then AVAILABLE else RESERVED
  }

  function Overtaker(to: DriverState): DriverState {
    match to
    case PAUSED => ON_TRIP
    case RESERVED => OFFLINE
    case _ => AVAILABLE
  }

  /** One registration, one or two status updates: enough to reach the breaking state from an empty Redis. */
  lemma OvertakenUpdateBreaks(to: DriverState, d: string)
    requires !Harmless(to)
    ensures var before := [Register(d, true), UpdateStatus(d, ReadState(to))];
            var between := [UpdateStatus(d, Overtaker(to))];
            && Legal(Empty(), before) && Legal(Run(Empty(), before), between)
            && !StaysLegal(Empty(), before, between, d, to)
  {
    var before, between := [Register(d, true), UpdateStatus(d, ReadState(to))], [UpdateStatus(d, Overtaker(to))];
    var one := Next(Empty(), before[0]);
    var two := Next(one, before[1]);
    var three := Next(two, between[0]);
    assert before[1..] == [before[1]] && before[1..][1..] == [] && between[1..] == [];
    assert Run(Empty(), before) == Run(one, before[1..]) == two;
    assert Run(two, between) == three;
  }

  /** Which split updates are safe, checkable before the call: those to a state the machine allows from everywhere. */
  lemma SplitSafeIff(to: DriverState)
    ensures SplitSafe(to) <==> Harmless(to)
  {
    if Harmless(to) {
      forall start, before, between, d
        | Initial(start) && Legal(start, before) && Legal(Run(start, before), between) && WholeWriters(between)
        ensures StaysLegal(start, before, between, d, to)
      {
        if d in Run(start, before).db.state { DriversAreKept(Run(start, before), between, d); }
      }
    } else {
      OvertakenUpdateBreaks(to, "d");
    }
  }

  /** The instance that matters most: a holder releases between the read and the write of an update to ON_TRIP, and a
      driver that nobody reserved is on a trip. */
  lemma SplitStatusUpdateBreaksMachine(sys: System, h: nat, d: string)
    requires Inv(sys) && Active(sys, h) && sys.held[h].driver == d
    requires d in sys.db.state && sys.db.state[d] == RESERVED
    ensures Legal(sys, [Release(h)]) && !StaysLegal(sys, [], [Release(h)], d, ON_TRIP)
    ensures var write := Run(sys, [Release(h)]).db.state; d in write && write[d] == AVAILABLE
  {
    assert Backed(sys, h);
    var one := [Release(h)];
    assert one[1..] == [];
    assert Run(sys, one) == Run(AfterRelease(sys, h), []) == AfterRelease(sys, h);
  }
}
