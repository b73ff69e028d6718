/** What the renewal loop of a reservation (internal/reservation/manager.go) achieves along whole runs: the hold it
    keeps when it ticks often enough, the exact bound on its interval, and what a loop that nobody stops does to a
    driver. */
module LeaseHold {
  import opened Common
  import opened LeaseValues
  import opened RedisLeases
  import opened DriverMachine
  import opened LeaseRuns
  import opened LeaseTheorems

  // ---------- the schedule of a loop ----------

  /** Holder k's loop is not stopped, and the clock never gets further than `gap` past `last`, the time of its last
      renewal attempt. What Redis answered to that attempt plays no part. */
  predicate OnTime(sys: System, s: Step, k: nat, gap: nat, last: int) {
    match s
    case Tick(ms) => sys.db.now + ms - last <= gap
    case StopRenewing(h) => h != k
    case Release(h) => h != k
    case Crash(m) => k < |sys.held| ==> m != sys.held[k].manager
    case _ => true
  }

  function LastAttempt(sys: System, s: Step, k: nat, last: int): int {
    if s == Renew(k) then sys.db.now else last
  }

  predicate Punctual(sys: System, steps: seq<Step>, k: nat, gap: nat, last: int)
    requires Legal(sys, steps)
    decreases |steps|
  {
    steps == [] ||
    (OnTime(sys, steps[0], k, gap, last) &&
     Punctual(Next(sys, steps[0]), steps[1..], k, gap, LastAttempt(sys, steps[0], k, last)))
  }

  /** Every renewal attempt of holder k along the run is granted. */
  predicate RenewalsSucceed(sys: System, steps: seq<Step>, k: nat)
    requires Legal(sys, steps)
    decreases |steps|
  {
    steps == [] ||
    ((steps[0] == Renew(k) ==> RenewReply(sys, k).1 == Reserved) &&
     RenewalsSucceed(Next(sys, steps[0]), steps[1..], k))
  }

  // ---------- continuous hold ----------

  /** The last attempt of holder k, at time `last`, was granted. */
  predicate GrantedAt(sys: System, k: nat, last: int) {
    && k < |sys.held| && sys.held[k].manager < |sys.managers|
    && sys.held[k].grantedUntil == last + 1000 * Ttl(sys, sys.held[k].manager)
  }

  /** Who holder k is; no step changes it. */
  predicate SameHolder(a: System, b: System, k: nat) {
    && k < |a.held| && k < |b.held| && a.held[k].manager < |a.managers| && |a.managers| == |b.managers|
    && a.held[k].driver == b.held[k].driver && a.held[k].lease == b.held[k].lease
    && a.held[k].manager == b.held[k].manager
    && Ttl(a, a.held[k].manager) == Ttl(b, a.held[k].manager)
  }

  lemma HoldStep(sys: System, s: Step, k: nat, gap: nat, last: int)
    requires Inv(sys) && Active(sys, k) && GrantedAt(sys, k, last) && Enabled(sys, s) && OnTime(sys, s, k, gap, last)
    requires gap < 1000 * Ttl(sys, sys.held[k].manager)
    ensures s == Renew(k) ==> RenewReply(sys, k).1 == Reserved
    ensures Active(Next(sys, s), k) && SameHolder(sys, Next(sys, s), k)
    ensures GrantedAt(Next(sys, s), k, LastAttempt(sys, s, k, last))
  {
    assert Backed(sys, k);
  }

  /** A holder whose attempts come at most `gap` apart, with `gap` below the TTL, never loses its lease: whatever
      everybody else does, every attempt is granted and every rival gets Conflict. */
  lemma {:induction false} ContinuousHold(
    sys: System, steps: seq<Step>, k: nat, gap: nat, last: int, ride: string, rival: string, ttl: int)
    requires Inv(sys) && Active(sys, k) && GrantedAt(sys, k, last)
    requires Legal(sys, steps) && Punctual(sys, steps, k, gap, last)
    requires gap < 1000 * Ttl(sys, sys.held[k].manager)
    requires rival != Encode(sys.held[k].lease)
    ensures RenewalsSucceed(sys, steps, k)
    ensures Active(Run(sys, steps), k)
    ensures var db := Run(sys, steps).db;
            ReserveScript(db, sys.held[k].driver, ride, rival, ttl) == (db, Conflict)
    decreases |steps|
  {
    if steps == [] {
      assert Backed(sys, k);
    } else {
      var s := steps[0];
      HoldStep(sys, s, k, gap, last);
      StepKeepsInv(sys, s);
      ContinuousHold(Next(sys, s), steps[1..], k, gap, LastAttempt(sys, s, k, last), ride, rival, ttl);
    }
  }

  /** The bound is exact, and it is the configured TTL cut to whole seconds: one of 1.9 s renewed every second still
      lapses. */
  lemma HoldIffWholeSecondTtl(sys: System, k: nat, gap: nat)
    requires Inv(sys) && Active(sys, k) && GrantedAt(sys, k, sys.db.now)
    ensures var ttlMs := sys.managers[sys.held[k].manager].ttlMs;
            gap < ttlMs - ttlMs % 1000 <==>
            forall steps :: Legal(sys, steps) && Punctual(sys, steps, k, gap, sys.db.now) ==>
              Active(Run(sys, steps), k) && RenewalsSucceed(sys, steps, k)
  {
    var ttl := 1000 * Ttl(sys, sys.held[k].manager);
    if gap < ttl {
      forall steps | Legal(sys, steps) && Punctual(sys, steps, k, gap, sys.db.now)
        ensures Active(Run(sys, steps), k) && RenewalsSucceed(sys, steps, k)
      {
        ContinuousHold(sys, steps, k, gap, sys.db.now, "", Encode(sys.held[k].lease) + "x", 1);
      }
    } else {
      var wait := [Tick(ttl)];
      assert wait[1..] == [];
      assert Legal(sys, wait) && Punctual(sys, wait, k, gap, sys.db.now);
      assert !Active(Run(sys, wait), k);
    }
  }

  /** The three steps in which a rival overtakes a loop whose attempts may be a whole TTL apart. */
  function Overtaking(sys: System, k: nat, m: nat, ride: string, token: string): seq<Step>
    requires k < |sys.held| && sys.held[k].manager < |sys.managers| && Ttl(sys, sys.held[k].manager) >= 0
  {
    [Tick(1000 * Ttl(sys, sys.held[k].manager)), Acquire(m, sys.held[k].driver, ride, token), Renew(k)]
  }

  /** Above the bound the driver can change hands under a loop that keeps its schedule: the attempt comes on time, is
      answered Conflict, and a rival is the active holder. */
  lemma LateLoopIsOvertaken(sys: System, k: nat, gap: nat, m: nat, ride: string, token: string)
    requires Inv(sys) && Active(sys, k) && GrantedAt(sys, k, sys.db.now) && sys.held[k].renewing
    requires gap >= 1000 * Ttl(sys, sys.held[k].manager)
    requires Enabled(sys, Acquire(m, sys.held[k].driver, ride, token)) && Ttl(sys, m) >= 1
    requires InService(sys.db, sys.held[k].driver)
    ensures var steps := Overtaking(sys, k, m, ride, token);
            && Legal(sys, steps) && Punctual(sys, steps, k, gap, sys.db.now) && !RenewalsSucceed(sys, steps, k)
            && !Active(Run(sys, steps), k) && Active(Run(sys, steps), |sys.held|)
            && Run(sys, steps).held[|sys.held|].driver == sys.held[k].driver
  {
    var steps := Overtaking(sys, k, m, ride, token);
    var late := Next(sys, steps[0]);
    var taken := Next(late, steps[1]);
    assert Backed(sys, k);
    FreshValue(sys, m, sys.held[k].driver, ride, token, k);
    assert |taken.held| == |sys.held| + 1 && RenewReply(taken, k) == (taken.db, Conflict);
    var last := Next(taken, Renew(k));
    var two, one := steps[1..], steps[2..];
    assert two == [steps[1], Renew(k)] && two[1..] == one == [Renew(k)] && one[1..] == [];
    assert Run(taken, one) == Run(last, one[1..]) == last;
    assert Legal(taken, one) && one[0] == Renew(k) && RenewReply(taken, k).1 != Reserved;
    assert !RenewalsSucceed(taken, one, k);
    assert Legal(late, two) && Run(late, two) == last && !RenewalsSucceed(late, two, k);
    assert Punctual(taken, one, k, gap, sys.db.now) && Punctual(late, two, k, gap, sys.db.now);
  }

  // ---------- a reservation that was released ----------

  /** Holder h has released, its loop has ended and its lease does not live. */
  predicate Over(sys: System, h: nat) {
    && h < |sys.held| && sys.held[h].released && !sys.held[h].renewing
    && !(Live(sys.db, sys.held[h].driver) && sys.db.lease[sys.held[h].driver].value == Encode(sys.held[h].lease))
  }

  lemma OverStep(sys: System, s: Step, h: nat)
    requires Inv(sys) && Enabled(sys, s) && Over(sys, h)
    ensures s != Renew(h) && Over(Next(sys, s), h)
    ensures Next(sys, s).held[h].driver == sys.held[h].driver && Next(sys, s).held[h].lease == sys.held[h].lease
  {
    match s
    case Acquire(m, d, ride, token) => FreshValue(sys, m, d, ride, token, h);
    case Renew(g) => DistinctValues(sys, g, h);
    case _ =>
  }

  lemma {:induction false} OverRun(sys: System, steps: seq<Step>, h: nat)
    requires Inv(sys) && Legal(sys, steps) && Over(sys, h)
    ensures Over(Run(sys, steps), h) && forall i :: 0 <= i < |steps| ==> steps[i] != Renew(h)
    ensures var end := Run(sys, steps);
            end.held[h].driver == sys.held[h].driver && end.held[h].lease == sys.held[h].lease
    decreases |steps|
  {
    if steps != [] {
      OverStep(sys, steps[0], h);
      StepKeepsInv(sys, steps[0]);
      OverRun(Next(sys, steps[0]), steps[1..], h);
    }
  }

  /** A release is final: whatever everybody does afterwards, the holder is never active again, its loop never ticks
      again, and releasing once more finds nothing to release and changes nothing. */
  lemma ReleaseIsFinal(sys: System, h: nat, steps: seq<Step>)
    requires Inv(sys) && h < |sys.held| && Legal(Next(sys, Release(h)), steps)
    ensures var end := Run(Next(sys, Release(h)), steps);
            && !Active(end, h)
            && (forall i :: 0 <= i < |steps| ==> steps[i] != Renew(h))
            && Enabled(end, Release(h)) && Next(end, Release(h)).db == end.db
            && ReleaseScript(end.db, sys.held[h].driver, Encode(sys.held[h].lease), AVAILABLE) == (end.db, false)
  {
    StepKeepsInv(sys, Release(h));
    assert Over(Next(sys, Release(h)), h);
    OverRun(Next(sys, Release(h)), steps, h);
  }

  // ---------- a loop that nobody stops ----------

  /** The loop of holder k is neither stopped nor crashed. */
  predicate LeavesLoop(sys: System, s: Step, k: nat)
    requires k < |sys.held|
  {
    s != StopRenewing(k) && s != Release(k) && s != Crash(sys.held[k].manager)
  }

  lemma {:induction false} LoopKeepsRunning(sys: System, steps: seq<Step>, k: nat)
    requires Inv(sys) && Legal(sys, steps) && Enabled(sys, Renew(k)) && !sys.held[k].released
    requires Ttl(sys, sys.held[k].manager) >= 1
    requires forall i :: 0 <= i < |steps| ==> LeavesLoop(sys, steps[i], k)
    ensures SameHolder(sys, Run(sys, steps), k)
    ensures Enabled(Run(sys, steps), Renew(k)) && !Run(sys, steps).held[k].released
    decreases |steps|
  {
    if steps != [] {
      StepKeepsInv(sys, steps[0]);
      LoopKeepsRunning(Next(sys, steps[0]), steps[1..], k);
    }
  }

  /** The dispatch handler drops the Reservation it won, so nothing ever stops its loop. However long ago its lease was
      lost and whoever had the driver since, at the first tick that finds the driver in service and unleased the loop
      takes it again, for the ride of long ago. */
  lemma ForgottenLoopReturns(sys: System, steps: seq<Step>, k: nat)
    requires Inv(sys) && Legal(sys, steps) && Enabled(sys, Renew(k)) && !sys.held[k].released
    requires Ttl(sys, sys.held[k].manager) >= 1
    requires forall i :: 0 <= i < |steps| ==> LeavesLoop(sys, steps[i], k)
    ensures var d, end := sys.held[k].driver, Run(sys, steps);
            && Enabled(end, Renew(k))
            && (Active(Next(end, Renew(k)), k) <==>
                  if Live(end.db, d) then end.db.lease[d].value == Encode(sys.held[k].lease) else InService(end.db, d))
            && (!Live(end.db, d) && InService(end.db, d) ==>
                  var db := Next(end, Renew(k)).db;
                  && d in db.state && db.state[d] == RESERVED
                  && d in db.ride && db.ride[d] == sys.held[k].lease.ride)
  {
    RunKeepsInv(sys, steps);
    LoopKeepsRunning(sys, steps, k);
    assert Backed(Run(sys, steps), k);
  }

  predicate SameLeases(a: System, b: System) {
    && a.managers == b.managers && |a.held| == |b.held|
    && forall h :: 0 <= h < |a.held| ==>
         && b.held[h].manager == a.held[h].manager
         && b.held[h].driver == a.held[h].driver
         && b.held[h].lease == a.held[h].lease
  }

  /** n ticks of a loop, `gap` apart. */
  function Ticking(k: nat, gap: nat, n: nat): seq<Step> {
    if n == 0 then [] else [Tick(gap), Renew(k)] + Ticking(k, gap, n - 1)
  }

  lemma {:induction false} TickingHolds(sys: System, k: nat, gap: nat, n: nat)
    requires Inv(sys) && Active(sys, k) && Enabled(sys, Renew(k)) && GrantedAt(sys, k, sys.db.now)
    requires gap < 1000 * Ttl(sys, sys.held[k].manager)
    ensures Legal(sys, Ticking(k, gap, n))
    ensures var end := Run(sys, Ticking(k, gap, n));
            && Inv(end) && Active(end, k)
            && end.db.now == sys.db.now + n * gap && end.db.state == sys.db.state
            && SameLeases(sys, end)
    decreases n
  {
    if n > 0 {
      var steps, rest := Ticking(k, gap, n), Ticking(k, gap, n - 1);
      var late := Next(sys, Tick(gap));
      StepKeepsInv(sys, Tick(gap));
      assert Backed(late, k);
      var renewed := Next(late, Renew(k));
      StepKeepsInv(late, Renew(k));
      TickingHolds(renewed, k, gap, n - 1);
      assert steps[1..] == [Renew(k)] + rest && steps[1..][1..] == rest;
      assert Legal(late, steps[1..]) && Run(late, steps[1..]) == Run(renewed, rest);
      assert n * gap == gap + (n - 1) * gap;
    }
  }

  lemma HolderBlocks(sys: System, k: nat, m: nat, ride: string, token: string)
    requires Inv(sys) && Active(sys, k) && Enabled(sys, Acquire(m, sys.held[k].driver, ride, token))
    ensures var sys' := AfterAcquire(sys, m, sys.held[k].driver, ride, token);
            sys'.db == sys.db && sys'.held == sys.held
  {
    assert Backed(sys, k);
    FreshValue(sys, m, sys.held[k].driver, ride, token, k);
  }

  /** ReleaseDriver of the driver service writes the state and leaves the lease alone. While the loop ticks the driver
      shows up AVAILABLE in every search and refuses every reservation, for as long as one cares to wait. */
  lemma ServiceReleaseDoesNotFree(
    sys: System, k: nat, gap: nat, n: nat, m: nat, ride: string, token: string)
    requires Inv(sys) && Active(sys, k) && Enabled(sys, Renew(k)) && GrantedAt(sys, k, sys.db.now)
    requires gap < 1000 * Ttl(sys, sys.held[k].manager)
    requires sys.held[k].driver in sys.db.state && sys.db.state[sys.held[k].driver] == RESERVED
    requires Enabled(sys, Acquire(m, sys.held[k].driver, ride, token))
    ensures var d := sys.held[k].driver;
            var steps := [ServiceRelease(d)] + Ticking(k, gap, n);
            && Legal(sys, steps)
            && var end := Run(sys, steps);
               && end.db.now == sys.db.now + n * gap
               && d in end.db.state && end.db.state[d] == AVAILABLE
               && Enabled(end, Acquire(m, d, ride, token))
               && AfterAcquire(end, m, d, ride, token).db == end.db
               && AfterAcquire(end, m, d, ride, token).held == end.held
  {
    var d := sys.held[k].driver;
    var freed := Next(sys, ServiceRelease(d));
    StepKeepsInv(sys, ServiceRelease(d));
    TickingHolds(freed, k, gap, n);
    var steps := [ServiceRelease(d)] + Ticking(k, gap, n);
    assert steps[1..] == Ticking(k, gap, n);
    HolderBlocks(Run(freed, Ticking(k, gap, n)), k, m, ride, token);
  }
}
