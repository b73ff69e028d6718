/** What the lease protocol guarantees along whole runs, beyond mutual exclusion. */
module LeaseTheorems {
  import opened Common
  import opened LeaseValues
  import opened RedisLeases
  import opened DriverMachine
  import opened LeaseRuns

  lemma {:induction false} TimeForward(sys: System, steps: seq<Step>)
    requires Legal(sys, steps)
    ensures sys.db.now <= Run(sys, steps).db.now
    decreases |steps|
  {
    if steps != [] { TimeForward(Next(sys, steps[0]), steps[1..]); }
  }

  // ---------- stale holders are harmless ----------

  predicate OwnedBy(sys: System, d: string, k: nat) {
    && k < |sys.held|
    && sys.held[k].driver == d
    && Live(sys.db, d)
    && sys.db.lease[d].value == Encode(sys.held[k].lease)
  }

  /** A driver-service write to d. */
  predicate Writes(s: Step, d: string) {
    match s
    case Register(x, _) => x == d
    case UpdateStatus(x, _) => x == d
    case ServiceRelease(x) => x == d
    case WriteState(x, _) => x == d
    case _ => false
  }

  predicate Bystander(s: Step, d: string, k: nat) {
    !Writes(s, d) && s != Renew(k) && s != Release(k)
  }

  lemma BystanderAcquire(sys: System, m: nat, x: string, ride: string, token: string, d: string, k: nat)
    requires WellFormed(sys) && Enabled(sys, Acquire(m, x, ride, token)) && OwnedBy(sys, d, k)
    ensures SameDriver(sys.db, AfterAcquire(sys, m, x, ride, token).db, d)
    ensures OwnedBy(AfterAcquire(sys, m, x, ride, token), d, k)
  {
    FreshValue(sys, m, x, ride, token, k);
  }

  lemma BystanderRenew(sys: System, h: nat, d: string, k: nat)
    requires WellFormed(sys) && Enabled(sys, Renew(h)) && OwnedBy(sys, d, k) && h != k
    ensures SameDriver(sys.db, AfterRenew(sys, h).db, d) && OwnedBy(AfterRenew(sys, h), d, k)
  {
    DistinctValues(sys, h, k);
  }

  lemma BystanderRelease(sys: System, h: nat, d: string, k: nat)
    requires WellFormed(sys) && Enabled(sys, Release(h)) && OwnedBy(sys, d, k) && h != k
    ensures SameDriver(sys.db, AfterRelease(sys, h).db, d) && OwnedBy(AfterRelease(sys, h), d, k)
  {
    DistinctValues(sys, h, k);
  }

  lemma BystanderStep(sys: System, s: Step, d: string, k: nat)
    requires WellFormed(sys) && Enabled(sys, s) && OwnedBy(sys, d, k) && Bystander(s, d, k)
    requires Next(sys, s).db.now < sys.db.lease[d].expiresAt
    ensures SameDriver(sys.db, Next(sys, s).db, d) && OwnedBy(Next(sys, s), d, k)
  {
    match s
    case Acquire(m, x, ride, token) => BystanderAcquire(sys, m, x, ride, token, d, k);
    case Renew(h) => BystanderRenew(sys, h, d, k);
    case Release(h) => BystanderRelease(sys, h, d, k);
    case _ =>
  }

  lemma {:induction false} BystandersRun(sys: System, steps: seq<Step>, d: string, k: nat)
    requires Inv(sys) && Legal(sys, steps) && OwnedBy(sys, d, k)
    requires forall i :: 0 <= i < |steps| ==> Bystander(steps[i], d, k)
    requires Run(sys, steps).db.now < sys.db.lease[d].expiresAt
    ensures SameDriver(sys.db, Run(sys, steps).db, d) && OwnedBy(Run(sys, steps), d, k)
    decreases |steps|
  {
    if steps != [] {
      var sys' := Next(sys, steps[0]);
      TimeForward(sys', steps[1..]);
      BystanderStep(sys, steps[0], d, k);
      StepKeepsInv(sys, steps[0]);
      BystandersRun(sys', steps[1..], d, k);
    }
  }

  /** Once holder k owns d, nothing that any other manager, holder or renewal loop does before k's lease runs out
      changes the lease, its expiry, the driver state or the reserved ride. */
  lemma {:induction false} StaleHoldersHarmless(start: System, before: seq<Step>, after: seq<Step>, d: string, k: nat)
    requires Initial(start) && Legal(start, before)
    requires OwnedBy(Run(start, before), d, k) && Legal(Run(start, before), after)
    requires forall i :: 0 <= i < |after| ==> Bystander(after[i], d, k)
    requires Run(Run(start, before), after).db.now < Run(start, before).db.lease[d].expiresAt
    ensures SameDriver(Run(start, before).db, Run(Run(start, before), after).db, d)
  {
    RunKeepsInv(start, before);
    BystandersRun(Run(start, before), after, d, k);
  }

  // ---------- one winner ----------

  /** States from which a driver without a live lease can be reserved. */
  predicate InService(db: Db, d: string) {
    d in db.state && db.state[d] in {AVAILABLE, RESERVED}
  }

  /** Whoever gets Reserved for a new lease is the only active holder of that driver from that instant on. */
  lemma {:induction false} WinnerIsSole(
    start: System, steps: seq<Step>, m: nat, d: string, ride: string, token: string, h: nat)
    requires Initial(start) && Legal(start, steps) && Enabled(Run(start, steps), Acquire(m, d, ride, token))
    requires var sys := Run(start, steps);
             |AfterAcquire(sys, m, d, ride, token).held| > |sys.held| && h < |sys.held| && sys.held[h].driver == d
    ensures var sys := Run(start, steps);
            !Active(sys, h) && !Active(AfterAcquire(sys, m, d, ride, token), h)
    ensures Active(AfterAcquire(Run(start, steps), m, d, ride, token), |Run(start, steps).held|)
  {
    var sys := Run(start, steps);
    RunKeepsInv(start, steps);
    assert Backed(sys, h);
    FreshValue(sys, m, d, ride, token, h);
  }

  predicate RaceFor(steps: seq<Step>, d: string) {
    forall i :: 0 <= i < |steps| ==> steps[i].Acquire? && steps[i].d == d
  }

  lemma {:induction false} LosersChangeNothing(sys: System, steps: seq<Step>, d: string, k: nat)
    requires WellFormed(sys) && Legal(sys, steps) && OwnedBy(sys, d, k) && RaceFor(steps, d)
    ensures Run(sys, steps).held == sys.held && Run(sys, steps).db == sys.db
    decreases |steps|
  {
    if steps != [] {
      var s := steps[0];
      FreshValue(sys, s.m, d, s.ride, s.token, k);
      AcquireKeepsWellFormed(sys, s.m, d, s.ride, s.token);
      LosersChangeNothing(Next(sys, s), steps[1..], d, k);
    }
  }

  /** Any number of managers racing for a free driver: exactly one wins, the first whose script runs, and all the
      others leave no trace. */
  lemma {:induction false} RaceHasOneWinner(sys: System, steps: seq<Step>, d: string)
    requires WellFormed(sys) && Legal(sys, steps) && steps != [] && RaceFor(steps, d)
    requires InService(sys.db, d) && !Live(sys.db, d)
    requires forall m :: 0 <= m < |sys.managers| ==> sys.managers[m].ttlMs >= 1000
    ensures var end, s := Run(sys, steps), steps[0];
            && |end.held| == |sys.held| + 1 && end.held[..|sys.held|] == sys.held
            && end.held[|sys.held|].driver == d
            && end.held[|sys.held|].lease == LeaseOf(sys, s.m, s.ride, s.token)
            && end.db == Next(sys, s).db && Live(end.db, d) && end.db.ride[d] == s.ride
  {
    var s := steps[0];
    AcquireKeepsWellFormed(sys, s.m, d, s.ride, s.token);
    LosersChangeNothing(Next(sys, s), steps[1..], d, |sys.held|);
  }

  // ---------- lease and state stay coupled ----------

  /** Holder k is the one whose grant wrote the lease record and the reserved ride of d. */
  predicate WroteLease(sys: System, d: string, k: nat) {
    && k < |sys.held| && sys.held[k].driver == d
    && d in sys.db.lease && sys.db.lease[d].value == Encode(sys.held[k].lease)
    && d in sys.db.ride && sys.db.ride[d] == sys.held[k].lease.ride
  }

  /** A lease record, live or run out, goes with state RESERVED and with its own ride; RESERVED needs a record. */
  ghost predicate Coupled(sys: System, d: string) {
    && (d in sys.db.lease ==>
          && d in sys.db.state && sys.db.state[d] == RESERVED
          && exists k :: WroteLease(sys, d, k))
    && (d in sys.db.state && sys.db.state[d] == RESERVED ==> d in sys.db.lease)
  }

  lemma StillWrote(sys: System, sys': System, d: string, k: nat)
    requires WroteLease(sys, d, k) && k < |sys'.held|
    requires sys'.held[k].driver == sys.held[k].driver && sys'.held[k].lease == sys.held[k].lease
    requires d in sys'.db.lease && sys'.db.lease[d].value == sys.db.lease[d].value
    requires d in sys'.db.ride && sys'.db.ride[d] == sys.db.ride[d]
    ensures WroteLease(sys', d, k)
  {}

  lemma CoupledAcquire(sys: System, m: nat, x: string, ride: string, token: string, d: string)
    requires Enabled(sys, Acquire(m, x, ride, token)) && Coupled(sys, d)
    ensures var sys' := AfterAcquire(sys, m, x, ride, token);
            Coupled(sys', d) && (InService(sys.db, d) ==> InService(sys'.db, d))
  {
    var sys' := AfterAcquire(sys, m, x, ride, token);
    if x == d && |sys'.held| > |sys.held| && !Live(sys.db, d) {
      assert WroteLease(sys', d, |sys.held|);
    } else if d in sys.db.lease {
      var k :| WroteLease(sys, d, k);
      StillWrote(sys, sys', d, k);
    }
  }

  lemma CoupledRenew(sys: System, h: nat, d: string)
    requires Enabled(sys, Renew(h)) && Coupled(sys, d)
    ensures Coupled(AfterRenew(sys, h), d) && (InService(sys.db, d) ==> InService(AfterRenew(sys, h).db, d))
  {
    var sys' := AfterRenew(sys, h);
    if sys.held[h].driver == d && RenewReply(sys, h).1 == Reserved && !Live(sys.db, d) {
      assert WroteLease(sys', d, h);
    } else if d in sys.db.lease {
      var k :| WroteLease(sys, d, k);
      StillWrote(sys, sys', d, k);
    }
  }

  lemma CoupledRelease(sys: System, h: nat, d: string)
    requires Enabled(sys, Release(h)) && Coupled(sys, d)
    ensures Coupled(AfterRelease(sys, h), d) && (InService(sys.db, d) ==> InService(AfterRelease(sys, h).db, d))
  {
    var sys' := AfterRelease(sys, h);
    if d in sys'.db.lease {
      var k :| WroteLease(sys, d, k);
      StillWrote(sys, sys', d, k);
    }
  }

  lemma CoupledStep(sys: System, s: Step, d: string)
    requires Enabled(sys, s) && !Writes(s, d) && Coupled(sys, d)
    ensures Coupled(Next(sys, s), d)
    ensures InService(sys.db, d) ==> InService(Next(sys, s).db, d)
  {
    match s
    case Acquire(m, x, ride, token) => CoupledAcquire(sys, m, x, ride, token, d);
    case Renew(h) => CoupledRenew(sys, h, d);
    case Release(h) => CoupledRelease(sys, h, d);
    case _ =>
      if d in sys.db.lease {
        var k :| WroteLease(sys, d, k);
        StillWrote(sys, Next(sys, s), d, k);
      }
  }

  lemma {:induction false} CoupledRun(sys: System, steps: seq<Step>, d: string)
    requires Legal(sys, steps) && Coupled(sys, d)
    requires forall i :: 0 <= i < |steps| ==> !Writes(steps[i], d)
    ensures Coupled(Run(sys, steps), d)
    ensures InService(sys.db, d) ==> InService(Run(sys, steps).db, d)
    decreases |steps|
  {
    if steps != [] {
      CoupledStep(sys, steps[0], d);
      CoupledRun(Next(sys, steps[0]), steps[1..], d);
    }
  }

  /** From a driver that is neither leased nor RESERVED, with only script, clock and crash steps on it: a live lease
      means RESERVED for the ride of that very lease, and RESERVED without a live lease means a lease ran out. */
  lemma {:induction false} LeaseStateCoupling(sys: System, steps: seq<Step>, d: string)
    requires Legal(sys, steps) && d !in sys.db.lease && (d in sys.db.state ==> sys.db.state[d] != RESERVED)
    requires forall i :: 0 <= i < |steps| ==> !Writes(steps[i], d)
    ensures var db := Run(sys, steps).db;
            && (Live(db, d) ==>
                  && d in db.state && db.state[d] == RESERVED
                  && exists k :: WroteLease(Run(sys, steps), d, k))
            && (d in db.state && db.state[d] == RESERVED && !Live(db, d) ==>
                  d in db.lease && db.lease[d].expiresAt <= db.now)
  {
    CoupledRun(sys, steps, d);
  }

  /** A driver that started AVAILABLE is never lost: Store.Reserve grants any fresh lease exactly when none is live. */
  lemma {:induction false} Recovery(sys: System, steps: seq<Step>, d: string, ride: string, lease: string, ttl: int)
    requires Legal(sys, steps) && d !in sys.db.lease && d in sys.db.state && sys.db.state[d] == AVAILABLE
    requires forall i :: 0 <= i < |steps| ==> !Writes(steps[i], d)
    requires ttl >= 1
    requires Live(Run(sys, steps).db, d) ==> Run(sys, steps).db.lease[d].value != lease
    ensures var (db', reply) := ReserveScript(Run(sys, steps).db, d, ride, lease, ttl);
            && (reply == Reserved <==> !Live(Run(sys, steps).db, d))
            && (reply == Conflict <==> Live(Run(sys, steps).db, d))
            && (reply == Reserved ==> Live(db', d) && db'.lease[d].value == lease && db'.ride[d] == ride)
  {
    CoupledRun(sys, steps, d);
  }
}
