/** Any number of reservation managers sharing one Redis: every interleaving of reserve, renew, release, crash,
    clock and driver-service steps, and what holds along all of them. */
module LeaseRuns {
  import opened Common
  import opened LeaseValues
  import opened RedisLeases
  import opened DriverMachine

  datatype ManagerState = ManagerState(version: nat, ttlMs: int)

  /** A Reservation as its holder sees it. `grantedUntil` is computed from the replies the holder got, never read
      back from Redis: the clock at its last Reserved reply plus the TTL it asked for. */
  datatype Holder =
    Holder(manager: nat, driver: string, lease: Lease, grantedUntil: int, renewing: bool, released: bool)

  datatype System = System(db: Db, managers: seq<ManagerState>, held: seq<Holder>)

  /** AcquireFails is a reserve that Redis did not answer; a renewal or a release that fails is a StopRenewing.
      WriteState is any other write of the state field, such as the second half of a status update that lost a race. */
  datatype Step =
    | Tick(ms: nat)
    | Acquire(m: nat, d: string, ride: string, token: string)
    | AcquireFails(m: nat)
    | Renew(h: nat)
    | StopRenewing(h: nat)
    | Crash(m: nat)
    | Release(h: nat)
    | Register(d: string, located: bool)
    | UpdateStatus(d: string, to: DriverState)
    | ServiceRelease(d: string)
    | WriteState(d: string, s: DriverState)

  // ---------- one step ----------

  function LeaseOf(sys: System, m: nat, ride: string, token: string): Lease
    requires m < |sys.managers|
  {
    Lease(ride, token, NextVersion(sys.managers[m].version))
  }

  function Ttl(sys: System, m: nat): int
    requires m < |sys.managers|
  {
    WholeSeconds(sys.managers[m].ttlMs)
  }

  /** A step refers to managers and holders that exist, tokens are hex strings, two managers never draw the same
      token, and no version counter wraps. A renewal needs its loop to be running. */
  predicate Enabled(sys: System, s: Step) {
    match s
    case Acquire(m, d, ride, token) =>
      && m < |sys.managers|
      && sys.managers[m].version < MAX_UINT64
      && SEP !in token
      && (forall h :: 0 <= h < |sys.held| && sys.held[h].manager != m ==> sys.held[h].lease.token != token)
    case AcquireFails(m) => m < |sys.managers| && sys.managers[m].version < MAX_UINT64
    case Renew(h) => h < |sys.held| && sys.held[h].renewing && sys.held[h].manager < |sys.managers|
    case StopRenewing(h) => h < |sys.held|
    case Release(h) => h < |sys.held|
    case _ => true
  }

  function AfterAcquire(sys: System, m: nat, d: string, ride: string, token: string): System
    requires m < |sys.managers|
  {
    var lease := LeaseOf(sys, m, ride, token);
    var (db, reply) := ReserveScript(sys.db, d, ride, Encode(lease), Ttl(sys, m));
    System(db,
           sys.managers[m := sys.managers[m].(version := NextVersion(sys.managers[m].version))],
           if reply != Reserved then sys.held
           else sys.held + [Holder(m, d, lease, db.now + 1000 * Ttl(sys, m), true, false)])
  }

  function RenewReply(sys: System, h: nat): (Db, Reply)
    requires h < |sys.held| && sys.held[h].manager < |sys.managers|
  {
    var r := sys.held[h];
    ReserveScript(sys.db, r.driver, r.lease.ride, Encode(r.lease), Ttl(sys, r.manager))
  }

  function AfterRenew(sys: System, h: nat): System
    requires h < |sys.held| && sys.held[h].manager < |sys.managers|
  {
    var (db, reply) := RenewReply(sys, h);
    var r := sys.held[h];
    sys.(db := db,
         held := sys.held[h := match reply
                               case Reserved => r.(grantedUntil := db.now + 1000 * Ttl(sys, r.manager))
                               case StoreError => r.(renewing := false)
                               case _ => r])
  }

  function AfterRelease(sys: System, h: nat): System
    requires h < |sys.held|
  {
    var r := sys.held[h];
    sys.(db := ReleaseScript(sys.db, r.driver, Encode(r.lease), AVAILABLE).0,
         held := sys.held[h := r.(renewing := false, released := true)])
  }

  function Next(sys: System, s: Step): System
    requires Enabled(sys, s)
  {
    match s
    case Tick(ms) => sys.(db := sys.db.(now := sys.db.now + ms))
    case Acquire(m, d, ride, token) => AfterAcquire(sys, m, d, ride, token)
    case AcquireFails(m) =>
      sys.(managers := sys.managers[m := sys.managers[m].(version := NextVersion(sys.managers[m].version))])
    case Renew(h) => AfterRenew(sys, h)
    case StopRenewing(h) => sys.(held := sys.held[h := sys.held[h].(renewing := false)])
    case Crash(m) =>
      sys.(held := seq(|sys.held|, i requires 0 <= i < |sys.held| =>
                         if sys.held[i].manager == m then sys.held[i].(renewing := false) else sys.held[i]))
    case Release(h) => AfterRelease(sys, h)
    case Register(d, located) => sys.(db := Registered(sys.db, d, located))
    case UpdateStatus(d, to) => sys.(db := StatusUpdated(sys.db, d, to))
    case ServiceRelease(d) => sys.(db := ServiceReleased(sys.db, d))
    case WriteState(d, s) => sys.(db := WithState(sys.db, d, s))
  }

  // ---------- runs ----------

  predicate Legal(sys: System, steps: seq<Step>)
    decreases |steps|
  {
    steps == [] || (Enabled(sys, steps[0]) && Legal(Next(sys, steps[0]), steps[1..]))
  }

  function Run(sys: System, steps: seq<Step>): System
    requires Legal(sys, steps)
    decreases |steps|
  {
    if steps == [] then sys else Run(Next(sys, steps[0]), steps[1..])
  }

  /** No reservation exists yet. Counters, TTLs, driver states and leases of strangers are arbitrary. */
  predicate Initial(sys: System) {
    sys.held == []
  }

  /** The holder believes it owns its driver: it was granted the lease, the grant has not run out, and it did not
      release. */
  predicate Active(sys: System, h: nat) {
    h < |sys.held| && !sys.held[h].released && sys.db.now < sys.held[h].grantedUntil
  }

  // ---------- the invariant ----------

  predicate Issued(sys: System, h: nat)
    requires h < |sys.held|
  {
    && sys.held[h].manager < |sys.managers|
    && SEP !in sys.held[h].lease.token
    && sys.held[h].lease.version <= sys.managers[sys.held[h].manager].version
  }

  /** Holders come from managers whose counters have passed their versions, and no two share a lease. */
  predicate WellFormed(sys: System) {
    && (forall h {:trigger sys.held[h]} :: 0 <= h < |sys.held| ==> Issued(sys, h))
    && (forall g, h :: 0 <= g < h < |sys.held| ==> sys.held[g].lease != sys.held[h].lease)
  }

  /** An active holder's lease is the live one in Redis, with the very expiry the holder computed. */
  predicate Backed(sys: System, h: nat) {
    Active(sys, h) ==>
      && sys.held[h].driver in sys.db.lease
      && sys.db.lease[sys.held[h].driver] == LeaseKey(Encode(sys.held[h].lease), sys.held[h].grantedUntil)
  }

  predicate Inv(sys: System) {
    WellFormed(sys) && forall h :: 0 <= h < |sys.held| ==> Backed(sys, h)
  }

  lemma DistinctValues(sys: System, g: nat, h: nat)
    requires WellFormed(sys) && g < |sys.held| && h < |sys.held| && g != h
    ensures Encode(sys.held[g].lease) != Encode(sys.held[h].lease)
  {
    assert Issued(sys, g) && Issued(sys, h);
    EncodeInjective(sys.held[g].lease, sys.held[h].lease);
  }

  /** A manager's counter alone sets its new lease apart from its earlier ones; tokens do so across managers. */
  lemma FreshValue(sys: System, m: nat, d: string, ride: string, token: string, h: nat)
    requires WellFormed(sys) && Enabled(sys, Acquire(m, d, ride, token)) && h < |sys.held|
    ensures LeaseOf(sys, m, ride, token) != sys.held[h].lease
    ensures Encode(LeaseOf(sys, m, ride, token)) != Encode(sys.held[h].lease)
  {
    assert Issued(sys, h);
    assert LeaseOf(sys, m, ride, token).version == sys.managers[m].version + 1;
    EncodeInjective(LeaseOf(sys, m, ride, token), sys.held[h].lease);
  }

  lemma AcquireKeepsWellFormed(sys: System, m: nat, d: string, ride: string, token: string)
    requires WellFormed(sys) && Enabled(sys, Acquire(m, d, ride, token))
    ensures WellFormed(AfterAcquire(sys, m, d, ride, token))
  {
    var sys' := AfterAcquire(sys, m, d, ride, token);
    assert |sys'.managers| == |sys.managers| && sys'.managers[m].version == sys.managers[m].version + 1;
    forall h | 0 <= h < |sys'.held| ensures Issued(sys', h) {
      if h < |sys.held| { assert Issued(sys, h) && sys'.held[h] == sys.held[h]; }
    }
    forall g, h | 0 <= g < h < |sys'.held| ensures sys'.held[g].lease != sys'.held[h].lease {
      assert sys'.held[g] == sys.held[g];
      if h == |sys.held| { FreshValue(sys, m, d, ride, token, g); }
    }
  }

  lemma AcquireKeepsBacked(sys: System, m: nat, d: string, ride: string, token: string, h: nat)
    requires WellFormed(sys) && Enabled(sys, Acquire(m, d, ride, token)) && h < |sys.held| && Backed(sys, h)
    ensures Backed(AfterAcquire(sys, m, d, ride, token), h)
  {
    FreshValue(sys, m, d, ride, token, h);
  }

  lemma {:induction false} AcquireKeepsInv(sys: System, m: nat, d: string, ride: string, token: string)
    requires Inv(sys) && Enabled(sys, Acquire(m, d, ride, token))
    ensures Inv(AfterAcquire(sys, m, d, ride, token))
  {
    AcquireKeepsWellFormed(sys, m, d, ride, token);
    forall h | 0 <= h < |sys.held| ensures Backed(AfterAcquire(sys, m, d, ride, token), h) {
      AcquireKeepsBacked(sys, m, d, ride, token, h);
    }
  }

  lemma RenewKeepsInv(sys: System, h: nat)
    requires Inv(sys) && Enabled(sys, Renew(h))
    ensures Inv(AfterRenew(sys, h))
  {
    var sys' := AfterRenew(sys, h);
    forall g | 0 <= g < |sys.held|
      ensures Backed(sys', g) && Issued(sys', g)
    {
      assert Backed(sys, g) && Issued(sys, g);
      if g != h { DistinctValues(sys, g, h); }
    }
  }

  lemma ReleaseKeepsInv(sys: System, h: nat)
    requires Inv(sys) && Enabled(sys, Release(h))
    ensures Inv(AfterRelease(sys, h))
  {
    var sys' := AfterRelease(sys, h);
    forall g | 0 <= g < |sys.held|
      ensures Backed(sys', g) && Issued(sys', g)
    {
      assert Backed(sys, g) && Issued(sys, g);
      if g != h { DistinctValues(sys, g, h); }
    }
  }

  lemma StepKeepsInv(sys: System, s: Step)
    requires Inv(sys) && Enabled(sys, s)
    ensures Inv(Next(sys, s))
  {
    match s
    case Acquire(m, d, ride, token) => AcquireKeepsInv(sys, m, d, ride, token);
    case Renew(h) => RenewKeepsInv(sys, h);
    case Release(h) => ReleaseKeepsInv(sys, h);
    case _ =>
      var sys' := Next(sys, s);
      forall h | 0 <= h < |sys.held| ensures Backed(sys', h) && Issued(sys', h) {
        assert Backed(sys, h) && Issued(sys, h);
      }
  }

  lemma {:induction false} RunKeepsInv(sys: System, steps: seq<Step>)
    requires Inv(sys) && Legal(sys, steps)
    ensures Inv(Run(sys, steps))
    decreases |steps|
  {
    if steps != [] {
      StepKeepsInv(sys, steps[0]);
      RunKeepsInv(Next(sys, steps[0]), steps[1..]);
    }
  }

  // ---------- mutual exclusion ----------

  /** No double booking: in every run, at every instant, at most one reservation is active on a driver. */
  lemma {:induction false} MutualExclusion(sys: System, steps: seq<Step>, g: nat, h: nat)
    requires Initial(sys) && Legal(sys, steps)
    requires Active(Run(sys, steps), g) && Active(Run(sys, steps), h)
    requires Run(sys, steps).held[g].driver == Run(sys, steps).held[h].driver
    ensures g == h
  {
    RunKeepsInv(sys, steps);
    var end := Run(sys, steps);
    assert Backed(end, g) && Backed(end, h);
    if g != h { DistinctValues(end, g, h); }
  }
}
