/** The lease keys of Redis, the reserve and release scripts over them (internal/redis/scripts.go), the Store
    methods that call the scripts (internal/redis/store.go) and the reservation manager on top
    (internal/reservation/manager.go). Times and durations are whole milliseconds of the Redis clock. */
module RedisLeases {
  import opened Common
  import opened LeaseValues

  /** A string key with a TTL. The key stops existing at `expiresAt`; the record may linger, but nothing reads it. */
  datatype LeaseKey = LeaseKey(value: string, expiresAt: int)

  /** What the scripts read and write: driver:{id}:lease and the fields "state" and "reserved_ride" of driver:{id}. */
  datatype Db = Db(now: int, lease: map<string, LeaseKey>, state: map<string, DriverState>, ride: map<string, string>)

  datatype Reply = Reserved | Conflict | NotAvailable | StoreError

  predicate Live(db: Db, d: string) {
    d in db.lease && db.now < db.lease[d].expiresAt
  }

  /** int(ttl.Seconds()): truncation toward zero. */
  function WholeSeconds(ms: int): (s: int)
    ensures ms >= 0 ==> 1000 * s <= ms < 1000 * (s + 1)
    ensures ms <= 0 ==> 1000 * (s - 1) < ms <= 1000 * s
  {
    if ms >= 0 then ms / 1000 else -((-ms) / 1000)
  }

  /** reserveScript. SET ... EX with a TTL below one second is a Redis error, raised before anything is written. */
  function ReserveScript(db: Db, d: string, ride: string, lease: string, ttl: int): (Db, Reply) {
    if Live(db, d) then
      if db.lease[d].value != lease then (db, Conflict)
      else if ttl < 1 then (db, StoreError)
      else (db.(lease := db.lease[d := LeaseKey(lease, db.now + 1000 * ttl)]), Reserved)
    else if d !in db.state || (db.state[d] != AVAILABLE && db.state[d] != RESERVED) then (db, NotAvailable)
    else if ttl < 1 then (db, StoreError)
    else
      (db.(lease := db.lease[d := LeaseKey(lease, db.now + 1000 * ttl)],
           state := db.state[d := RESERVED],
           ride := db.ride[d := ride]),
       Reserved)
  }

  /** releaseScript: compare-and-delete. */
  function ReleaseScript(db: Db, d: string, lease: string, target: DriverState): (Db, bool) {
    if Live(db, d) && db.lease[d].value == lease then
      (db.(lease := db.lease - {d}, state := db.state[d := target]), true)
    else (db, false)
  }

  /** What each answer of the reserve script means, for every state of Redis, lease value and TTL. Conflict: somebody
      else's lease lives. NotAvailable: no lease lives and the driver is neither AVAILABLE nor RESERVED. StoreError: the
      reserve was due, but asks for less than a second. Reserved: the key holds this lease for the TTL, and a driver
      that was free is RESERVED for this ride, while a renewal leaves state and ride alone. Nothing else is ever
      written. */
  lemma ReserveReplies(db: Db, d: string, ride: string, lease: string, ttl: int)
    ensures var (db', reply) := ReserveScript(db, d, ride, lease, ttl);
            var taken := d in db.lease && db.now < db.lease[d].expiresAt;
            var mine := taken && db.lease[d].value == lease;
            var free := !taken && d in db.state && (db.state[d] == AVAILABLE || db.state[d] == RESERVED);
            && (reply == Conflict <==> taken && !mine)
            && (reply == NotAvailable <==> !taken && !free)
            && (reply == StoreError <==> (mine || free) && ttl < 1)
            && (reply == Reserved <==> (mine || free) && ttl >= 1)
            && (reply != Reserved ==> db' == db)
            && (reply == Reserved ==>
                  && db'.now == db.now
                  && db'.lease == db.lease[d := LeaseKey(lease, db.now + 1000 * ttl)]
                  && db'.state == (if mine then db.state else db.state[d := RESERVED])
                  && db'.ride == (if mine then db.ride else db.ride[d := ride]))
  {}

  /** The release script reports true exactly for the lease that lives; then the key is gone and the target state is
      written. Otherwise nothing changes. */
  lemma ReleaseReplies(db: Db, d: string, lease: string, target: DriverState)
    ensures var (db', ok) := ReleaseScript(db, d, lease, target);
            && (ok <==> d in db.lease && db.now < db.lease[d].expiresAt && db.lease[d].value == lease)
            && (!ok ==> db' == db)
            && (ok ==>
                  db' == Db(db.now, map x | x in db.lease && x != d :: db.lease[x], db.state[d := target], db.ride))
  {
    var db' := ReleaseScript(db, d, lease, target).0;
    assert ReleaseScript(db, d, lease, target).1 ==> db'.lease == map x | x in db.lease && x != d :: db.lease[x];
  }

  /** Everything Redis holds about driver d is the same in a and b. */
  predicate SameDriver(a: Db, b: Db, d: string) {
    && (d in a.lease <==> d in b.lease) && (d in a.lease ==> a.lease[d] == b.lease[d])
    && (d in a.state <==> d in b.state) && (d in a.state ==> a.state[d] == b.state[d])
    && (d in a.ride <==> d in b.ride) && (d in a.ride ==> a.ride[d] == b.ride[d])
  }

  /** atomic.Uint64.Add(1). */
  function NextVersion(v: nat): (r: nat)
    ensures v < MAX_UINT64 ==> r == v + 1
    ensures v == MAX_UINT64 ==> r == 0
  {
    (v + 1) % (MAX_UINT64 + 1)
  }

  // ---------- the imperative code ----------

  /** `up` says whether Redis answers the call; a call that fails changes nothing. */
  class Store {
    var now: int
    var lease: map<string, LeaseKey>
    var state: map<string, DriverState>
    var ride: map<string, string>

    ghost function View(): Db
      reads this
    {
      Db(now, lease, state, ride)
    }

    method Reserve(d: string, rideId: string, lv: string, ttlMs: int, up: bool) returns (reply: Reply)
      modifies this
      ensures up ==> (View(), reply) == ReserveScript(old(View()), d, rideId, lv, WholeSeconds(ttlMs))
      ensures !up ==> View() == old(View()) && reply == StoreError
    {
      if !up { return StoreError; }
      var ttl := WholeSeconds(ttlMs);
      if d in lease && now < lease[d].expiresAt {
        var owner := lease[d].value;
        if owner == lv {
          if ttl < 1 { return StoreError; }
          lease := lease[d := LeaseKey(lv, now + 1000 * ttl)];
          return Reserved;
        }
        return Conflict;
      }
      var st: Option<DriverState> := None;
      if d in state { st := Some(state[d]); }
      if st == Some(RESERVED) {
        st := Some(AVAILABLE); // stale-state recovery
      }
      if st != Some(AVAILABLE) { return NotAvailable; }
      if ttl < 1 { return StoreError; }
      lease := lease[d := LeaseKey(lv, now + 1000 * ttl)];
      state := state[d := RESERVED];
      ride := ride[d := rideId];
      return Reserved;
    }

    /** None is the error return. */
    method Release(d: string, lv: string, target: DriverState, up: bool) returns (ok: Option<bool>)
      modifies this
      ensures up ==> ok.Some? && (View(), ok.value) == ReleaseScript(old(View()), d, lv, target)
      ensures !up ==> View() == old(View()) && ok == None
    {
      if !up { return None; }
      ok := Some(false);
      if d in lease && now < lease[d].expiresAt && lease[d].value == lv {
        lease := lease - {d};
        state := state[d := target];
        ok := Some(true);
      }
    }

    method SetState(d: string, s: DriverState)
      modifies this`state
      ensures View() == old(View()).(state := old(state)[d := s])
    {
      state := state[d := s];
    }
  }

  class Manager {
    const store: Store
    const ttlMs: int
    var version: nat

    constructor (store: Store, ttlMs: int)
      ensures this.store == store && this.ttlMs == ttlMs && version == 0
    {
      this.store, this.ttlMs, version := store, ttlMs, 0;
    }

    /** `token` is what randomToken drew, or its failure, which is answered like a store error before anything happens.
        A Reserved reply starts the renewal loop of a new Reservation. */
    method Reserve(d: string, ride: string, token: Option<string>, up: bool) returns (reply: Reply, r: Reservation?)
      modifies this, store
      ensures version == if token.Some? then NextVersion(old(version)) else old(version)
      ensures token.Some? && up ==>
                var lease := Encode(Lease(ride, token.value, version));
                (store.View(), reply) == ReserveScript(old(store.View()), d, ride, lease, WholeSeconds(ttlMs))
      ensures token.None? || !up ==> store.View() == old(store.View()) && reply == StoreError
      ensures r != null <==> reply == Reserved
      ensures r != null ==>
                fresh(r) && r.driver == d && token.Some? && r.lease == Lease(ride, token.value, version) && r.renewing
    {
      r := null;
      if token.None? { return StoreError, null; }
      version := NextVersion(version);
      var lv := Lease(ride, token.value, version);
      reply := store.Reserve(d, ride, Encode(lv), ttlMs, up);
      if reply == Reserved {
        r := new Reservation(d, lv);
      }
    }
  }

  class Reservation {
    const driver: string
    const lease: Lease
    var renewing: bool

    constructor (driver: string, lease: Lease)
      ensures this.driver == driver && this.lease == lease && renewing
    {
      this.driver, this.lease, renewing := driver, lease, true;
    }

    /** One tick of renewLoop. Only an error ends the loop: Conflict and NotAvailable are discarded. */
    method RenewTick(m: Manager, up: bool) returns (reply: Reply)
      requires renewing
      modifies this, m.store
      ensures up ==>
                (m.store.View(), reply) ==
                ReserveScript(old(m.store.View()), driver, lease.ride, Encode(lease), WholeSeconds(m.ttlMs))
      ensures !up ==> m.store.View() == old(m.store.View()) && reply == StoreError
      ensures renewing <==> reply != StoreError
    {
      reply := m.store.Reserve(driver, lease.ride, Encode(lease), m.ttlMs, up);
      if reply == StoreError {
        renewing := false;
      }
    }

    /** Stops the loop, waits for it, then compare-and-deletes. A lease already gone is not an error; a failed call is,
        and leaves the lease to its expiry. */
    method Release(m: Manager, up: bool) returns (failed: bool)
      modifies this, m.store
      ensures !renewing
      ensures failed <==> !up
      ensures m.store.View() ==
              if up then ReleaseScript(old(m.store.View()), driver, Encode(lease), AVAILABLE).0 else old(m.store.View())
    {
      renewing := false;
      var ok := m.store.Release(driver, Encode(lease), AVAILABLE, up);
      failed := ok.None?;
    }
  }
}
