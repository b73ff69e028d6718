/** The driver availability machine (internal/driver/state.go) and the driver service's writers of that state
    (internal/driver/service.go). */
module DriverMachine {
  import opened Common
  import opened RedisLeases

  function Edges(from: DriverState): set<DriverState> {
    match from
    case OFFLINE => {AVAILABLE, PAUSED}
    case AVAILABLE => {RESERVED, OFFLINE, PAUSED}
    case RESERVED => {ON_TRIP, AVAILABLE, OFFLINE, PAUSED}
    case ON_TRIP => {AVAILABLE, OFFLINE}
    case PAUSED => {AVAILABLE, OFFLINE}
  }

  predicate CanTransition(from: DriverState, to: DriverState) {
    from == to || to in Edges(from)
  }

  /** The machine read by target: AVAILABLE and OFFLINE can be entered from everywhere, PAUSED from all but a trip, a
      reservation only from AVAILABLE, a trip only from a reservation; staying is always allowed. */
  lemma EnteredFrom(from: DriverState, to: DriverState)
    ensures CanTransition(from, to) <==>
            match to
            case AVAILABLE => true
            case OFFLINE => true
            case PAUSED => from != ON_TRIP
            case RESERVED => from == AVAILABLE || from == RESERVED
            case ON_TRIP => from == RESERVED || from == ON_TRIP
  {}

  function WithState(db: Db, d: string, s: DriverState): Db {
    db.(state := db.state[d := s])
  }

  /** RegisterDriver: AVAILABLE unless the initial position is (0, 0). */
  function Registered(db: Db, d: string, located: bool): Db {
    WithState(db, d, if located then AVAILABLE else OFFLINE)
  }

  /** UpdateDriverStatus taken as one step. */
  function StatusUpdated(db: Db, d: string, to: DriverState): Db {
    if d in db.state && CanTransition(db.state[d], to) then WithState(db, d, to) else db
  }

  /** ReleaseDriver taken as one step. */
  function ServiceReleased(db: Db, d: string): Db {
    if d in db.state && db.state[d] in {RESERVED, ON_TRIP} then WithState(db, d, AVAILABLE) else db
  }

  class DriverService {
    const store: Store

    constructor (store: Store)
      ensures this.store == store
    {
      this.store := store;
    }

    /** The hot-state write of InitDriver; positions are in LocationIndex. `cell` says whether the initial position has
        an H3 cell; without one InitDriver fails before it writes. */
    method RegisterDriver(d: string, located: bool, cell: bool) returns (ok: bool)
      modifies store
      ensures ok <==> cell
      ensures store.View() == if ok then Registered(old(store.View()), d, located) else old(store.View())
      ensures store.state ==
              if cell then old(store.state)[d := if located then AVAILABLE else OFFLINE] else old(store.state)
    {
      var st := AVAILABLE;
      if !located { st := OFFLINE; }
      if !cell { return false; }
      store.SetState(d, st);
      return true;
    }

    method UpdateDriverStatus(d: string, to: DriverState) returns (ok: bool)
      modifies store
      ensures store.View() == StatusUpdated(old(store.View()), d, to)
      ensures ok <==> d in old(store.state) && CanTransition(old(store.state)[d], to)
      ensures store.state == if ok then old(store.state)[d := to] else old(store.state)
    {
      if d !in store.state { return false; }
      var from := store.state[d];
      if from != to && to !in Edges(from) { return false; }
      store.SetState(d, to);
      return true;
    }

    method ReleaseDriver(d: string) returns (ok: bool)
      modifies store
      ensures store.View() == ServiceReleased(old(store.View()), d)
      ensures ok <==> d in old(store.state) && old(store.state)[d] in {RESERVED, ON_TRIP}
      ensures store.state == if ok then old(store.state)[d := AVAILABLE] else old(store.state)
    {
      if d !in store.state || (store.state[d] != RESERVED && store.state[d] != ON_TRIP) { return false; }
      store.SetState(d, AVAILABLE);
      return true;
    }
  }
}
