/** The dispatch pipeline on top of the lease protocol: a dispatch searches once and then tries to reserve what it saw,
    one driver after the other, while everybody else goes on (Engine.DispatchForRide in internal/dispatch/engine.go over
    Store.SearchNearby in internal/redis/store.go). The question is when a crashed holder's driver gets out again. */
module PipelineRuns {
  import opened Common
  import opened LeaseValues
  import opened RedisLeases
  import opened DriverMachine
  import opened LeaseRuns
  import opened LeaseTheorems

  /** A dispatch in flight: its manager, its ride and the drivers its search saw and it has not tried yet, by rank. */
  datatype Flight = Flight(m: nat, ride: string, left: seq<string>)

  datatype Pipe = Pipe(sys: System, flights: map<nat, Flight>)

  datatype Move =
    | Search(p: nat, m: nat, ride: string, found: seq<string>)
    | Try(p: nat, token: string)
    | GiveUp(p: nat)
    | Env(s: Step)

  // ---------- one move ----------

  predicate NoRepeats(ids: seq<string>) {
    forall i, j :: 0 <= i < j < |ids| ==> ids[i] != ids[j]
  }

  /** SearchNearby returns each driver once, and only drivers whose state reads AVAILABLE at that moment. Reservations
      are made by dispatches only. */
  predicate CanMove(pipe: Pipe, mv: Move) {
    match mv
    case Search(p, m, ride, found) =>
      && p !in pipe.flights && m < |pipe.sys.managers| && NoRepeats(found)
      && (forall i :: 0 <= i < |found| ==> found[i] in pipe.sys.db.state && pipe.sys.db.state[found[i]] == AVAILABLE)
    case Try(p, token) =>
      && p in pipe.flights && pipe.flights[p].left != []
      && Enabled(pipe.sys, Acquire(pipe.flights[p].m, pipe.flights[p].left[0], pipe.flights[p].ride, token))
    case GiveUp(p) => p in pipe.flights
    case Env(s) => !s.Acquire? && Enabled(pipe.sys, s)
  }

  /** What the reserve of a Try is answered. */
  function TryReply(pipe: Pipe, p: nat, token: string): Reply
    requires CanMove(pipe, Try(p, token))
  {
    var f := pipe.flights[p];
    var lease := LeaseOf(pipe.sys, f.m, f.ride, token);
    ReserveScript(pipe.sys.db, f.left[0], f.ride, Encode(lease), Ttl(pipe.sys, f.m)).1
  }

  /** A Conflict moves a dispatch on to its next driver; any other reply ends it. A crash ends the dispatches of the
      crashed process. */
  function Moved(pipe: Pipe, mv: Move): Pipe
    requires CanMove(pipe, mv)
  {
    match mv
    case Search(p, m, ride, found) => pipe.(flights := pipe.flights[p := Flight(m, ride, found)])
    case Try(p, token) =>
      var f := pipe.flights[p];
      Pipe(AfterAcquire(pipe.sys, f.m, f.left[0], f.ride, token),
           if TryReply(pipe, p, token) == Conflict then pipe.flights[p := f.(left := f.left[1..])]
           else pipe.flights - {p})
    case GiveUp(p) => pipe.(flights := pipe.flights - {p})
    case Env(s) =>
      Pipe(Next(pipe.sys, s),
           if s.Crash? then map p | p in pipe.flights && pipe.flights[p].m != s.m :: pipe.flights[p]
           else pipe.flights)
  }

  // ---------- runs ----------

  predicate LegalMoves(pipe: Pipe, moves: seq<Move>)
    decreases |moves|
  {
    moves == [] || (CanMove(pipe, moves[0]) && LegalMoves(Moved(pipe, moves[0]), moves[1..]))
  }

  function After(pipe: Pipe, moves: seq<Move>): Pipe
    requires LegalMoves(pipe, moves)
    decreases |moves|
  {
    if moves == [] then pipe else After(Moved(pipe, moves[0]), moves[1..])
  }

  /** The lease invariant, and every dispatch in flight belongs to a manager that exists. */
  predicate PipeInv(pipe: Pipe) {
    Inv(pipe.sys) && forall p :: p in pipe.flights ==> pipe.flights[p].m < |pipe.sys.managers|
  }

  lemma {:induction false} RunKeepsPipeInv(pipe: Pipe, moves: seq<Move>)
    requires PipeInv(pipe) && LegalMoves(pipe, moves)
    ensures PipeInv(After(pipe, moves))
    decreases |moves|
  {
    if moves != [] {
      match moves[0] {
        case Try(p, token) =>
          var f := pipe.flights[p];
          AcquireKeepsInv(pipe.sys, f.m, f.left[0], f.ride, token);
        case Env(s) => StepKeepsInv(pipe.sys, s);
        case _ =>
      }
      RunKeepsPipeInv(Moved(pipe, moves[0]), moves[1..]);
    }
  }

  /** No driver-service write touches d: what happens to it happens through dispatch. */
  predicate Quiet(mv: Move, d: string) {
    mv.Env? ==> !Writes(mv.s, d)
  }

  predicate QuietRun(pipe: Pipe, moves: seq<Move>, d: string) {
    LegalMoves(pipe, moves) && forall i :: 0 <= i < |moves| ==> Quiet(moves[i], d)
  }

  /** Some run that leaves d to the pipeline leads from one state to the other. */
  ghost predicate Reaches(pipe: Pipe, end: Pipe, d: string) {
    exists moves :: QuietRun(pipe, moves, d) && After(pipe, moves) == end
  }

  lemma {:induction false} RunsCompose(pipe: Pipe, a: seq<Move>, b: seq<Move>, d: string)
    requires QuietRun(pipe, a, d) && QuietRun(After(pipe, a), b, d)
    ensures QuietRun(pipe, a + b, d) && After(pipe, a + b) == After(After(pipe, a), b)
    decreases |a|
  {
    if a == [] {
      assert a + b == b;
    } else {
      RunsCompose(Moved(pipe, a[0]), a[1..], b, d);
      assert (a + b)[1..] == a[1..] + b;
    }
  }

  lemma ReachesTransitive(a: Pipe, b: Pipe, c: Pipe, d: string)
    requires Reaches(a, b, d) && Reaches(b, c, d)
    ensures Reaches(a, c, d)
  {
    var x :| QuietRun(a, x, d) && After(a, x) == b;
    var y :| QuietRun(b, y, d) && After(b, y) == c;
    RunsCompose(a, x, y, d);
  }

  /** One more move at the end of a run. */
  lemma ReachesMove(a: Pipe, b: Pipe, mv: Move, d: string)
    requires Reaches(a, b, d) && CanMove(b, mv) && Quiet(mv, d)
    ensures Reaches(a, Moved(b, mv), d)
  {
    var one := [mv];
    assert one[1..] == [];
    assert LegalMoves(Moved(b, mv), one[1..]) && After(Moved(b, mv), one[1..]) == Moved(b, mv);
    assert one[0] == mv && LegalMoves(b, one);
    assert QuietRun(b, one, d) && After(b, one) == Moved(b, mv);
    ReachesTransitive(a, b, Moved(b, mv), d);
  }

  lemma ReachesItself(a: Pipe, d: string)
    ensures Reaches(a, a, d)
  {
    assert QuietRun(a, [], d) && After(a, []) == a;
  }

  /** A dispatch that tries an unleased driver in service gets it and is over. */
  lemma TryGrants(pipe: Pipe, p: nat, token: string)
    requires CanMove(pipe, Try(p, token)) && Ttl(pipe.sys, pipe.flights[p].m) >= 1
    requires InService(pipe.sys.db, pipe.flights[p].left[0]) && !Live(pipe.sys.db, pipe.flights[p].left[0])
    ensures var f, sys, next := pipe.flights[p], pipe.sys, Moved(pipe, Try(p, token));
            var until := sys.db.now + 1000 * Ttl(sys, f.m);
            && next.flights == pipe.flights - {p}
            && next.sys.held ==
               sys.held + [Holder(f.m, f.left[0], LeaseOf(sys, f.m, f.ride, token), until, true, false)]
            && next.sys.db.now == sys.db.now && next.sys.db.state == sys.db.state[f.left[0] := RESERVED]
            && Live(next.sys.db, f.left[0]) && next.sys.db.lease[f.left[0]].expiresAt == until
            && (forall x :: x != f.left[0] ==> (Live(next.sys.db, x) <==> Live(sys.db, x)))
  {}

  // ---------- where a dispatch ends ----------

  /** A dispatch goes on to its next driver exactly when somebody else's lease lives on the one it tried; it has changed
      nothing then, nor has it when the driver was not in service. Dispatches of others are not touched. */
  lemma TryGoesOnIff(pipe: Pipe, p: nat, token: string)
    requires CanMove(pipe, Try(p, token))
    ensures var f, db, next := pipe.flights[p], pipe.sys.db, Moved(pipe, Try(p, token));
            var x, lease := f.left[0], Encode(LeaseOf(pipe.sys, f.m, f.ride, token));
            && (p in next.flights <==> Live(db, x) && db.lease[x].value != lease)
            && (p in next.flights ==> next.flights[p] == Flight(f.m, f.ride, f.left[1..]))
            && (p in next.flights || (!Live(db, x) && !InService(db, x)) ==>
                  next.sys.db == db && next.sys.held == pipe.sys.held)
            && (forall q :: q != p ==> (q in next.flights <==> q in pipe.flights))
            && (forall q :: q != p && q in pipe.flights ==> next.flights[q] == pipe.flights[q])
  {
    var f := pipe.flights[p];
    ReserveReplies(pipe.sys.db, f.left[0], f.ride, Encode(LeaseOf(pipe.sys, f.m, f.ride, token)), Ttl(pipe.sys, f.m));
  }

  /** A crash ends the dispatches of the crashed manager and no others. */
  lemma CrashEndsItsDispatches(pipe: Pipe, m: nat, p: nat)
    ensures var next := Moved(pipe, Env(Crash(m)));
            && (p in next.flights <==> p in pipe.flights && pipe.flights[p].m != m)
            && (p in next.flights ==> next.flights[p] == pipe.flights[p])
  {}

  /** A dispatch that is over makes no further attempt. */
  lemma {:induction false} OverIsOver(pipe: Pipe, moves: seq<Move>, p: nat)
    requires LegalMoves(pipe, moves) && p !in pipe.flights
    requires forall i :: 0 <= i < |moves| ==> !(moves[i].Search? && moves[i].p == p)
    ensures p !in After(pipe, moves).flights
    ensures forall i :: 0 <= i < |moves| ==> !(moves[i].Try? && moves[i].p == p)
    decreases |moves|
  {
    if moves != [] {
      OverIsOver(Moved(pipe, moves[0]), moves[1..], p);
      assert moves == [moves[0]] + moves[1..];
    }
  }

  /** A driver that has left service since it was listed ends the dispatch that comes to it: OFFLINE, PAUSED, ON_TRIP or
      unknown, without a live lease, is not a Conflict, so the drivers ranked behind it are never tried, whatever
      happens next. */
  lemma UnavailableEndsDispatch(pipe: Pipe, p: nat, token: string, moves: seq<Move>)
    requires CanMove(pipe, Try(p, token))
    requires var x := pipe.flights[p].left[0];
             !Live(pipe.sys.db, x) && (x in pipe.sys.db.state ==> pipe.sys.db.state[x] in {OFFLINE, PAUSED, ON_TRIP})
    requires LegalMoves(Moved(pipe, Try(p, token)), moves)
    requires forall i :: 0 <= i < |moves| ==> !(moves[i].Search? && moves[i].p == p)
    ensures var end := Moved(pipe, Try(p, token));
            && p !in end.flights && end.sys.db == pipe.sys.db && end.sys.held == pipe.sys.held
            && p !in After(end, moves).flights
    ensures forall i :: 0 <= i < |moves| ==> !(moves[i].Try? && moves[i].p == p)
  {
    TryGoesOnIff(pipe, p, token);
    OverIsOver(Moved(pipe, Try(p, token)), moves, p);
  }

  /** That happens whenever a listed driver pauses or signs off before its turn. */
  lemma ListedMayLeaveService(
    pipe: Pipe, p: nat, m: nat, ride: string, x: string, rest: seq<string>, to: DriverState, token: string)
    requires CanMove(pipe, Search(p, m, ride, [x] + rest)) && !Live(pipe.sys.db, x)
    requires to in {OFFLINE, PAUSED} && Enabled(pipe.sys, Acquire(m, x, ride, token))
    ensures var seen := Moved(pipe, Search(p, m, ride, [x] + rest));
            && CanMove(seen, Env(UpdateStatus(x, to)))
            && var left := Moved(seen, Env(UpdateStatus(x, to)));
               && CanMove(left, Try(p, token)) && left.flights[p].left[0] == x
               && !Live(left.sys.db, x) && x in left.sys.db.state && left.sys.db.state[x] == to
  {
    assert ([x] + rest)[0] == x;
    assert x in pipe.sys.db.state && pipe.sys.db.state[x] == AVAILABLE;
  }

  // ---------- an abandoned driver nobody listed ----------

  /** The holder of d crashed: its lease ran out, the state still says RESERVED, no loop renews. */
  predicate Abandoned(sys: System, d: string) {
    && d in sys.db.state && sys.db.state[d] == RESERVED && !Live(sys.db, d)
    && forall h :: 0 <= h < |sys.held| && sys.held[h].driver == d ==> !sys.held[h].renewing
  }

  /** Some dispatch in flight saw d and has yet to try it. */
  ghost predicate Listed(pipe: Pipe, d: string) {
    exists p :: p in pipe.flights && d in pipe.flights[p].left
  }

  lemma UnlistedTry(pipe: Pipe, p: nat, token: string, d: string)
    requires Abandoned(pipe.sys, d) && CanMove(pipe, Try(p, token)) && d !in pipe.flights[p].left
    ensures Abandoned(Moved(pipe, Try(p, token)).sys, d)
  {
    assert pipe.flights[p].left[0] in pipe.flights[p].left;
  }

  lemma UntriedStep(sys: System, s: Step, d: string)
    requires Abandoned(sys, d) && Enabled(sys, s) && !s.Acquire? && !Writes(s, d)
    ensures Abandoned(Next(sys, s), d)
  {}

  lemma UnlistedMove(pipe: Pipe, mv: Move, d: string)
    requires Abandoned(pipe.sys, d) && !Listed(pipe, d) && CanMove(pipe, mv) && Quiet(mv, d)
    ensures Abandoned(Moved(pipe, mv).sys, d) && !Listed(Moved(pipe, mv), d)
  {
    var next := Moved(pipe, mv);
    forall p | p in next.flights ensures d !in next.flights[p].left {
      if p in pipe.flights { assert d !in pipe.flights[p].left; }
    }
    match mv
    case Try(p, token) => UnlistedTry(pipe, p, token, d);
    case Env(s) => UntriedStep(pipe.sys, s, d);
    case _ =>
  }

  /** Dispatch alone never brings it back. */
  lemma {:induction false} UnlistedStaysHidden(pipe: Pipe, moves: seq<Move>, d: string)
    requires Abandoned(pipe.sys, d) && !Listed(pipe, d) && QuietRun(pipe, moves, d)
    ensures Abandoned(After(pipe, moves).sys, d) && !Listed(After(pipe, moves), d)
    decreases |moves|
  {
    if moves != [] {
      UnlistedMove(pipe, moves[0], d);
      UnlistedStaysHidden(Moved(pipe, moves[0]), moves[1..], d);
    }
  }

  // ---------- an abandoned driver that a dispatch in flight has listed ----------

  /** Every manager asks for at least a second and can reserve n more times before its counter wraps. */
  predicate Roomy(sys: System, n: nat) {
    forall m :: 0 <= m < |sys.managers| ==> sys.managers[m].ttlMs >= 1000 && sys.managers[m].version + n <= MAX_UINT64
  }

  lemma {:induction false} FreshToken(held: seq<Holder>) returns (token: string)
    ensures token != "" && SEP !in token && forall h :: 0 <= h < |held| ==> |held[h].lease.token| < |token|
  {
    if held == [] { return "0"; }
    var n := |held| - 1;
    var rest := FreshToken(held[..n]);
    token := rest + seq(|held[n].lease.token|, _ => '0');
    forall h | 0 <= h < |held| ensures |held[h].lease.token| < |token| {
      if h < n { assert held[..n][h] == held[h]; }
    }
  }

  lemma {:induction false} FreshId(ids: set<nat>) returns (q: nat)
    ensures forall p :: p in ids ==> p < q
  {
    if ids == {} { return 0; }
    var x :| x in ids;
    var rest := FreshId(ids - {x});
    q := rest + x + 1;
    forall p | p in ids ensures p < q {
      if p != x { assert p in ids - {x}; }
    }
  }

  /** On the way to trying d: dispatch p is in flight with `left` to try, and d is abandoned. */
  predicate OnTheWay(pipe: Pipe, p: nat, f: Flight, d: string, n: nat) {
    && Inv(pipe.sys) && Abandoned(pipe.sys, d) && Roomy(pipe.sys, n)
    && p in pipe.flights && pipe.flights[p] == f && f.m < |pipe.sys.managers|
  }

  /** Any driver but d can be brought to an unleased AVAILABLE: let its lease run out, register it again. */
  lemma FreeOther(pipe: Pipe, p: nat, f: Flight, d: string, x: string, n: nat) returns (next: Pipe)
    requires OnTheWay(pipe, p, f, d, n) && x != d
    ensures OnTheWay(next, p, f, d, n) && Reaches(pipe, next, d)
    ensures !Live(next.sys.db, x) && x in next.sys.db.state && next.sys.db.state[x] == AVAILABLE
  {
    var wait: nat := if Live(pipe.sys.db, x) then pipe.sys.db.lease[x].expiresAt - pipe.sys.db.now else 0;
    var late := Moved(pipe, Env(Tick(wait)));
    ReachesItself(pipe, d);
    ReachesMove(pipe, pipe, Env(Tick(wait)), d);
    StepKeepsInv(pipe.sys, Tick(wait));
    next := Moved(late, Env(Register(x, true)));
    ReachesMove(pipe, late, Env(Register(x, true)), d);
    StepKeepsInv(late.sys, Register(x, true));
  }

  /** An unleased AVAILABLE driver can be taken by another dispatch. */
  lemma TakeOther(pipe: Pipe, p: nat, f: Flight, d: string, x: string, n: nat) returns (next: Pipe)
    requires OnTheWay(pipe, p, f, d, n + 1) && x != d
    requires !Live(pipe.sys.db, x) && x in pipe.sys.db.state && pipe.sys.db.state[x] == AVAILABLE
    ensures OnTheWay(next, p, f, d, n) && Reaches(pipe, next, d)
    ensures exists k: nat :: Active(next.sys, k) && next.sys.held[k].driver == x
  {
    var q := FreshId(pipe.flights.Keys);
    var token := FreshToken(pipe.sys.held);
    assert q !in pipe.flights && p != q;
    var seen := Moved(pipe, Search(q, f.m, "", [x]));
    ReachesItself(pipe, d);
    ReachesMove(pipe, pipe, Search(q, f.m, "", [x]), d);
    TryGrants(seen, q, token);
    next := Moved(seen, Try(q, token));
    ReachesMove(pipe, seen, Try(q, token), d);
    AcquireKeepsInv(pipe.sys, f.m, x, "", token);
    assert Active(next.sys, |pipe.sys.held|);
  }

  /** Dispatch p is refused a driver that somebody actively holds and goes on to the next one. */
  lemma Refused(pipe: Pipe, p: nat, f: Flight, d: string, k: nat, n: nat) returns (next: Pipe)
    requires OnTheWay(pipe, p, f, d, n + 1) && f.left != [] && f.left[0] != d
    requires Active(pipe.sys, k) && pipe.sys.held[k].driver == f.left[0]
    ensures OnTheWay(next, p, f.(left := f.left[1..]), d, n) && Reaches(pipe, next, d)
  {
    var token := FreshToken(pipe.sys.held);
    FreshValue(pipe.sys, f.m, f.left[0], f.ride, token, k);
    assert Backed(pipe.sys, k);
    ReachesItself(pipe, d);
    ReachesMove(pipe, pipe, Try(p, token), d);
    next := Moved(pipe, Try(p, token));
    AcquireKeepsInv(pipe.sys, f.m, f.left[0], f.ride, token);
  }

  /** Dispatch p reserves d once it gets to it. */
  lemma Taken(pipe: Pipe, p: nat, f: Flight, d: string) returns (next: Pipe)
    requires OnTheWay(pipe, p, f, d, 1) && f.left != [] && f.left[0] == d
    ensures Reaches(pipe, next, d) && Live(next.sys.db, d)
  {
    var token := FreshToken(pipe.sys.held);
    ReachesItself(pipe, d);
    ReachesMove(pipe, pipe, Try(p, token), d);
    next := Moved(pipe, Try(p, token));
  }

  /** By induction on what dispatch p has left: everything ahead of d can be in other hands by the time p tries it. */
  lemma {:induction false} ListedIsHealed(pipe: Pipe, p: nat, f: Flight, d: string) returns (next: Pipe)
    requires OnTheWay(pipe, p, f, d, 2 * |f.left|) && d in f.left
    ensures Reaches(pipe, next, d) && Live(next.sys.db, d)
    decreases |f.left|
  {
    if f.left[0] == d {
      next := Taken(pipe, p, f, d);
    } else {
      var n: nat := 2 * |f.left| - 2;
      var free := FreeOther(pipe, p, f, d, f.left[0], n + 2);
      var held := TakeOther(free, p, f, d, f.left[0], n + 1);
      var k: nat :| Active(held.sys, k) && held.sys.held[k].driver == f.left[0];
      var on := Refused(held, p, f, d, k, n);
      next := ListedIsHealed(on, p, f.(left := f.left[1..]), d);
      ReachesTransitive(pipe, free, held, d);
      ReachesTransitive(pipe, held, on, d);
      ReachesTransitive(pipe, on, next, d);
    }
  }

  /** The pipeline can bring an abandoned driver back if and only if some dispatch in flight listed it while it was
      still AVAILABLE and has yet to try it. Once those dispatches are over, no further dispatch ever sees it. */
  lemma HealableIff(pipe: Pipe, d: string)
    requires PipeInv(pipe) && Abandoned(pipe.sys, d)
    requires forall p :: p in pipe.flights ==> Roomy(pipe.sys, 2 * |pipe.flights[p].left|)
    ensures (exists end :: Reaches(pipe, end, d) && Live(end.sys.db, d)) <==> Listed(pipe, d)
  {
    if Listed(pipe, d) {
      var p :| p in pipe.flights && d in pipe.flights[p].left;
      var end := ListedIsHealed(pipe, p, pipe.flights[p], d);
    } else {
      forall end | Reaches(pipe, end, d) ensures !Live(end.sys.db, d) {
        var moves :| QuietRun(pipe, moves, d) && After(pipe, moves) == end;
        UnlistedStaysHidden(pipe, moves, d);
      }
    }
  }

  /** A manager that is the last to renew d crashes, and its lease runs out. */
  lemma CrashAbandons(sys: System, d: string, b: nat, ttl: nat)
    requires d in sys.db.state && sys.db.state[d] == RESERVED
    requires Live(sys.db, d) ==> sys.db.lease[d].expiresAt <= sys.db.now + ttl
    requires forall h :: 0 <= h < |sys.held| && sys.held[h].driver == d && sys.held[h].manager != b ==>
               !sys.held[h].renewing
    ensures Abandoned(Next(Next(sys, Crash(b)), Tick(ttl)), d)
  {}

  /** d is AVAILABLE and free, nobody renews it, and two dispatches of two managers are about to search. */
  predicate Contended(pipe: Pipe, d: string, p: nat, a: nat, q: nat, b: nat, token: string) {
    && d in pipe.sys.db.state && pipe.sys.db.state[d] == AVAILABLE && !Live(pipe.sys.db, d)
    && (forall h :: 0 <= h < |pipe.sys.held| && pipe.sys.held[h].driver == d ==> !pipe.sys.held[h].renewing)
    && p !in pipe.flights && q !in pipe.flights && p != q && a != b && a < |pipe.sys.managers|
    && Enabled(pipe.sys, Acquire(b, d, "quick", token)) && Ttl(pipe.sys, b) >= 1
  }

  lemma TakenWhileListed(pipe: Pipe, d: string, p: nat, a: nat, q: nat, b: nat, token: string) returns (taken: Pipe)
    requires Contended(pipe, d, p, a, q, b, token)
    ensures Reaches(pipe, taken, d)
    ensures p in taken.flights && taken.flights[p] == Flight(a, "slow", [d])
    ensures d in taken.sys.db.state && taken.sys.db.state[d] == RESERVED
    ensures Live(taken.sys.db, d) && taken.sys.db.lease[d].expiresAt == taken.sys.db.now + 1000 * Ttl(pipe.sys, b)
    ensures forall h :: 0 <= h < |taken.sys.held| && taken.sys.held[h].driver == d && taken.sys.held[h].manager != b ==>
              !taken.sys.held[h].renewing
  {
    var slow := Moved(pipe, Search(p, a, "slow", [d]));
    var both := Moved(slow, Search(q, b, "quick", [d]));
    TryGrants(both, q, token);
    taken := Moved(both, Try(q, token));
    ReachesItself(pipe, d);
    ReachesMove(pipe, pipe, Search(p, a, "slow", [d]), d);
    ReachesMove(pipe, slow, Search(q, b, "quick", [d]), d);
    ReachesMove(pipe, both, Try(q, token), d);
  }

  /** Abandoned and still listed is no fiction: two dispatches see the same AVAILABLE driver, the quicker one takes it
      and crashes, and its lease runs out before the slower one gets to it. */
  lemma ListedWhileAbandoned(pipe: Pipe, d: string, p: nat, a: nat, q: nat, b: nat, token: string) returns (end: Pipe)
    requires Contended(pipe, d, p, a, q, b, token)
    ensures Reaches(pipe, end, d) && Abandoned(end.sys, d) && Listed(end, d)
  {
    var ttl := 1000 * Ttl(pipe.sys, b);
    var taken := TakenWhileListed(pipe, d, p, a, q, b, token);
    var crashed := Moved(taken, Env(Crash(b)));
    end := Moved(crashed, Env(Tick(ttl)));
    CrashAbandons(taken.sys, d, b, ttl);
    ReachesMove(pipe, taken, Env(Crash(b)), d);
    ReachesMove(pipe, crashed, Env(Tick(ttl)), d);
    assert p in end.flights && d in end.flights[p].left;
  }
}
