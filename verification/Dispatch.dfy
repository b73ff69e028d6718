/** The dispatch loop: Engine.score and Engine.DispatchForRide (internal/dispatch/engine.go), the ride-requested handler
    (internal/dispatchsvc/service.go) and the retrying consumer that drives it (internal/kafka/kafka.go). */
module Dispatch {
  import opened Common
  import RedisLeases

  type Reply = RedisLeases.Reply

  datatype Found = Found(driver: string, distM: real, rating: real)

  datatype Candidate = Candidate(driver: string, distM: real, score: real, rating: real)

  datatype Config =
    Config(defaultRadiusM: real, maxCandidates: int, wDistance: real, wRequestAge: real, wRating: real)

  const DEFAULT_CONFIG := Config(1000.0, 10, 1.0, 5.0, 50.0)

  /** NewEngine: a non-positive candidate cap replaces the whole configuration. */
  function EngineConfig(cfg: Config): Config {
    if cfg.maxCandidates <= 0 then DEFAULT_CONFIG else cfg
  }

  /** The radius a dispatch searches: a request without one gets the default. */
  function SearchRadius(cfg: Config, radiusM: real): real {
    if radiusM <= 0.0 then EngineConfig(cfg).defaultRadiusM else radiusM
  }

  /** A request from the future has age 0. */
  function Age(sec: real): (age: real)
    ensures age >= 0.0 && age >= sec && (age == 0.0 || age == sec)
  {
    if sec < 0.0 then 0.0 else sec
  }

  /** The rating a score uses: a driver without one counts as perfect. */
  function EffectiveRating(f: Found): real {
    if f.rating <= 0.0 then 5.0 else f.rating
  }

  function Penalty(f: Found): real { 5.0 - EffectiveRating(f) }

  function Weigh(weight: real, x: real): real { weight * x }

  function Scored(cfg: Config, f: Found, ageSec: real): Candidate {
    Candidate(f.driver, f.distM,
              Weigh(cfg.wDistance, f.distM) + Weigh(cfg.wRequestAge, ageSec) + Weigh(cfg.wRating, Penalty(f)),
              EffectiveRating(f))
  }

  function ScoredAll(cfg: Config, fs: seq<Found>, ageSec: real): seq<Candidate> {
    seq(|fs|, i requires 0 <= i < |fs| => Scored(cfg, fs[i], ageSec))
  }

  predicate Ranked(s: seq<Candidate>) {
    forall i, j :: 0 <= i < j < |s| ==> s[i].score <= s[j].score
  }

  /** sort.Slice by score: some sorted permutation, ties in any order. */
  predicate IsRanking(scored: seq<Candidate>, ranked: seq<Candidate>) {
    multiset(scored) == multiset(ranked) && Ranked(ranked)
  }

  // ---------- ranking ----------

  function Shift(c: Candidate, k: real): Candidate {
    c.(score := c.score + k)
  }

  /** The same candidates with k added to every score. */
  function Shifted(s: seq<Candidate>, k: real): (r: seq<Candidate>)
    ensures |r| == |s|
  {
    seq(|s|, i requires 0 <= i < |s| => Shift(s[i], k))
  }

  lemma ShiftBack(s: seq<Candidate>, k: real)
    ensures Shifted(Shifted(s, k), -k) == s
  {
    assert forall i :: 0 <= i < |s| ==> Shifted(Shifted(s, k), -k)[i] == s[i];
  }

  lemma {:induction false} ShiftCounts(s: seq<Candidate>, k: real, c: Candidate)
    ensures multiset(Shifted(s, k))[Shift(c, k)] == multiset(s)[c]
    decreases |s|
  {
    if s != [] {
      var n := |s| - 1;
      ShiftCounts(s[..n], k, c);
      assert s == s[..n] + [s[n]];
      assert Shifted(s, k) == Shifted(s[..n], k) + [Shift(s[n], k)];
      assert Shift(s[n], k) == Shift(c, k) <==> s[n] == c;
    }
  }

  lemma ShiftKeepsPermutation(s: seq<Candidate>, t: seq<Candidate>, k: real)
    requires multiset(s) == multiset(t)
    ensures multiset(Shifted(s, k)) == multiset(Shifted(t, k))
  {
    forall c: Candidate ensures multiset(Shifted(s, k))[c] == multiset(Shifted(t, k))[c] {
      ShiftCounts(s, k, Shift(c, -k));
      ShiftCounts(t, k, Shift(c, -k));
      assert Shift(Shift(c, -k), k) == c;
    }
  }

  lemma ShiftKeepsRanking(scored: seq<Candidate>, ranked: seq<Candidate>, k: real)
    requires IsRanking(scored, ranked)
    ensures IsRanking(Shifted(scored, k), Shifted(ranked, k))
  {
    ShiftKeepsPermutation(scored, ranked, k);
  }

  /** How much older age' makes every score. */
  function AgeShift(cfg: Config, age: real, age': real): real {
    Weigh(cfg.wRequestAge, age') - Weigh(cfg.wRequestAge, age)
  }

  lemma AgeShiftsAll(cfg: Config, fs: seq<Found>, age: real, age': real)
    ensures ScoredAll(cfg, fs, age') == Shifted(ScoredAll(cfg, fs, age), AgeShift(cfg, age, age'))
  {
    assert forall i :: 0 <= i < |fs| ==>
             ScoredAll(cfg, fs, age')[i] == Shifted(ScoredAll(cfg, fs, age), AgeShift(cfg, age, age'))[i];
  }

  /** The age of a request moves all scores by one amount, so the rankings at one age are the rankings at any other:
      the list that FindCandidates shows (age 0) is an order in which DispatchForRide may try the same drivers. */
  lemma RankingIgnoresAge(cfg: Config, fs: seq<Found>, ranked: seq<Candidate>, age: real, age': real)
    ensures IsRanking(ScoredAll(cfg, fs, age), ranked) <==>
            IsRanking(ScoredAll(cfg, fs, age'), Shifted(ranked, AgeShift(cfg, age, age')))
  {
    var scored, k := ScoredAll(cfg, fs, age), AgeShift(cfg, age, age');
    AgeShiftsAll(cfg, fs, age, age');
    if IsRanking(scored, ranked) { ShiftKeepsRanking(scored, ranked, k); }
    if IsRanking(Shifted(scored, k), Shifted(ranked, k)) {
      ShiftKeepsRanking(Shifted(scored, k), Shifted(ranked, k), -k);
      ShiftBack(scored, k);
      ShiftBack(ranked, k);
    }
  }

  lemma WeighDifference(w: real, a: real, b: real)
    ensures Weigh(w, a) - Weigh(w, b) == w * (a - b)
  {}

  /** What a score is worth. Between two search results it differs by wDistance per metre and by wRating per rating
      point the other way, a rating of 0 or less reading as 5; per second of age it grows by wRequestAge; and a perfect
      driver on the spot costs a new request nothing. Together these fix every score. */
  lemma ScoreDifference(cfg: Config, f: Found, g: Found, age: real, age': real)
    ensures var rf, rg := if f.rating <= 0.0 then 5.0 else f.rating, if g.rating <= 0.0 then 5.0 else g.rating;
            && Scored(cfg, f, age).score - Scored(cfg, g, age').score ==
               cfg.wDistance * (f.distM - g.distM) + cfg.wRequestAge * (age - age') - cfg.wRating * (rf - rg)
            && Scored(cfg, f, age).rating == rf
            && Scored(cfg, f, age).driver == f.driver && Scored(cfg, f, age).distM == f.distM
    ensures f.distM == 0.0 && f.rating == 5.0 && age == 0.0 ==> Scored(cfg, f, age).score == 0.0
  {
    WeighDifference(cfg.wDistance, f.distM, g.distM);
    WeighDifference(cfg.wRequestAge, age, age');
    WeighDifference(cfg.wRating, Penalty(f), Penalty(g));
    var rf, rg := EffectiveRating(f), EffectiveRating(g);
    assert cfg.wRating * (Penalty(f) - Penalty(g)) == -(cfg.wRating * (rf - rg)) by {
      assert Penalty(f) - Penalty(g) == -(rf - rg);
    }
  }

  /** f ranks strictly before g: what it is nearer or farther weighs less than what it is better rated. */
  predicate Cheaper(cfg: Config, f: Found, g: Found) {
    cfg.wDistance * (f.distM - g.distM) < cfg.wRating * (EffectiveRating(f) - EffectiveRating(g))
  }

  lemma CheaperIff(cfg: Config, f: Found, g: Found, age: real)
    ensures Cheaper(cfg, f, g) <==> Scored(cfg, f, age).score < Scored(cfg, g, age).score
    ensures Cheaper(cfg, f, g) <==>
            cfg.wDistance * (f.distM - g.distM) <
            cfg.wRating * ((if f.rating <= 0.0 then 5.0 else f.rating) - (if g.rating <= 0.0 then 5.0 else g.rating))
  {
    ScoreDifference(cfg, f, g, age, age);
  }

  /** With a candidate cap of 0 or less nothing of the given configuration is used: ten attempts, a kilometre when no
      radius is asked for, and a rating point worth 50 m. With a positive cap everything is as given. */
  lemma UnsetConfig(cfg: Config, f: Found, g: Found)
    ensures cfg.maxCandidates <= 0 ==>
              && EngineConfig(cfg).maxCandidates == 10
              && SearchRadius(cfg, 0.0) == 1000.0
              && (Cheaper(EngineConfig(cfg), f, g) <==>
                    f.distM - g.distM < 50.0 * (EffectiveRating(f) - EffectiveRating(g)))
    ensures cfg.maxCandidates > 0 ==> EngineConfig(cfg) == cfg && SearchRadius(cfg, 0.0) == cfg.defaultRadiusM
    ensures forall r :: SearchRadius(cfg, r) == if r > 0.0 then r else SearchRadius(cfg, 0.0)
  {}

  /** Lower is better: among equal ratings the nearer driver, among equal distances the better rated one, and a driver
      that is at least as good on both never ranks behind. */
  lemma ScoreOrder(cfg: Config, f: Found, g: Found, age: real)
    requires cfg.wDistance > 0.0 && cfg.wRating > 0.0
    ensures EffectiveRating(f) == EffectiveRating(g) ==>
              (Scored(cfg, f, age).score < Scored(cfg, g, age).score <==> f.distM < g.distM)
    ensures f.distM == g.distM ==>
              (Scored(cfg, f, age).score < Scored(cfg, g, age).score <==> EffectiveRating(f) > EffectiveRating(g))
    ensures f.distM <= g.distM && EffectiveRating(f) >= EffectiveRating(g) ==>
              Scored(cfg, f, age).score <= Scored(cfg, g, age).score
  {
    Weighted(cfg.wDistance, f.distM, g.distM);
    Weighted(cfg.wRating, Penalty(f), Penalty(g));
    Weighted(cfg.wDistance, g.distM, f.distM);
    Weighted(cfg.wRating, Penalty(g), Penalty(f));
  }

  lemma Weighted(w: real, a: real, b: real)
    requires w > 0.0
    ensures Weigh(w, a) <= Weigh(w, b) <==> a <= b
  {
    assert w * b - w * a == w * (b - a);
  }

  /** What reserving in rank order means: whichever prefix was tried, everything strictly better than its last member
      was tried before it, and nothing left untried, truncated or not, beats anything tried. */
  lemma PrefixIsBest(scored: seq<Candidate>, ranked: seq<Candidate>, n: nat)
    requires IsRanking(scored, ranked) && 0 < n <= |ranked|
    ensures forall c :: c in scored && c.score < ranked[n - 1].score ==> c in ranked[..n - 1]
    ensures forall c, t :: c in scored && c !in ranked[..n] && t in ranked[..n] ==> t.score <= c.score
  {
    forall c | c in scored ensures c.score < ranked[n - 1].score ==> c in ranked[..n - 1] {
      assert c in multiset(scored);
      assert c in ranked;
    }
    forall c, t | c in scored && c !in ranked[..n] && t in ranked[..n] ensures t.score <= c.score {
      assert c in multiset(scored);
      assert c in ranked;
      assert ranked == ranked[..n] + ranked[n..];
      var i :| 0 <= i < |ranked| - n && ranked[n..][i] == c;
      var j :| 0 <= j < n && ranked[..n][j] == t;
      assert ranked[j].score <= ranked[n + i].score;
    }
  }

  method ScoreCandidates(cfg: Config, fs: seq<Found>, ageSec: real) returns (out: seq<Candidate>)
    ensures out == ScoredAll(cfg, fs, ageSec)
  {
    out := [];
    for i := 0 to |fs|
      invariant out == ScoredAll(cfg, fs, ageSec)[..i]
    {
      out := out + [Scored(cfg, fs[i], ageSec)];
    }
  }

  lemma InsertedIsAdded(s: seq<Candidate>, x: Candidate, j: nat)
    requires j <= |s|
    ensures multiset(s[..j] + [x] + s[j..]) == multiset(s) + multiset{x}
  {
    assert s == s[..j] + s[j..];
  }

  method InsertByScore(ranked: seq<Candidate>, x: Candidate) returns (r: seq<Candidate>)
    requires Ranked(ranked)
    ensures Ranked(r) && multiset(r) == multiset(ranked) + multiset{x}
  {
    var j := 0;
    while j < |ranked| && ranked[j].score <= x.score
      invariant 0 <= j <= |ranked| && forall k :: 0 <= k < j ==> ranked[k].score <= x.score
    {
      j := j + 1;
    }
    r := ranked[..j] + [x] + ranked[j..];
    InsertedIsAdded(ranked, x, j);
  }

  method SortByScore(scored: seq<Candidate>) returns (ranked: seq<Candidate>)
    ensures IsRanking(scored, ranked)
  {
    ranked := [];
    for i := 0 to |scored|
      invariant multiset(ranked) == multiset(scored[..i]) && Ranked(ranked)
    {
      ranked := InsertByScore(ranked, scored[i]);
      assert scored[..i + 1] == scored[..i] + [scored[i]];
    }
    assert scored[..|scored|] == scored;
  }

  // ---------- the outside world ----------

  datatype Attempt = Attempt(driver: string, reply: Reply)

  /** What SearchNearby answers: drivers, an error, or a panic of the position read. */
  datatype Answer = Drivers(found: seq<Found>) | Unavailable | Panic

  /** What a consumer does to the outside, in order: searches, reservations, and waits before a retry. */
  datatype Event = Searched(radiusM: real, answer: Answer) | Tried(attempt: Attempt) | Waited(cancelled: bool)

  datatype Log = Empty | Then(earlier: Log, last: Event)

  /** Redis and the reservation manager as one consumer meets them while every other process keeps running: a search may
      find anything, fail or panic, a reservation may get any reply, the context may be cancelled at any wait. A reply
      other than Reserved means the scripts changed nothing for this caller. */
  class World {
    var log: Log

    method SearchNearby(radiusM: real) returns (answer: Answer)
      modifies this
      ensures log == Then(old(log), Searched(radiusM, answer))
    {
      answer := *;
      log := Then(log, Searched(radiusM, answer));
    }

    method Reserve(driver: string) returns (reply: Reply)
      modifies this
      ensures log == Then(old(log), Tried(Attempt(driver, reply)))
    {
      reply := *;
      log := Then(log, Tried(Attempt(driver, reply)));
    }

    /** The backoff before a retry: true when the context ends first. */
    method Wait() returns (cancelled: bool)
      modifies this
      ensures log == Then(old(log), Waited(cancelled))
    {
      cancelled := *;
      log := Then(log, Waited(cancelled));
    }
  }

  /** The log after some attempts. */
  function Attempted(log: Log, tried: seq<Attempt>): Log {
    if tried == [] then log else Then(Attempted(log, tried[..|tried| - 1]), Tried(tried[|tried| - 1]))
  }

  /** The leases won along a log. */
  function Wins(log: Log): nat {
    match log
    case Empty => 0
    case Then(earlier, e) => Wins(earlier) + if e.Tried? && e.attempt.reply == RedisLeases.Reserved then 1 else 0
  }

  lemma {:induction false} NoReservedNoWin(log: Log, tried: seq<Attempt>)
    requires forall i :: 0 <= i < |tried| ==> tried[i].reply != RedisLeases.Reserved
    ensures Wins(Attempted(log, tried)) == Wins(log)
    decreases |tried|
  {
    if tried != [] { NoReservedNoWin(log, tried[..|tried| - 1]); }
  }

  /** FindCandidates: the search behind the nearby-drivers endpoint. An error passes through as None. */
  method FindCandidates(world: World, cfg: Config, radiusM: real, max: int)
    returns (out: Option<seq<Candidate>>, ghost answer: Answer, ghost ranked: seq<Candidate>)
    modifies world
    ensures world.log == Then(old(world.log), Searched(radiusM, answer))
    ensures out.Some? <==> answer.Drivers?
    ensures answer.Drivers? ==>
              && out.value == (if 0 < max < |ranked| then ranked[..max] else ranked)
              && (forall age :: var conf := EngineConfig(cfg);
                    IsRanking(ScoredAll(conf, answer.found, age), Shifted(ranked, AgeShift(conf, 0.0, age))))
  {
    ranked := [];
    var conf := EngineConfig(cfg);
    var got := world.SearchNearby(radiusM);
    answer := got;
    if !got.Drivers? { return None, answer, ranked; }
    var scored := ScoreCandidates(conf, got.found, 0.0);
    var top := SortByScore(scored);
    ranked := top;
    forall age ensures IsRanking(ScoredAll(conf, got.found, age), Shifted(ranked, AgeShift(conf, 0.0, age))) {
      RankingIgnoresAge(conf, got.found, ranked, 0.0, age);
    }
    if max > 0 && |top| > max { top := top[..max]; }
    out := Some(top);
  }

  datatype ResultCode = Dispatched | NoCandidates | AllConflicts | RedisUnavailable | Panicked

  /** The Result with its error: `failed` is the non-nil error of DispatchForRide. */
  datatype Result = Result(code: ResultCode, driver: string, failed: bool)

  /** The attempts of one dispatch: the front of a ranking, in order, every reply but the last one Conflict. */
  predicate InRankOrder(conf: Config, ranked: seq<Candidate>, tried: seq<Attempt>) {
    && |tried| <= |ranked| && |tried| <= conf.maxCandidates
    && (forall i :: 0 <= i < |tried| ==> tried[i].driver == ranked[i].driver)
    && (forall i :: 0 <= i < |tried| - 1 ==> tried[i].reply == RedisLeases.Conflict)
  }

  /** Everything that scores strictly below the last driver tried was tried before it and refused with Conflict. */
  predicate BetterOnesRefused(scored: seq<Candidate>, ranked: seq<Candidate>, tried: seq<Attempt>)
    requires 0 < |tried| <= |ranked|
  {
    forall c :: c in scored && c.score < ranked[|tried| - 1].score ==>
      Attempt(c.driver, RedisLeases.Conflict) in tried[..|tried| - 1]
  }

  lemma RankOrderRefusesBetter(conf: Config, scored: seq<Candidate>, ranked: seq<Candidate>, tried: seq<Attempt>)
    requires IsRanking(scored, ranked) && InRankOrder(conf, ranked, tried) && tried != []
    ensures BetterOnesRefused(scored, ranked, tried)
  {
    var n := |tried|;
    PrefixIsBest(scored, ranked, n);
    forall c | c in scored && c.score < ranked[n - 1].score
      ensures Attempt(c.driver, RedisLeases.Conflict) in tried[..n - 1]
    {
      var i :| 0 <= i < n - 1 && ranked[..n - 1][i] == c;
      assert tried[..n - 1][i] == Attempt(c.driver, RedisLeases.Conflict);
    }
  }

  /** One run of the engine: what the search said, the ranking before truncation, the attempts made, the outcome. */
  datatype Dispatching = Dispatching(answer: Answer, ranked: seq<Candidate>, tried: seq<Attempt>, code: ResultCode)

  /** What DispatchForRide promises of a run under the configuration in use and a request of that age. */
  predicate Follows(conf: Config, age: real, run: Dispatching) {
    && InRankOrder(conf, run.ranked, run.tried)
    && (run.code == Panicked <==> run.answer == Panic)
    && (run.code == RedisUnavailable <==> run.answer == Unavailable)
    && (run.code == NoCandidates <==> run.answer == Drivers([]))
    && (run.answer.Drivers? ==> IsRanking(ScoredAll(conf, run.answer.found, age), run.ranked))
    && (run.code in {Dispatched, AllConflicts} <==> run.tried != [])
    && (run.tried != [] ==>
          var last := run.tried[|run.tried| - 1].reply;
          && run.answer.Drivers?
          && (run.code == Dispatched <==> last == RedisLeases.Reserved)
          && (last == RedisLeases.Conflict ==>
                |run.tried| == |run.ranked| || |run.tried| == conf.maxCandidates))
  }

  /** The log after a run: one search, then its attempts. */
  function AfterRun(log: Log, radiusM: real, run: Dispatching): Log {
    Attempted(Then(log, Searched(radiusM, run.answer)), run.tried)
  }

  /** w was tried last, and every search result that is cheaper was tried before it and refused with Conflict. */
  predicate CheaperOnesRefused(conf: Config, found: seq<Found>, tried: seq<Attempt>, w: Found)
    requires tried != []
  {
    && w in found && w.driver == tried[|tried| - 1].driver
    && forall f :: f in found && Cheaper(conf, f, w) ==>
         Attempt(f.driver, RedisLeases.Conflict) in tried[..|tried| - 1]
  }

  /** Dispatch takes the best it can get: whatever scores strictly better than the last driver it tried, the winner of a
      dispatch among them, was tried before and refused with Conflict. */
  lemma DispatchTakesBest(conf: Config, age: real, run: Dispatching) returns (w: Found)
    requires Follows(conf, age, run) && run.tried != []
    ensures run.answer.Drivers? && CheaperOnesRefused(conf, run.answer.found, run.tried, w)
  {
    var n, found := |run.tried|, run.answer.found;
    var scored := ScoredAll(conf, found, age);
    RankOrderRefusesBetter(conf, scored, run.ranked, run.tried);
    var last := run.ranked[n - 1];
    assert last in multiset(run.ranked);
    var k :| 0 <= k < |scored| && scored[k] == last;
    w := found[k];
    forall f | f in found && Cheaper(conf, f, w)
      ensures Attempt(f.driver, RedisLeases.Conflict) in run.tried[..n - 1]
    {
      CheaperIff(conf, f, w, age);
      var j :| 0 <= j < |found| && found[j] == f;
      assert scored[j] in scored;
    }
  }

  /** The loop of DispatchForRide: one driver after the other until one is won or a reply is not Conflict. */
  method ReserveInOrder(world: World, top: seq<Candidate>) returns (winner: Option<string>, ghost tried: seq<Attempt>)
    requires top != []
    modifies world
    ensures world.log == Attempted(old(world.log), tried) && 0 < |tried| <= |top|
    ensures forall k :: 0 <= k < |tried| ==> tried[k].driver == top[k].driver
    ensures forall k :: 0 <= k < |tried| - 1 ==> tried[k].reply == RedisLeases.Conflict
    ensures var last := tried[|tried| - 1];
            winner == if last.reply == RedisLeases.Reserved then Some(last.driver) else None
    ensures tried[|tried| - 1].reply == RedisLeases.Conflict ==> |tried| == |top|
  {
    tried := [];
    var i := 0;
    while i < |top|
      invariant 0 <= i <= |top| && |tried| == i
      invariant world.log == Attempted(old(world.log), tried)
      invariant forall k :: 0 <= k < i ==> tried[k] == Attempt(top[k].driver, RedisLeases.Conflict)
    {
      var reply := world.Reserve(top[i].driver);
      ghost var more := tried + [Attempt(top[i].driver, reply)];
      assert more[..i] == tried;
      tried := more;
      if reply == RedisLeases.Reserved { return Some(top[i].driver), tried; }
      if reply != RedisLeases.Conflict { break; }
      i := i + 1;
    }
    winner := None;
  }

  method DispatchForRide(world: World, cfg: Config, radiusM: real, ageSec: real)
    returns (res: Result, ghost run: Dispatching)
    modifies world
    ensures world.log == AfterRun(old(world.log), SearchRadius(cfg, radiusM), run)
    ensures Follows(EngineConfig(cfg), Age(ageSec), run) && res.code == run.code
    ensures res.code == Dispatched ==> res.driver == run.tried[|run.tried| - 1].driver
    ensures res.failed <==> res.code == AllConflicts
  {
    var conf := EngineConfig(cfg);
    var radius := radiusM;
    if radius <= 0.0 { radius := conf.defaultRadiusM; }
    var age := ageSec;
    if age < 0.0 { age := 0.0; }
    var got := world.SearchNearby(radius);
    match got {
      case Panic => return Result(Panicked, "", false), Dispatching(got, [], [], Panicked);
      case Unavailable => return Result(RedisUnavailable, "", false), Dispatching(got, [], [], RedisUnavailable);
      case Drivers(_) =>
    }
    if got.found == [] { return Result(NoCandidates, "", false), Dispatching(got, [], [], NoCandidates); }
    var scored := ScoreCandidates(conf, got.found, age);
    var top := SortByScore(scored);
    ghost var ranked := top;
    assert |multiset(scored)| == |multiset(ranked)|;
    if |top| > conf.maxCandidates { top := top[..conf.maxCandidates]; }
    ghost var tried;
    var winner;
    winner, tried := ReserveInOrder(world, top);
    match winner {
      case Some(driver) => res := Result(Dispatched, driver, false);
      case None => res := Result(AllConflicts, "", true);
    }
    run := Dispatching(got, ranked, tried, res.code);
  }

  // ---------- one delivery ----------

  /** How the processing of one message ends. A panic of the handler takes the whole consumer down. */
  datatype Delivery = Handled(code: Option<ResultCode>) | Interrupted | Exhausted | Died

  predicate AllFollow(conf: Config, age: real, runs: seq<Dispatching>) {
    forall i {:trigger Follows(conf, age, runs[i])} :: 0 <= i < |runs| ==> Follows(conf, age, runs[i])
  }

  lemma FollowMore(conf: Config, age: real, a: seq<Dispatching>, b: seq<Dispatching>)
    requires AllFollow(conf, age, a) && AllFollow(conf, age, b)
    ensures AllFollow(conf, age, a + b)
  {
    forall i | 0 <= i < |a + b| ensures Follows(conf, age, (a + b)[i]) {
      if i < |a| { assert Follows(conf, age, a[i]); } else { assert Follows(conf, age, b[i - |a|]); }
    }
  }

  /** The log when a further run starts: a wait that was not cancelled precedes every run but the first. */
  function Ready(log: Log, runs: seq<Dispatching>): Log {
    if runs == [] then log else Then(log, Waited(false))
  }

  /** The log after the runs of one delivery. */
  function AfterRuns(log: Log, radiusM: real, runs: seq<Dispatching>): Log {
    if runs == [] then log
    else
      var front := runs[..|runs| - 1];
      AfterRun(Ready(AfterRuns(log, radiusM, front), front), radiusM, runs[|runs| - 1])
  }

  /** All runs but the last ended in conflicts. The last one ends the delivery, by its own outcome or, if it ended in
      conflicts as well, for want of retries or by a cancelled wait. */
  predicate RetriedUntil(end: Delivery, runs: seq<Dispatching>, maxRetries: nat)
    requires runs != []
  {
    var n, last := |runs|, runs[|runs| - 1].code;
    && n <= maxRetries + 1
    && (forall i :: 0 <= i < n - 1 ==> runs[i].code == AllConflicts)
    && end == if last == Panicked then Died
              else if last != AllConflicts then Handled(Some(last))
              else if n == maxRetries + 1 then Exhausted
              else Interrupted
  }

  /** A run wins one lease if it ends in a dispatch and none otherwise. */
  lemma RunWins(conf: Config, age: real, radiusM: real, run: Dispatching, log: Log)
    requires Follows(conf, age, run)
    ensures Wins(AfterRun(log, radiusM, run)) == Wins(log) + if run.code == Dispatched then 1 else 0
  {
    if run.tried != [] { NoReservedNoWin(Then(log, Searched(radiusM, run.answer)), run.tried[..|run.tried| - 1]); }
  }

  /** Over a whole delivery with all its retries exactly one lease is won if it ends in a dispatch, and none otherwise:
      a retry never books a second driver. */
  lemma {:induction false} DeliveryWinsOnce(
    conf: Config, age: real, radiusM: real, runs: seq<Dispatching>, end: Delivery, maxRetries: nat, log: Log)
    requires AllFollow(conf, age, runs) && runs != [] && RetriedUntil(end, runs, maxRetries)
    ensures Wins(AfterRuns(log, radiusM, runs)) == Wins(log) + if end == Handled(Some(Dispatched)) then 1 else 0
    decreases |runs|
  {
    var n := |runs| - 1;
    var front := runs[..n];
    assert Follows(conf, age, runs[n]);
    RunWins(conf, age, radiusM, runs[n], Ready(AfterRuns(log, radiusM, front), front));
    if n > 0 {
      forall i | 0 <= i < n ensures Follows(conf, age, front[i]) { assert Follows(conf, age, runs[i]); }
      DeliveryWinsOnce(conf, age, radiusM, front, Interrupted, maxRetries, log);
    }
  }

  /** HandleRideRequested: a message that does not decode is dropped without a search; every other one is dispatched,
      and only an error of the engine asks for a retry. `runs` is that one dispatch, or nothing. */
  method HandleRideRequested(world: World, cfg: Config, radiusM: real, ageSec: real, decodes: bool)
    returns (code: Option<ResultCode>, retry: bool, ghost runs: seq<Dispatching>)
    modifies world
    ensures |runs| == (if decodes then 1 else 0) && AllFollow(EngineConfig(cfg), Age(ageSec), runs)
    ensures decodes ==>
              world.log == AfterRun(old(world.log), SearchRadius(cfg, radiusM), runs[0]) && code == Some(runs[0].code)
    ensures !decodes ==> world.log == old(world.log) && code == None
    ensures retry <==> code == Some(AllConflicts)
  {
    if !decodes { return None, false, []; }
    var res;
    ghost var run;
    res, run := DispatchForRide(world, cfg, radiusM, ageSec);
    return Some(res.code), res.failed, [run];
  }

  /** The body of the loop of Consumer.process: the wait, except before the first call, then the handler. `runs` are the
      dispatches so far, `all` those including this one. */
  method CallOnce(world: World, cfg: Config, radiusM: real, ageSec: real, decodes: bool, first: bool,
                  ghost before: Log, ghost runs: seq<Dispatching>)
    returns (cancelled: bool, code: Option<ResultCode>, retry: bool, ghost all: seq<Dispatching>)
    requires first <==> runs == []
    requires AllFollow(EngineConfig(cfg), Age(ageSec), runs)
    requires world.log == AfterRuns(before, SearchRadius(cfg, radiusM), runs)
    modifies world
    ensures AllFollow(EngineConfig(cfg), Age(ageSec), all)
    ensures cancelled ==> !first && all == runs && world.log == Then(old(world.log), Waited(true))
    ensures !cancelled && (decodes || first) ==> world.log == AfterRuns(before, SearchRadius(cfg, radiusM), all)
    ensures !cancelled && decodes ==>
              && |all| == |runs| + 1 && code == Some(all[|runs|].code)
              && (forall i :: 0 <= i < |runs| ==> all[i] == runs[i])
    ensures !cancelled && !decodes ==> code == None && all == runs
    ensures !cancelled ==> (retry <==> code == Some(AllConflicts))
  {
    all := runs;
    if !first {
      cancelled := world.Wait();
      if cancelled { return cancelled, None, false, all; }
    }
    cancelled := false;
    ghost var more;
    code, retry, more := HandleRideRequested(world, cfg, radiusM, ageSec, decodes);
    if decodes {
      FollowMore(EngineConfig(cfg), Age(ageSec), runs, more);
      all := runs + more;
      assert all[..|runs|] == runs && all[|runs|] == more[0];
    }
  }

  /** Consumer.process: the handler is called until it succeeds, at most maxRetries + 1 times, with a cancellable wait
      before each retry. The offset is committed here exactly when the handler succeeded; a message goes to the
      dead-letter topic, if there is one, exactly when every call failed. */
  method Process(world: World, cfg: Config, radiusM: real, ageSec: real, decodes: bool, maxRetries: nat, hasDlq: bool)
    returns (end: Delivery, calls: nat, committed: bool, deadLettered: bool, ghost runs: seq<Dispatching>)
    modifies world
    ensures AllFollow(EngineConfig(cfg), Age(ageSec), runs) && |runs| == if decodes then calls else 0
    ensures calls >= 1 && if decodes then RetriedUntil(end, runs, maxRetries) else calls == 1
    ensures var log := AfterRuns(old(world.log), SearchRadius(cfg, radiusM), runs);
            world.log == if end == Interrupted then Then(log, Waited(true)) else log
    ensures end == Handled(None) <==> !decodes
    ensures committed <==> end.Handled?
    ensures deadLettered <==> end == Exhausted && hasDlq
  {
    end, calls, committed, deadLettered, runs := Exhausted, 0, false, false, [];
    while calls <= maxRetries
      invariant 0 <= calls <= maxRetries + 1 && end == Exhausted && !committed
      invariant |runs| == calls && (!decodes ==> calls == 0)
      invariant AllFollow(EngineConfig(cfg), Age(ageSec), runs)
      invariant forall i :: 0 <= i < |runs| ==> runs[i].code == AllConflicts
      invariant world.log == AfterRuns(old(world.log), SearchRadius(cfg, radiusM), runs)
    {
      ghost var before := runs;
      var cancelled, code, retry;
      cancelled, code, retry, runs :=
        CallOnce(world, cfg, radiusM, ageSec, decodes, calls == 0, old(world.log), before);
      if cancelled { end := Interrupted; break; }
      calls := calls + 1;
      if code == Some(Panicked) { end := Died; break; }
      if !retry {
        end, committed := Handled(code), true;
        break;
      }
    }
    if end == Exhausted && hasDlq { deadLettered := true; }
  }
}
