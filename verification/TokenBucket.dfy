/** The rate limiter: tokenBucketScript (internal/redis/scripts.go) behind Store.RateAllow (internal/redis/store.go).
    Clock values are milliseconds, tokens are exact reals. */
module TokenBucket {
  import opened Common

  /** The hash at ratelimit:{scope}:{id}, with the time at which its key stops existing. */
  datatype Bucket = Bucket(tokens: real, ts: int, expiresAt: int)

  datatype Call = Call(now: int, requested: nat)

  datatype Limit = Limit(capacity: int, refill: real)

  /** PEXPIRE of two minutes on every call. */
  const IDLE_MS: int := 120000

  function Min(a: real, b: real): real { if a <= b then a else b }

  /** math.max(0, now - ts) / 1000.0 */
  function Seconds(from: int, to: int): real {
    if to <= from then 0.0 else (to - from) as real / 1000.0
  }

  function Refilled(l: Limit, from: int, to: int): real {
    Seconds(from, to) * l.refill
  }

  /** The tokens a call at `now` finds after refilling. */
  function Available(l: Limit, b: Option<Bucket>, now: int): real {
    match b
    case None => Min(l.capacity as real, l.capacity as real + Refilled(l, now, now))
    case Some(k) => Min(l.capacity as real, k.tokens + Refilled(l, k.ts, now))
  }

  function Take(l: Limit, b: Option<Bucket>, c: Call): (Bucket, bool) {
    var t := Available(l, b, c.now);
    if t >= c.requested as real then (Bucket(t - c.requested as real, c.now, c.now + IDLE_MS), true)
    else (Bucket(t, c.now, c.now + IDLE_MS), false)
  }

  /** What Redis shows of a stored bucket at `now`. */
  function Visible(b: Option<Bucket>, now: int): Option<Bucket> {
    if b.Some? && now < b.value.expiresAt then b else None
  }

  class RateLimiter {
    var buckets: map<string, Bucket>

    /** `now` is the clock reading of RateAllow, shared with Redis. */
    method RateAllow(key: string, l: Limit, now: int, requested: nat) returns (allowed: bool)
      modifies this
      ensures var seen := if key in old(buckets) then Visible(Some(old(buckets)[key]), now) else None;
              && buckets == old(buckets)[key := Take(l, seen, Call(now, requested)).0]
              && allowed == Take(l, seen, Call(now, requested)).1
    {
      var tokens, ts := l.capacity as real, now;
      if key in buckets && now < buckets[key].expiresAt {
        tokens, ts := buckets[key].tokens, buckets[key].ts;
      }
      ghost var seen := if key in buckets then Visible(Some(buckets[key]), now) else None;
      tokens := tokens + Refilled(l, ts, now);
      if l.capacity as real < tokens { tokens := l.capacity as real; }
      assert tokens == Available(l, seen, now);
      allowed := false;
      if tokens >= requested as real {
        tokens := tokens - requested as real;
        allowed := true;
      }
      buckets := buckets[key := Bucket(tokens, now, now + IDLE_MS)];
    }
  }

  // ---------- runs of one bucket ----------

  /** The reference: the bucket after the first k calls if its key never expired. */
  function AfterForever(l: Limit, calls: seq<Call>, k: nat): Option<Bucket>
    requires k <= |calls|
  {
    if k == 0 then None else Some(Take(l, AfterForever(l, calls, k - 1), calls[k - 1]).0)
  }

  predicate AllowedForever(l: Limit, calls: seq<Call>, k: nat)
    requires k < |calls|
  {
    Take(l, AfterForever(l, calls, k), calls[k]).1
  }

  /** The code's bucket after the first k calls: its key expires when idle. */
  function After(l: Limit, calls: seq<Call>, k: nat): Option<Bucket>
    requires k <= |calls|
  {
    if k == 0 then None
    else Some(Take(l, Visible(After(l, calls, k - 1), calls[k - 1].now), calls[k - 1]).0)
  }

  predicate Allowed(l: Limit, calls: seq<Call>, k: nat)
    requires k < |calls|
  {
    Take(l, Visible(After(l, calls, k), calls[k].now), calls[k]).1
  }

  // ---------- the windows of a run ----------

  /** Tokens the code's bucket grants to calls i, ..., k - 1. */
  function Granted(l: Limit, calls: seq<Call>, i: nat, k: nat): nat
    requires k <= |calls|
  {
    if k <= i then 0
    else Granted(l, calls, i, k - 1) + if Allowed(l, calls, k - 1) then calls[k - 1].requested else 0
  }

  function GrantedForever(l: Limit, calls: seq<Call>, i: nat, k: nat): nat
    requires k <= |calls|
  {
    if k <= i then 0
    else GrantedForever(l, calls, i, k - 1) + if AllowedForever(l, calls, k - 1) then calls[k - 1].requested else 0
  }

  /** Forward clock movement between call i and call k, in milliseconds: the increments of the clock that are positive,
      a step back counting nothing. */
  function Forward(calls: seq<Call>, i: nat, k: nat): nat
    requires k < |calls|
  {
    if k <= i then 0
    else
      var step := calls[k].now - calls[k - 1].now;
      Forward(calls, i, k - 1) + if step > 0 then step else 0
  }

  /** The same in seconds. */
  function Waited(calls: seq<Call>, i: nat, k: nat): real
    requires k < |calls|
  {
    Forward(calls, i, k) as real / 1000.0
  }

  /** Tokens that flowed in between call i and call k. */
  function Inflow(l: Limit, calls: seq<Call>, i: nat, k: nat): real
    requires k < |calls|
  {
    if k <= i then 0.0 else Inflow(l, calls, i, k - 1) + Refilled(l, calls[k - 1].now, calls[k].now)
  }

  lemma {:induction false} InflowIsRefillTimesWaited(l: Limit, calls: seq<Call>, i: nat, k: nat)
    requires k < |calls|
    ensures Inflow(l, calls, i, k) == l.refill * Waited(calls, i, k)
  {
    if i < k {
      InflowIsRefillTimesWaited(l, calls, i, k - 1);
      var w, s := Waited(calls, i, k - 1), Seconds(calls[k - 1].now, calls[k].now);
      assert Waited(calls, i, k) == w + s;
      assert l.refill * (w + s) == l.refill * w + s * l.refill;
    }
  }

  function Taken(l: Limit, calls: seq<Call>, k: nat): real
    requires k < |calls|
  {
    if AllowedForever(l, calls, k) then calls[k].requested as real else 0.0
  }

  /** What the window from call i leaves for call k: a full bucket plus what flowed in, minus what was granted. */
  function Headroom(l: Limit, calls: seq<Call>, i: nat, k: nat): real
    requires k < |calls|
  {
    l.capacity as real + Inflow(l, calls, i, k) - GrantedForever(l, calls, i, k) as real
  }

  function Level(l: Limit, calls: seq<Call>, k: nat): real
    requires k < |calls|
  {
    Available(l, AfterForever(l, calls, k), calls[k].now)
  }

  lemma LevelStep(l: Limit, calls: seq<Call>, k: nat)
    requires k + 1 < |calls|
    ensures Level(l, calls, k + 1) ==
            Min(l.capacity as real,
                Level(l, calls, k) - Taken(l, calls, k) + Refilled(l, calls[k].now, calls[k + 1].now))
  {
    assert AfterForever(l, calls, k + 1) == Some(Take(l, AfterForever(l, calls, k), calls[k]).0);
  }

  lemma HeadroomStep(l: Limit, calls: seq<Call>, i: nat, k: nat)
    requires i <= k && k + 1 < |calls|
    ensures Headroom(l, calls, i, k + 1) ==
            Headroom(l, calls, i, k) - Taken(l, calls, k) + Refilled(l, calls[k].now, calls[k + 1].now)
  {
    assert GrantedForever(l, calls, i, k + 1) as real == GrantedForever(l, calls, i, k) as real + Taken(l, calls, k);
  }

  lemma {:induction false} LevelBelowEveryWindow(l: Limit, calls: seq<Call>, i: nat, k: nat)
    requires i <= k < |calls|
    ensures Level(l, calls, k) <= Headroom(l, calls, i, k)
    decreases k
  {
    if i < k {
      LevelBelowEveryWindow(l, calls, i, k - 1);
      LevelStep(l, calls, k - 1);
      HeadroomStep(l, calls, i, k - 1);
    }
  }

  /** The stored count is the headroom of the tightest window. */
  lemma {:induction false} LevelIsSomeWindow(l: Limit, calls: seq<Call>, k: nat) returns (i: nat)
    requires k < |calls|
    ensures i <= k && Level(l, calls, k) == Headroom(l, calls, i, k)
    decreases k
  {
    i := k;
    if k > 0 && Level(l, calls, k) != l.capacity as real {
      i := LevelIsSomeWindow(l, calls, k - 1);
      LevelStep(l, calls, k - 1);
      HeadroomStep(l, calls, i, k - 1);
    }
  }

  /** Granting call k would keep the window that starts at call i within capacity plus inflow. */
  predicate ForeverFits(l: Limit, calls: seq<Call>, i: nat, k: nat)
    requires k < |calls|
  {
    GrantedForever(l, calls, i, k) as real + calls[k].requested as real <= l.capacity as real + Inflow(l, calls, i, k)
  }

  /** A bucket that never expires keeps one number, yet decides as if it checked every window ending at the call. */
  lemma ForeverIffEveryWindowFits(l: Limit, calls: seq<Call>, k: nat)
    requires k < |calls|
    ensures AllowedForever(l, calls, k) <==> forall i :: 0 <= i <= k ==> ForeverFits(l, calls, i, k)
  {
    var i := LevelIsSomeWindow(l, calls, k);
    assert AllowedForever(l, calls, k) <==> calls[k].requested as real <= Level(l, calls, k);
    forall j | 0 <= j <= k
      ensures ForeverFits(l, calls, j, k) <==> calls[k].requested as real <= Headroom(l, calls, j, k)
      ensures Level(l, calls, k) <= Headroom(l, calls, j, k)
    {
      LevelBelowEveryWindow(l, calls, j, k);
    }
  }

  // ---------- rate bound ----------

  lemma RefillNotNegative(l: Limit, from: int, to: int)
    requires l.refill >= 0.0
    ensures Refilled(l, from, to) >= 0.0
  {
    assert Seconds(from, to) >= 0.0;
  }

  lemma {:induction false} ForeverWithinInflow(l: Limit, calls: seq<Call>, i: nat, k: nat)
    requires i <= k < |calls| && l.capacity >= 0 && l.refill >= 0.0
    ensures GrantedForever(l, calls, i, k + 1) as real <= l.capacity as real + Inflow(l, calls, i, k)
    decreases k
  {
    if AllowedForever(l, calls, k) {
      ForeverIffEveryWindowFits(l, calls, k);
      assert ForeverFits(l, calls, i, k);
    } else if i < k {
      ForeverWithinInflow(l, calls, i, k - 1);
      RefillNotNegative(l, calls[k - 1].now, calls[k].now);
    }
  }

  lemma {:induction false} ForeverRateBound(l: Limit, calls: seq<Call>, i: nat, k: nat)
    requires i <= k < |calls| && l.capacity >= 0 && l.refill >= 0.0
    ensures GrantedForever(l, calls, i, k + 1) as real <= l.capacity as real + l.refill * Waited(calls, i, k)
  {
    ForeverWithinInflow(l, calls, i, k);
    InflowIsRefillTimesWaited(l, calls, i, k);
  }

  /** With a clock that never goes back the forward movement is the elapsed time. */
  lemma {:induction false} WaitedIsElapsed(calls: seq<Call>, i: nat, k: nat)
    requires i <= k < |calls|
    requires forall j :: i <= j < k ==> calls[j].now <= calls[j + 1].now
    ensures calls[i].now <= calls[k].now
    ensures Forward(calls, i, k) == calls[k].now - calls[i].now
    decreases k
  {
    if i < k { WaitedIsElapsed(calls, i, k - 1); }
  }

  // ---------- progress and expiry ----------

  lemma {:induction false} ForeverTokensInRange(l: Limit, calls: seq<Call>, k: nat)
    requires k <= |calls| && l.capacity >= 0 && l.refill >= 0.0
    ensures AfterForever(l, calls, k).Some? ==> 0.0 <= AfterForever(l, calls, k).value.tokens <= l.capacity as real
    ensures k > 0 ==> AfterForever(l, calls, k).value.ts == calls[k - 1].now
    ensures k > 0 ==> AfterForever(l, calls, k).value.expiresAt == calls[k - 1].now + IDLE_MS
  {
    if k > 0 {
      ForeverTokensInRange(l, calls, k - 1);
      var b := AfterForever(l, calls, k - 1);
      if b.Some? { RefillNotNegative(l, b.value.ts, calls[k - 1].now); }
    }
  }

  lemma {:induction false} TokensInRange(l: Limit, calls: seq<Call>, k: nat)
    requires k <= |calls| && l.capacity >= 0 && l.refill >= 0.0
    ensures After(l, calls, k).Some? ==> 0.0 <= After(l, calls, k).value.tokens <= l.capacity as real
    ensures k > 0 ==> After(l, calls, k).value.ts == calls[k - 1].now
  {
    if k > 0 {
      TokensInRange(l, calls, k - 1);
      var b := Visible(After(l, calls, k - 1), calls[k - 1].now);
      if b.Some? { RefillNotNegative(l, b.value.ts, calls[k - 1].now); }
    }
  }

  lemma RefillOfWait(l: Limit, from: int, to: int, tokens: real)
    requires l.refill > 0.0 && tokens >= 0.0 && (to - from) as real * l.refill >= 1000.0 * tokens
    ensures Refilled(l, from, to) >= tokens
  {
    var ms := (to - from) as real;
    if to <= from {
      assert (-ms) * l.refill >= 0.0;
    } else {
      assert ms / 1000.0 * l.refill == ms * l.refill / 1000.0;
    }
  }

  /** A clock that stands still or goes back refills nothing: the call is admitted exactly when what the previous call
      left covers it, for every limit and after every history. */
  lemma NoRefillWithoutProgress(l: Limit, calls: seq<Call>, k: nat)
    requires 0 < k < |calls| && calls[k].now <= calls[k - 1].now
    ensures After(l, calls, k).Some? && After(l, calls, k + 1).Some?
    ensures var left := After(l, calls, k).value.tokens;
            && (Allowed(l, calls, k) <==> calls[k].requested as real <= left)
            && After(l, calls, k + 1).value.tokens ==
               if Allowed(l, calls, k) then left - calls[k].requested as real else left
  {
    var b := Visible(After(l, calls, k - 1), calls[k - 1].now);
    assert After(l, calls, k) == Some(Take(l, b, calls[k - 1]).0);
    assert Visible(After(l, calls, k), calls[k].now) == After(l, calls, k);
  }

  /** After any history, with or without key expiry, a lone caller that asks for at most the capacity and has waited
      requested/refill seconds since the last call is served. */
  lemma LoneCallerServed(l: Limit, calls: seq<Call>, k: nat)
    requires 0 < k < |calls| && l.refill > 0.0 && calls[k].requested <= l.capacity
    requires (calls[k].now - calls[k - 1].now) as real * l.refill >= 1000.0 * calls[k].requested as real
    ensures AllowedForever(l, calls, k) && Allowed(l, calls, k)
  {
    RefillOfWait(l, calls[k - 1].now, calls[k].now, calls[k].requested as real);
    ForeverTokensInRange(l, calls, k);
    TokensInRange(l, calls, k);
  }

  lemma FullAfterIdle(l: Limit, b: Bucket, now: int)
    requires 0 <= l.capacity && l.capacity as real <= 120.0 * l.refill
    requires 0.0 <= b.tokens && b.ts + IDLE_MS <= now
    ensures Available(l, Some(b), now) == l.capacity as real == Available(l, None, now)
  {
    var s := Seconds(b.ts, now);
    assert s >= 120.0;
    assert (s - 120.0) * l.refill >= 0.0;
    assert s * l.refill == 120.0 * l.refill + (s - 120.0) * l.refill;
  }

  /** A bucket that expired answers like the full bucket it has become. */
  lemma SameTake(l: Limit, b: Option<Bucket>, c: Call)
    requires 0 <= l.capacity && l.capacity as real <= 120.0 * l.refill
    requires b.Some? ==> 0.0 <= b.value.tokens && b.value.expiresAt == b.value.ts + IDLE_MS
    ensures Take(l, Visible(b, c.now), c) == Take(l, b, c)
  {
    if b.Some? && b.value.expiresAt <= c.now { FullAfterIdle(l, b.value, c.now); }
  }

  lemma {:induction false} ExpiryAgrees(l: Limit, calls: seq<Call>, k: nat)
    requires k <= |calls| && 0 <= l.capacity && l.capacity as real <= 120.0 * l.refill
    ensures After(l, calls, k) == AfterForever(l, calls, k)
    ensures k < |calls| ==> (Allowed(l, calls, k) <==> AllowedForever(l, calls, k))
  {
    if k > 0 {
      ExpiryAgrees(l, calls, k - 1);
      ForeverTokensInRange(l, calls, k - 1);
      SameTake(l, AfterForever(l, calls, k - 1), calls[k - 1]);
    }
    ForeverTokensInRange(l, calls, k);
    if k < |calls| { SameTake(l, AfterForever(l, calls, k), calls[k]); }
  }

  ghost predicate ExpiryInvisible(l: Limit) {
    forall calls, k :: 0 <= k < |calls| ==> (Allowed(l, calls, k) <==> AllowedForever(l, calls, k))
  }

  /** Key expiry changes no answer of any run exactly when two minutes refill the whole bucket. */
  lemma ExpiryInvisibleIff(l: Limit)
    requires l.capacity >= 0 && l.refill >= 0.0
    ensures ExpiryInvisible(l) <==> l.capacity as real <= 120.0 * l.refill
  {
    if l.capacity as real <= 120.0 * l.refill {
      forall calls: seq<Call>, k | 0 <= k < |calls|
        ensures Allowed(l, calls, k) <==> AllowedForever(l, calls, k)
      {
        ExpiryAgrees(l, calls, k);
      }
    } else {
      var calls := [Call(0, l.capacity), Call(IDLE_MS, l.capacity)];
      assert AfterForever(l, calls, 1) == Some(Take(l, None, calls[0]).0);
      assert After(l, calls, 1) == Some(Take(l, None, calls[0]).0);
      assert Take(l, None, calls[0]).0 == Bucket(0.0, 0, IDLE_MS);
      assert Seconds(0, IDLE_MS) == 120.0;
      assert Allowed(l, calls, 1) && !AllowedForever(l, calls, 1);
    }
  }

  // ---------- the rate of the code's bucket ----------

  lemma {:induction false} SameGrants(l: Limit, calls: seq<Call>, i: nat, k: nat)
    requires k <= |calls| && 0 <= l.capacity && l.capacity as real <= 120.0 * l.refill
    ensures Granted(l, calls, i, k) == GrantedForever(l, calls, i, k)
    decreases k
  {
    if i < k {
      SameGrants(l, calls, i, k - 1);
      ExpiryAgrees(l, calls, k - 1);
    }
  }

  /** Granting call k would keep the window that starts at call i within capacity plus inflow. */
  predicate WindowFits(l: Limit, calls: seq<Call>, i: nat, k: nat)
    requires k < |calls|
  {
    Granted(l, calls, i, k) as real + calls[k].requested as real <= l.capacity as real + Inflow(l, calls, i, k)
  }

  predicate EveryWindowFits(l: Limit, calls: seq<Call>, k: nat)
    requires k < |calls|
  {
    forall i :: 0 <= i <= k ==> WindowFits(l, calls, i, k)
  }

  ghost predicate DecidesByWindows(l: Limit) {
    forall calls, k :: 0 <= k < |calls| ==> (Allowed(l, calls, k) <==> EveryWindowFits(l, calls, k))
  }

  predicate WindowBounded(l: Limit, calls: seq<Call>, i: nat, k: nat)
    requires i <= k < |calls|
  {
    Granted(l, calls, i, k + 1) as real <= l.capacity as real + l.refill * Waited(calls, i, k)
  }

  ghost predicate RateBounded(l: Limit) {
    forall calls, i, k :: 0 <= i <= k < |calls| ==> WindowBounded(l, calls, i, k)
  }

  lemma {:induction false} WindowsAgree(l: Limit, calls: seq<Call>, k: nat)
    requires k < |calls| && 0 <= l.capacity && l.capacity as real <= 120.0 * l.refill
    ensures Allowed(l, calls, k) <==> EveryWindowFits(l, calls, k)
  {
    ExpiryAgrees(l, calls, k);
    ForeverIffEveryWindowFits(l, calls, k);
    forall i | 0 <= i <= k ensures WindowFits(l, calls, i, k) <==> ForeverFits(l, calls, i, k) {
      SameGrants(l, calls, i, k);
    }
  }

  lemma {:induction false} WindowsBounded(l: Limit, calls: seq<Call>, i: nat, k: nat)
    requires i <= k < |calls| && 0 <= l.capacity && l.capacity as real <= 120.0 * l.refill
    ensures WindowBounded(l, calls, i, k)
  {
    SameGrants(l, calls, i, k + 1);
    ForeverRateBound(l, calls, i, k);
  }

  /** The burst that an early expiry allows: the whole capacity twice, two minutes apart. */
  function Burst(l: Limit): seq<Call>
    requires l.capacity >= 0
  {
    [Call(0, l.capacity), Call(IDLE_MS, l.capacity)]
  }

  lemma BurstIsGranted(l: Limit)
    requires l.capacity >= 0 && l.refill >= 0.0
    ensures Allowed(l, Burst(l), 0) && Allowed(l, Burst(l), 1)
    ensures Granted(l, Burst(l), 0, 1) == l.capacity && Granted(l, Burst(l), 0, 2) == 2 * l.capacity
    ensures Waited(Burst(l), 0, 1) == 120.0
  {
    var calls := Burst(l);
    assert After(l, calls, 1) == Some(Take(l, None, calls[0]).0);
    assert Take(l, None, calls[0]).0 == Bucket(0.0, 0, IDLE_MS);
    assert Granted(l, calls, 0, 1) == Granted(l, calls, 0, 0) + l.capacity;
    assert Granted(l, calls, 0, 2) == Granted(l, calls, 0, 1) + l.capacity;
    assert Forward(calls, 0, 1) == Forward(calls, 0, 0) + IDLE_MS;
  }

  /** The code's bucket keeps the rate, capacity + refill * elapsed on every window of every run, if and only if two
      minutes refill the whole bucket; and under that condition, and no other, it decides as if it checked every
      window. */
  lemma RateBoundIff(l: Limit)
    requires l.capacity >= 0 && l.refill >= 0.0
    ensures RateBounded(l) <==> l.capacity as real <= 120.0 * l.refill
    ensures DecidesByWindows(l) <==> l.capacity as real <= 120.0 * l.refill
  {
    if l.capacity as real <= 120.0 * l.refill {
      forall calls: seq<Call>, i, k | 0 <= i <= k < |calls| ensures WindowBounded(l, calls, i, k) {
        WindowsBounded(l, calls, i, k);
      }
      forall calls: seq<Call>, k | 0 <= k < |calls| ensures Allowed(l, calls, k) <==> EveryWindowFits(l, calls, k) {
        WindowsAgree(l, calls, k);
      }
    } else {
      BurstIsGranted(l);
      InflowIsRefillTimesWaited(l, Burst(l), 0, 1);
      assert !WindowBounded(l, Burst(l), 0, 1);
      assert !WindowFits(l, Burst(l), 0, 1);
      assert !EveryWindowFits(l, Burst(l), 1);
    }
  }

  function Left(l: Limit, calls: seq<Call>, i: nat, k: nat): real
    requires k < |calls|
  {
    l.capacity as real + Inflow(l, calls, i, k) - Granted(l, calls, i, k) as real
  }

  lemma {:induction false} LevelWithinStretch(l: Limit, calls: seq<Call>, i: nat, k: nat)
    requires i <= k < |calls| && forall j :: i < j <= k ==> calls[j].now < calls[j - 1].now + IDLE_MS
    ensures Available(l, Visible(After(l, calls, k), calls[k].now), calls[k].now) <= Left(l, calls, i, k)
    decreases k
  {
    if i < k {
      LevelWithinStretch(l, calls, i, k - 1);
      var b := Visible(After(l, calls, k - 1), calls[k - 1].now);
      assert After(l, calls, k) == Some(Take(l, b, calls[k - 1]).0);
      assert Inflow(l, calls, i, k) == Inflow(l, calls, i, k - 1) + Refilled(l, calls[k - 1].now, calls[k].now);
      assert Granted(l, calls, i, k) ==
             Granted(l, calls, i, k - 1) + if Allowed(l, calls, k - 1) then calls[k - 1].requested else 0;
    }
  }

  lemma {:induction false} StretchWithinInflow(l: Limit, calls: seq<Call>, i: nat, k: nat)
    requires i <= k < |calls| && l.capacity >= 0 && l.refill >= 0.0
    requires forall j :: i < j <= k ==> calls[j].now < calls[j - 1].now + IDLE_MS
    ensures Granted(l, calls, i, k + 1) as real <= l.capacity as real + Inflow(l, calls, i, k)
    decreases k
  {
    LevelWithinStretch(l, calls, i, k);
    if !Allowed(l, calls, k) && i < k {
      StretchWithinInflow(l, calls, i, k - 1);
      RefillNotNegative(l, calls[k - 1].now, calls[k].now);
    }
  }

  /** For every limit whatsoever the rate holds on windows in which no two consecutive calls are two minutes apart. */
  lemma {:induction false} RateBoundWithinStretch(l: Limit, calls: seq<Call>, i: nat, k: nat)
    requires i <= k < |calls| && l.capacity >= 0 && l.refill >= 0.0
    requires forall j :: i < j <= k ==> calls[j].now < calls[j - 1].now + IDLE_MS
    ensures WindowBounded(l, calls, i, k)
  {
    StretchWithinInflow(l, calls, i, k);
    InflowIsRefillTimesWaited(l, calls, i, k);
  }
}
