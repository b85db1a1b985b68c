/** The two rate limiters: a lazily refilled token bucket per address, and an INCR/EXPIRE counter.
    Times are real numbers of seconds. */
module TokenBucket {
  type Ip = string
  type Instant = real

  datatype Bucket = Bucket(tokens: real, stamp: Instant)

  function Min(a: real, b: real): real {
    if a <= b then a else b
  }

  /** `saturating_duration_since`: a clock that went back counts as no time. */
  function Elapsed(from: Instant, to: Instant): real {
    if to > from then to - from else 0.0
  }

  datatype Config = Config(capacity: real, refillPerSec: real)
  {
    /** The tokens that come back in `seconds`. */
    function Refilled(seconds: real): real {
      seconds * refillPerSec
    }

    function Credit(from: Instant, to: Instant): real {
      Refilled(Elapsed(from, to))
    }

    function Refill(b: Bucket, now: Instant): Bucket {
      Bucket(Min(b.tokens + Credit(b.stamp, now), capacity), now)
    }

    function Take(b: Bucket): Bucket {
      if b.tokens >= 1.0 then b.(tokens := b.tokens - 1.0) else b
    }

    /** The bucket of `ip` as a check at `now` first sees it. */
    function Seen(buckets: map<Ip, Bucket>, ip: Ip, now: Instant): Bucket {
      Refill(if ip in buckets then buckets[ip] else Bucket(capacity, now), now)
    }

    function After(buckets: map<Ip, Bucket>, ip: Ip, now: Instant): map<Ip, Bucket> {
      buckets[ip := Take(Seen(buckets, ip, now))]
    }
  }

  /** A check in columns: a new address starts full; what came back since the last check, at most the capacity, is
      there; and one token goes if there is one. */
  ghost predicate ChecksAs(config: Config, before: map<Ip, Bucket>, ip: Ip, now: Instant, allowed: bool,
                           after: map<Ip, Bucket>) {
    var was := if ip in before then before[ip] else Bucket(config.capacity, now);
    var gained := Gained(was.stamp, now, config.refillPerSec);
    var level := if was.tokens + gained <= config.capacity then was.tokens + gained else config.capacity;
    && (allowed <==> level >= 1.0)
    && after == before[ip := Bucket(if allowed then level - 1.0 else level, now)]
  }

  lemma {:induction false} ChecksInColumns(config: Config, buckets: map<Ip, Bucket>, ip: Ip, now: Instant)
    ensures ChecksAs(config, buckets, ip, now, config.Seen(buckets, ip, now).tokens >= 1.0,
                     config.After(buckets, ip, now))
  {
    var was := if ip in buckets then buckets[ip] else Bucket(config.capacity, now);
    CreditIsGained(config, was.stamp, now);
    hide Config.Credit, Gained;
  }

  /** Seconds since then, none if the clock went back, at so many tokens a second. */
  function Gained(stamp: Instant, now: Instant, rate: real): real {
    if now > stamp then (now - stamp) * rate else 0.0
  }

  lemma {:induction false} CreditIsGained(config: Config, from: Instant, to: Instant)
    ensures config.Credit(from, to) == Gained(from, to, config.refillPerSec)
  {
    assert 0.0 * config.refillPerSec == 0.0;
  }

  lemma {:induction false} CreditIsElapsed(config: Config, from: Instant, to: Instant)
    ensures config.Credit(from, to) == Elapsed(from, to) * config.refillPerSec
  {
  }

  class InMemoryRateLimiter {
    const config: Config
    var buckets: map<Ip, Bucket>

    constructor (config: Config)
      ensures this.config == config && buckets == map[]
    {
      this.config, buckets := config, map[];
    }

    method Check(ip: Ip, now: Instant) returns (allowed: bool)
      modifies this`buckets
      ensures allowed <==> config.Seen(old(buckets), ip, now).tokens >= 1.0
      ensures buckets == config.After(old(buckets), ip, now)
      ensures ChecksAs(config, old(buckets), ip, now, allowed, buckets)
    {
      hide ChecksAs, Config.Credit, Elapsed;
      ChecksInColumns(config, buckets, ip, now);
      if ip !in buckets {
        buckets := buckets[ip := Bucket(config.capacity, now)];
      }
      var entry := buckets[ip];
      var elapsed := Elapsed(entry.stamp, now);
      CreditIsElapsed(config, entry.stamp, now);
      entry := Bucket(Min(entry.tokens + elapsed * config.refillPerSec, config.capacity), now);
      assert entry == config.Seen(old(buckets), ip, now);
      allowed := entry.tokens >= 1.0;
      if allowed {
        entry := entry.(tokens := entry.tokens - 1.0);
      }
      buckets := buckets[ip := entry];
      assert buckets == old(buckets)[ip := entry];
    }
  }

  // ----- one address: a full bucket, then before call i a credit of credits[i] tokens -----

  function Left(level: real): real {
    if level >= 1.0 then level - 1.0 else level
  }

  /** The tokens that call i sees. */
  function Level(capacity: real, credits: seq<real>, i: nat): real
    requires i < |credits|
  {
    if i == 0 then capacity
    else Min(Left(Level(capacity, credits, i - 1)) + credits[i], capacity)
  }

  predicate Admitted(capacity: real, credits: seq<real>, i: nat)
    requires i < |credits|
  {
    Level(capacity, credits, i) >= 1.0
  }

  /** How many of the calls j, ..., i-1 were admitted. */
  function Admissions(capacity: real, credits: seq<real>, j: nat, i: nat): (n: nat)
    requires j <= i <= |credits|
    ensures n <= i - j
    decreases i
  {
    if i == j then 0
    else Admissions(capacity, credits, j, i - 1) + (if Admitted(capacity, credits, i - 1) then 1 else 0)
  }

  /** All credits up to call i, had the bucket no bound. */
  function Total(credits: seq<real>, i: nat): real
    requires i < |credits|
  {
    if i == 0 then 0.0 else Total(credits, i - 1) + credits[i]
  }

  /** What the calls since j leave of a bucket that was full at j. */
  function Budget(capacity: real, credits: seq<real>, j: nat, i: nat): real
    requires j <= i < |credits|
  {
    capacity + (Total(credits, i) - Total(credits, j)) - Admissions(capacity, credits, j, i) as real
  }

  /** The lazily refilled level is the least of the budgets since any earlier call. */
  lemma {:induction false} LevelIsLeastBudget(capacity: real, credits: seq<real>, i: nat) returns (least: nat)
    requires i < |credits|
    ensures least <= i && Level(capacity, credits, i) == Budget(capacity, credits, least, i)
    ensures forall j :: 0 <= j <= i ==> Level(capacity, credits, i) <= Budget(capacity, credits, j, i)
  {
    least := i;
    if i > 0 {
      var before := LevelIsLeastBudget(capacity, credits, i - 1);
      if Left(Level(capacity, credits, i - 1)) + credits[i] <= capacity {
        least := before;
      }
      forall j | 0 <= j <= i ensures Level(capacity, credits, i) <= Budget(capacity, credits, j, i) {
        assert j < i ==> Level(capacity, credits, i - 1) <= Budget(capacity, credits, j, i - 1);
      }
    }
  }

  lemma {:induction false} AdmissionFitsBudgets(capacity: real, credits: seq<real>, i: nat)
    requires i < |credits|
    ensures Admitted(capacity, credits, i) <==> forall j :: 0 <= j <= i ==> Budget(capacity, credits, j, i) >= 1.0
  {
    var least := LevelIsLeastBudget(capacity, credits, i);
  }

  /** The credits of calls at times `ts`. */
  function Credits(c: Config, ts: seq<Instant>): (credits: seq<real>)
    ensures |credits| == |ts|
  {
    seq(|ts|, i requires 0 <= i < |ts| => if i == 0 then 0.0 else c.Credit(ts[i - 1], ts[i]))
  }

  /** The time the limiter has seen go by up to call i: steps back count nothing. */
  function Clock(ts: seq<Instant>, i: nat): real
    requires i < |ts|
  {
    if i == 0 then 0.0 else Clock(ts, i - 1) + Elapsed(ts[i - 1], ts[i])
  }

  lemma {:induction false} TotalIsClock(c: Config, ts: seq<Instant>, i: nat)
    requires i < |ts|
    ensures Total(Credits(c, ts), i) == c.Refilled(Clock(ts, i))
  {
    hide Config.Refilled;
    if i > 0 {
      TotalIsClock(c, ts, i - 1);
      RefillAdds(c, Clock(ts, i - 1), Elapsed(ts[i - 1], ts[i]));
    } else {
      RefillAdds(c, 0.0, 0.0);
    }
  }

  lemma {:induction false} RefillAdds(c: Config, x: real, y: real)
    ensures c.Refilled(x + y) == c.Refilled(x) + c.Refilled(y)
    ensures c.Refilled(x - y) == c.Refilled(x) - c.Refilled(y)
    ensures c.Refilled(0.0) == 0.0
  {
  }

  /** The admissions from call j up to call i, and call i itself, fit the capacity plus the refill over
      the time the limiter has seen since j. */
  ghost predicate FitsSince(c: Config, ts: seq<Instant>, j: nat, i: nat)
    requires j <= i < |ts|
  {
    Admissions(c.capacity, Credits(c, ts), j, i) as real + 1.0 <= c.capacity + c.Refilled(Clock(ts, i) - Clock(ts, j))
  }

  /** The same over the real time since j. */
  ghost predicate FitsRealTime(c: Config, ts: seq<Instant>, j: nat, i: nat)
    requires j <= i < |ts|
  {
    Admissions(c.capacity, Credits(c, ts), j, i) as real + 1.0 <= c.capacity + c.Refilled(ts[i] - ts[j])
  }

  lemma {:induction false} FitsIsBudget(c: Config, ts: seq<Instant>, j: nat, i: nat)
    requires j <= i < |ts|
    ensures FitsSince(c, ts, j, i) <==> Budget(c.capacity, Credits(c, ts), j, i) >= 1.0
  {
    hide Config.Refilled;
    TotalIsClock(c, ts, i);
    TotalIsClock(c, ts, j);
    RefillAdds(c, Clock(ts, i), Clock(ts, j));
  }

  /** Exact admission, for every sequence of call times: a call passes iff it fits since every call
      up to it. */
  lemma {:induction false} AdmissionIsExact(c: Config, ts: seq<Instant>, i: nat)
    requires i < |ts|
    ensures Admitted(c.capacity, Credits(c, ts), i) <==> forall j :: 0 <= j <= i ==> FitsSince(c, ts, j, i)
  {
    hide FitsSince, Budget;
    AdmissionFitsBudgets(c.capacity, Credits(c, ts), i);
    forall j | 0 <= j <= i
      ensures FitsSince(c, ts, j, i) <==> Budget(c.capacity, Credits(c, ts), j, i) >= 1.0
    {
      FitsIsBudget(c, ts, j, i);
    }
  }

  ghost predicate NonDecreasing(ts: seq<Instant>) {
    forall i, j :: 0 <= i < j < |ts| ==> ts[i] <= ts[j]
  }

  lemma {:induction false} ClockIsTime(ts: seq<Instant>, j: nat, i: nat)
    requires NonDecreasing(ts) && j <= i < |ts|
    ensures Clock(ts, i) - Clock(ts, j) == ts[i] - ts[j]
    decreases i
  {
    if j < i {
      ClockIsTime(ts, j, i - 1);
    }
  }

  /** With a clock that never goes back, the time seen is the real time. */
  lemma {:induction false} AdmissionOnSteadyClock(c: Config, ts: seq<Instant>, i: nat)
    requires NonDecreasing(ts) && i < |ts|
    ensures Admitted(c.capacity, Credits(c, ts), i) <==> forall j :: 0 <= j <= i ==> FitsRealTime(c, ts, j, i)
  {
    hide FitsSince, FitsRealTime, Admitted;
    AdmissionIsExact(c, ts, i);
    forall j | 0 <= j <= i ensures FitsSince(c, ts, j, i) <==> FitsRealTime(c, ts, j, i) {
      SteadyFits(c, ts, j, i);
    }
  }

  lemma {:induction false} SteadyFits(c: Config, ts: seq<Instant>, j: nat, i: nat)
    requires NonDecreasing(ts) && j <= i < |ts|
    ensures FitsSince(c, ts, j, i) <==> FitsRealTime(c, ts, j, i)
  {
    hide Config.Refilled, Admissions, Credits, Clock;
    ClockIsTime(ts, j, i);
  }

  /** Any interval admits at most the capacity plus the refill over the time the limiter has seen in it,
      for every sequence of times. */
  lemma {:induction false} SeenTimeBound(c: Config, ts: seq<Instant>, j: nat, i: nat)
    requires c.capacity >= 0.0 && c.refillPerSec >= 0.0 && j <= i < |ts|
    ensures Admissions(c.capacity, Credits(c, ts), j, i + 1) as real
         <= c.capacity + c.Refilled(Clock(ts, i) - Clock(ts, j))
    decreases i
  {
    hide Config.Refilled, Level, Credits;
    var cr := Credits(c, ts);
    if Admitted(c.capacity, cr, i) {
      AdmissionIsExact(c, ts, i);
      assert FitsSince(c, ts, j, i);
    } else if j < i {
      SeenTimeBound(c, ts, j, i - 1);
      RefillGrows(c, Clock(ts, i - 1) - Clock(ts, j), Clock(ts, i) - Clock(ts, j));
    } else {
      RefillAdds(c, 0.0, 0.0);
      assert Admissions(c.capacity, cr, j, j) == 0;
    }
  }

  lemma {:induction false} RefillGrows(c: Config, x: real, y: real)
    requires c.refillPerSec >= 0.0 && x <= y
    ensures c.Refilled(x) <= c.Refilled(y)
  {
    RefillAdds(c, y, x);
    assert (y - x) * c.refillPerSec >= 0.0;
  }

  /** How far the clock stepped back between calls j and i, in all. */
  function StepsBack(ts: seq<Instant>, j: nat, i: nat): (total: real)
    requires j <= i < |ts|
    ensures total >= 0.0
    decreases i
  {
    if i == j then 0.0 else StepsBack(ts, j, i - 1) + Elapsed(ts[i], ts[i - 1])
  }

  lemma {:induction false} ClockExceedsTime(ts: seq<Instant>, j: nat, i: nat)
    requires j <= i < |ts|
    ensures Clock(ts, i) - Clock(ts, j) == ts[i] - ts[j] + StepsBack(ts, j, i)
    decreases i
  {
    if j < i {
      ClockExceedsTime(ts, j, i - 1);
    }
  }

  /** The admissions of calls j to i fit the capacity plus the refill over the real time between them. */
  ghost predicate RealTimeBound(c: Config, ts: seq<Instant>, j: nat, i: nat)
    requires j <= i < |ts|
  {
    Admissions(c.capacity, Credits(c, ts), j, i + 1) as real <= c.capacity + c.Refilled(ts[i] - ts[j])
  }

  /** That bound is exceeded by no more than the refill over the steps back of the clock. */
  lemma {:induction false} RealTimeExcess(c: Config, ts: seq<Instant>, j: nat, i: nat)
    requires c.capacity >= 0.0 && c.refillPerSec >= 0.0 && j <= i < |ts|
    ensures Admissions(c.capacity, Credits(c, ts), j, i + 1) as real
         <= c.capacity + c.Refilled(ts[i] - ts[j]) + c.Refilled(StepsBack(ts, j, i))
  {
    hide Config.Refilled, Admissions, Credits, Clock, StepsBack;
    SeenTimeBound(c, ts, j, i);
    ClockExceedsTime(ts, j, i);
    RefillAdds(c, ts[i] - ts[j], StepsBack(ts, j, i));
  }

  /** With a clock that never goes back, any interval admits at most the capacity plus the refill over its
      length. */
  lemma {:induction false} IntervalBound(c: Config, ts: seq<Instant>, j: nat, i: nat)
    requires NonDecreasing(ts) && c.capacity >= 0.0 && c.refillPerSec >= 0.0
    requires j <= i < |ts|
    ensures RealTimeBound(c, ts, j, i)
  {
    hide Config.Refilled, Admissions, Credits, Clock;
    SeenTimeBound(c, ts, j, i);
    ClockIsTime(ts, j, i);
  }

  predicate Usable(c: Config) { c.capacity >= 1.0 && c.refillPerSec >= 0.0 }

  /** The bound from the first call to call i, of every usable limiter. */
  ghost predicate BoundedFromFull(ts: seq<Instant>, i: nat)
    requires i < |ts|
  {
    forall c: Config :: Usable(c) ==> RealTimeBound(c, ts, 0, i)
  }

  /** The same after any earlier calls. */
  ghost predicate BoundedAfterAny(ts: seq<Instant>, i: nat)
    requires i < |ts|
  {
    forall c: Config, past: seq<Instant> :: Usable(c) ==> RealTimeBound(c, past + ts, |past|, |past| + i)
  }

  lemma {:induction false} PastIsForgotten(past: seq<Instant>, ts: seq<Instant>, i: nat)
    requires i < |ts|
    ensures StepsBack(past + ts, |past|, |past| + i) == StepsBack(ts, 0, i)
  {
    if i > 0 {
      PastIsForgotten(past, ts, i - 1);
    }
  }

  lemma {:induction false} NoStepsBack(ts: seq<Instant>, i: nat)
    requires i < |ts|
    ensures StepsBack(ts, 0, i) == 0.0 <==> NonDecreasing(ts[..i + 1])
  {
    if i > 0 {
      NoStepsBack(ts, i - 1);
      var shorter, longer := ts[..i], ts[..i + 1];
      assert NonDecreasing(longer) <==> NonDecreasing(shorter) && ts[i - 1] <= ts[i] by {
        assert longer[i - 1] == ts[i - 1] && longer[i] == ts[i];
        assert forall k :: 0 <= k < i ==> shorter[k] == longer[k] == ts[k];
        if NonDecreasing(shorter) && ts[i - 1] <= ts[i] {
          assert forall k :: 0 <= k < i - 1 ==> shorter[k] <= shorter[i - 1];
        }
      }
    }
  }

  lemma {:induction false} AdmissionsSplit(capacity: real, credits: seq<real>, j: nat, m: nat, i: nat)
    requires j <= m <= i <= |credits|
    ensures Admissions(capacity, credits, j, i)
         == Admissions(capacity, credits, j, m) + Admissions(capacity, credits, m, i)
    decreases i
  {
    if m < i {
      AdmissionsSplit(capacity, credits, j, m, i - 1);
    }
  }

  lemma {:induction false} ClockGrows(ts: seq<Instant>, j: nat, i: nat)
    requires j <= i < |ts|
    ensures Clock(ts, j) <= Clock(ts, i)
    decreases i
  {
    if j < i {
      ClockGrows(ts, j, i - 1);
    }
  }

  /** If one token is refilled by call i, the limiter of capacity one admits two calls up to it. */
  lemma {:induction false} SecondAdmission(c: Config, ts: seq<Instant>, i: nat)
    requires c.capacity == 1.0 && c.refillPerSec >= 0.0 && 0 < i < |ts| && c.Refilled(Clock(ts, i)) == 1.0
    ensures Admissions(1.0, Credits(c, ts), 0, i + 1) >= 2
  {
    var cr := Credits(c, ts);
    assert Admissions(1.0, cr, 0, 1) == 1 by {
      assert Admissions(1.0, cr, 0, 0) == 0 && Admitted(1.0, cr, 0);
    }
    hide Config.Refilled, Credits, Level, Admissions;
    AdmissionsSplit(1.0, cr, 0, 1, i);
    if Admissions(1.0, cr, 1, i) == 0 {
      forall j | 0 <= j <= i ensures FitsSince(c, ts, j, i) {
        FitsAfterFirst(c, ts, j, i);
      }
      AdmissionIsExact(c, ts, i);
      assert Admitted(1.0, cr, i);
    }
    assert Admissions(1.0, cr, 0, i + 1) >= Admissions(1.0, cr, 0, i) + (if Admitted(1.0, cr, i) then 1 else 0) by {
      OneMore(1.0, cr, i);
    }
  }

  lemma {:induction false} OneMore(capacity: real, credits: seq<real>, i: nat)
    requires i < |credits|
    ensures Admissions(capacity, credits, 0, i + 1)
         == Admissions(capacity, credits, 0, i) + (if Admitted(capacity, credits, i) then 1 else 0)
  {
  }

  lemma {:induction false} FitsAfterFirst(c: Config, ts: seq<Instant>, j: nat, i: nat)
    requires c.capacity == 1.0 && c.refillPerSec >= 0.0 && 0 < i < |ts| && j <= i
    requires c.Refilled(Clock(ts, i)) == 1.0
    requires Admissions(1.0, Credits(c, ts), 0, 1) == 1 && Admissions(1.0, Credits(c, ts), 1, i) == 0
    ensures FitsSince(c, ts, j, i)
  {
    hide Config.Refilled, Credits, Level;
    var cr := Credits(c, ts);
    if j == 0 {
      AdmissionsSplit(1.0, cr, 0, 1, i);
      assert Clock(ts, i) - Clock(ts, 0) == Clock(ts, i);
    } else {
      AdmissionsSplit(1.0, cr, 1, j, i);
      ClockGrows(ts, j, i);
      RefillGrows(c, 0.0, Clock(ts, i) - Clock(ts, j));
      RefillAdds(c, 0.0, 0.0);
    }
  }

  /** A clock that steps back and returns breaks the bound: of the limiter of capacity one that refills one
      token over the time it sees. */
  lemma {:induction false} ReturnBreaksBound(ts: seq<Instant>, i: nat)
    requires i < |ts| && ts[0] <= ts[i] && StepsBack(ts, 0, i) > 0.0
    ensures Clock(ts, i) > 0.0 && !RealTimeBound(Config(1.0, 1.0 / Clock(ts, i)), ts, 0, i)
  {
    hide Admissions, Credits, Clock;
    ClockExceedsTime(ts, 0, i);
    assert Clock(ts, 0) == 0.0 by { ClockStarts(ts); }
    var seen, time := Clock(ts, i), ts[i] - ts[0];
    var c := Config(1.0, 1.0 / seen);
    assert c.Refilled(seen) == 1.0;
    RefillGrowsStrictly(c, time, seen);
    SecondAdmission(c, ts, i);
  }

  lemma {:induction false} ClockStarts(ts: seq<Instant>)
    requires ts != []
    ensures Clock(ts, 0) == 0.0
  {
  }

  lemma {:induction false} RefillGrowsStrictly(c: Config, x: real, y: real)
    requires c.refillPerSec > 0.0 && x < y
    ensures c.Refilled(x) < c.Refilled(y)
  {
    RefillAdds(c, y, x);
    assert (y - x) * c.refillPerSec > 0.0;
  }

  /** Over an interval that does not end before it starts, all limiters keep the real-time bound exactly when
      the clock never steps back in it; from a full bucket, and whatever was called before. */
  lemma {:induction false} BoundedExactlyOnSteadyClock(ts: seq<Instant>, i: nat)
    requires i < |ts| && ts[0] <= ts[i]
    ensures BoundedFromFull(ts, i) <==> NonDecreasing(ts[..i + 1])
    ensures BoundedAfterAny(ts, i) <==> NonDecreasing(ts[..i + 1])
  {
    hide RealTimeBound, NonDecreasing, StepsBack;
    NoStepsBack(ts, i);
    if StepsBack(ts, 0, i) == 0.0 {
      forall c: Config, past: seq<Instant> | Usable(c)
        ensures RealTimeBound(c, past + ts, |past|, |past| + i)
      {
        PastIsForgotten(past, ts, i);
        NoExcess(c, past + ts, |past|, |past| + i);
      }
      forall c: Config | Usable(c)
        ensures RealTimeBound(c, ts, 0, i)
      {
        NoExcess(c, ts, 0, i);
      }
    } else {
      ReturnBreaksBound(ts, i);
      var c := Config(1.0, 1.0 / Clock(ts, i));
      var none: seq<Instant> := [];
      assert Usable(c) && none + ts == ts;
      assert !RealTimeBound(c, none + ts, |none|, |none| + i);
    }
  }

  lemma {:induction false} NoExcess(c: Config, ts: seq<Instant>, j: nat, i: nat)
    requires Usable(c) && j <= i < |ts| && StepsBack(ts, j, i) == 0.0
    ensures RealTimeBound(c, ts, j, i)
  {
    hide Admissions, Credits, StepsBack;
    RealTimeExcess(c, ts, j, i);
    RefillAdds(c, 0.0, 0.0);
  }

  /** So an interval of no length can admit two where the capacity is one: the clock steps back by d and
      returns, and a refill that needs d seconds for a token gives one. */
  lemma {:induction false} ClockBackBreaksBound(t: Instant, d: real, rate: real)
    requires d > 0.0 && d * rate == 1.0
    ensures !RealTimeBound(Config(1.0, rate), [t, t - d, t], 0, 2)
  {
    var c, ts := Config(1.0, rate), [t, t - d, t];
    var cr := Credits(c, ts);
    assert c.Refilled(0.0) == 0.0 && c.Refilled(d) == 1.0;
    assert cr[1] == 0.0 && cr[2] == 1.0;
    assert Level(1.0, cr, 0) == 1.0 && Level(1.0, cr, 1) == 0.0 && Level(1.0, cr, 2) == 1.0;
    assert Admissions(1.0, cr, 0, 1) == 1 && Admissions(1.0, cr, 0, 2) == 1;
  }

  // ----- many addresses -----

  datatype Call = Call(ip: Ip, now: Instant)

  function Run(c: Config, calls: seq<Call>): map<Ip, Bucket> {
    if calls == [] then map[]
    else
      var n := |calls| - 1;
      c.After(Run(c, calls[..n]), calls[n].ip, calls[n].now)
  }

  /** The times of the calls of one address. */
  function TimesOf(calls: seq<Call>, ip: Ip): seq<Instant> {
    if calls == [] then []
    else
      var n := |calls| - 1;
      TimesOf(calls[..n], ip) + (if calls[n].ip == ip then [calls[n].now] else [])
  }

  lemma {:induction false} LevelOfPrefix(capacity: real, shorter: seq<real>, longer: seq<real>, i: nat)
    requires shorter <= longer && i < |shorter|
    ensures Level(capacity, longer, i) == Level(capacity, shorter, i)
  {
    if i > 0 {
      LevelOfPrefix(capacity, shorter, longer, i - 1);
    }
  }

  lemma {:induction false} CreditsGrow(c: Config, ts: seq<Instant>, now: Instant)
    ensures Credits(c, ts) <= Credits(c, ts + [now])
  {
    hide Config.Refilled;
  }

  lemma {:induction false} LastCredit(c: Config, ts: seq<Instant>, now: Instant)
    requires ts != []
    ensures Credits(c, ts + [now])[|ts|] == c.Credit(ts[|ts| - 1], now)
  {
    hide Config.Refilled;
  }

  /** The last level, with one more call. */
  lemma {:induction false} LevelAfterCall(c: Config, ts: seq<Instant>, now: Instant)
    requires ts != []
    ensures
      var n := |ts|;
      Level(c.capacity, Credits(c, ts + [now]), n)
        == Min(Left(Level(c.capacity, Credits(c, ts), n - 1)) + c.Credit(ts[n - 1], now), c.capacity)
  {
    CreditsGrow(c, ts, now);
    LastCredit(c, ts, now);
    LevelOfPrefix(c.capacity, Credits(c, ts), Credits(c, ts + [now]), |ts| - 1);
    hide Config.Credit, Credits, Left;
  }

  /** Whatever other addresses do in between, the bucket of an address holds what its own calls left. */
  lemma {:induction false} AddressesAreIndependent(c: Config, calls: seq<Call>, ip: Ip)
    ensures
      var ts := TimesOf(calls, ip);
      && (ip in Run(c, calls) <==> ts != [])
      && (ts != [] ==>
            Run(c, calls)[ip] == Bucket(Left(Level(c.capacity, Credits(c, ts), |ts| - 1)), ts[|ts| - 1]))
  {
    hide Config.Refilled, Config.Seen, Level, Credits;
    if calls != [] {
      var n := |calls| - 1;
      var ts, now := TimesOf(calls[..n], ip), calls[n].now;
      AddressesAreIndependent(c, calls[..n], ip);
      if calls[n].ip == ip {
        SeenIsLevel(c, calls[..n], ip, now);
        assert TimesOf(calls, ip) == ts + [now];
        assert Run(c, calls)[ip] == c.Take(c.Seen(Run(c, calls[..n]), ip, now));
        assert |ts + [now]| - 1 == |ts| && (ts + [now])[|ts|] == now;
      } else {
        assert TimesOf(calls, ip) == ts;
      }
    }
  }

  lemma {:induction false} SeenIsLevel(c: Config, calls: seq<Call>, ip: Ip, now: Instant)
    requires
      var ts := TimesOf(calls, ip);
      && (ip in Run(c, calls) <==> ts != [])
      && (ts != [] ==>
            Run(c, calls)[ip] == Bucket(Left(Level(c.capacity, Credits(c, ts), |ts| - 1)), ts[|ts| - 1]))
    ensures
      var ts := TimesOf(calls, ip);
      c.Seen(Run(c, calls), ip, now) == Bucket(Level(c.capacity, Credits(c, ts + [now]), |ts|), now)
  {
    hide Config.Refilled, Level, Credits, Run, TimesOf, Left;
    var ts := TimesOf(calls, ip);
    if ts != [] {
      LevelAfterCall(c, ts, now);
    } else {
      FirstLevel(c, now);
      RefillAdds(c, 0.0, 0.0);
    }
  }

  lemma {:induction false} FirstLevel(c: Config, now: Instant)
    ensures Level(c.capacity, Credits(c, [] + [now]), 0) == c.capacity
  {
  }

  /** So a check is decided by the address's own calls alone. */
  lemma {:induction false} CheckDependsOnOwnCalls(c: Config, calls: seq<Call>, ip: Ip, now: Instant)
    ensures
      var ts := TimesOf(calls, ip);
      c.Seen(Run(c, calls), ip, now).tokens >= 1.0 <==> Admitted(c.capacity, Credits(c, ts + [now]), |ts|)
  {
    hide Config.Refilled;
    AddressesAreIndependent(c, calls, ip);
    SeenIsLevel(c, calls, ip, now);
  }
}

module FixedWindow {
  import opened Wrappers

  type Instant = real

  /** A key of the store: `ratelimit:{key}:{window_secs}`. */
  datatype Key = Key(name: string, windowSecs: nat)

  datatype Counter = Counter(count: nat, expiresAt: Option<Instant>)
  {
    /** Whether the store drops a key at its expiry instant or only after it is its own choice. */
    predicate Gone(now: Instant, strict: bool) {
      expiresAt.Some? && (if strict then now > expiresAt.value else now >= expiresAt.value)
    }
  }

  /** The counter is read as a 32-bit number; a larger one is an error like any other. */
  const MAX_COUNT := 0xFFFF_FFFF

  predicate Passes(count: nat, maxRequests: nat) {
    count > MAX_COUNT || count <= maxRequests
  }

  /** `IncrUnacknowledged`: the store counts, and its reply is lost. */
  datatype Fault = NoFault | NoConnection | IncrFails | IncrUnacknowledged | ExpireFails
  {
    predicate FailsOpen() { NoConnection? || IncrFails? || IncrUnacknowledged? }

    /** No EXPIRE reaches the store. */
    predicate LosesExpire() { IncrUnacknowledged? || ExpireFails? }
  }

  function Current(c: Option<Counter>, now: Instant, strict: bool): Option<Counter> {
    if c.Some? && c.value.Gone(now, strict) then None else c
  }

  function Incr(c: Option<Counter>, now: Instant, strict: bool): Counter {
    match Current(c, now, strict)
    case None => Counter(1, None)
    case Some(k) => k.(count := k.count + 1)
  }

  /** The counter of a key after one check. */
  function Checked(c: Option<Counter>, window: nat, now: Instant, strict: bool, fault: Fault): Option<Counter> {
    if fault.NoConnection? || fault.IncrFails? then c
    else
      var k := Incr(c, now, strict);
      if k.count != 1 || fault.LosesExpire() then Some(k)
      else if window == 0 then None // an EXPIRE of zero seconds deletes the key
      else Some(k.(expiresAt := Some(now + window as real)))
  }

  class RedisRateLimiter {
    const strict: bool
    var store: map<Key, Counter>

    constructor (strict: bool)
      ensures this.strict == strict && store == map[]
    {
      this.strict, store := strict, map[];
    }

    function Get(key: Key): Option<Counter>
      reads this
    {
      if key in store then Some(store[key]) else None
    }

    /** Fails open; a lost EXPIRE is ignored. */
    method Check(name: string, maxRequests: nat, windowSecs: nat, now: Instant, fault: Fault) returns (allowed: bool)
      modifies this`store
      ensures allowed <==>
        || fault.FailsOpen()
        || Passes(Incr(old(Get(Key(name, windowSecs))), now, strict).count, maxRequests)
      ensures Get(Key(name, windowSecs)) == Checked(old(Get(Key(name, windowSecs))), windowSecs, now, strict, fault)
      ensures forall k :: k != Key(name, windowSecs) ==> Get(k) == old(Get(k))
      ensures
        var was := old(Get(Key(name, windowSecs)));
        var left := Get(Key(name, windowSecs));
        var kept := was.Some? && (was.value.expiresAt.None? ||
                                  now < was.value.expiresAt.value || (strict && now == was.value.expiresAt.value));
        var count := if kept then was.value.count + 1 else 1;
        var expiry := if kept then was.value.expiresAt else None;
        && (allowed <==>
              fault in {NoConnection, IncrFails, IncrUnacknowledged} || count > 4_294_967_295 || count <= maxRequests)
        && left == (if fault in {NoConnection, IncrFails} then was
                    else if count > 1 || fault in {IncrUnacknowledged, ExpireFails} then Some(Counter(count, expiry))
                    else if windowSecs == 0 then None
                    else Some(Counter(1, Some(now + windowSecs as real))))
    {
      if fault.NoConnection? {
        return true;
      }
      var key := Key(name, windowSecs);
      if fault.IncrFails? {
        return true;
      }
      var c := Incr(Get(key), now, strict);
      store := store[key := c];
      if fault.IncrUnacknowledged? || c.count > MAX_COUNT {
        return true;
      }
      if c.count == 1 {
        if !fault.ExpireFails? {
          if windowSecs == 0 {
            store := store - {key};
          } else {
            store := store[key := c.(expiresAt := Some(now + windowSecs as real))];
          }
        }
      }
      return c.count <= maxRequests;
    }
  }

  // ----- one key, without faults -----

  datatype Rule = Rule(max: nat, window: nat, strict: bool)

  /** The stored counter before check i, when the checks of a fresh key come at times `ts`. */
  function Stored(r: Rule, ts: seq<Instant>, i: nat): Option<Counter>
    requires i <= |ts|
  {
    if i == 0 then None else Checked(Stored(r, ts, i - 1), r.window, ts[i - 1], r.strict, NoFault)
  }

  /** The check finds its count within the maximum. */
  predicate Admitted(r: Rule, ts: seq<Instant>, i: nat)
    requires i < |ts|
  {
    Incr(Stored(r, ts, i), ts[i], r.strict).count <= r.max
  }

  lemma {:induction false} CountIsSmall(r: Rule, ts: seq<Instant>, i: nat)
    requires i <= |ts|
    ensures Stored(r, ts, i).Some? ==> Stored(r, ts, i).value.count <= i
  {
    if i > 0 {
      CountIsSmall(r, ts, i - 1);
    }
  }

  /** That is the answer of the check, unless more than 32 bits of checks come first. */
  lemma {:induction false} AnswerIsAdmitted(r: Rule, ts: seq<Instant>, i: nat)
    requires i < |ts| && i < 4_294_967_295
    ensures
      var count := Incr(Stored(r, ts, i), ts[i], r.strict).count;
      && (Passes(count, r.max) <==> Admitted(r, ts, i))
      && (count > 4_294_967_295 || count <= r.max <==> Admitted(r, ts, i))
  {
    CountIsSmall(r, ts, i);
  }

  function Admissions(r: Rule, ts: seq<Instant>, j: nat, i: nat): (n: nat)
    requires j <= i <= |ts|
    ensures n <= i - j
    decreases i
  {
    if i == j then 0 else Admissions(r, ts, j, i - 1) + (if Admitted(r, ts, i - 1) then 1 else 0)
  }

  predicate Over(r: Rule, since: Instant, now: Instant) {
    Counter(1, Some(since + r.window as real)).Gone(now, r.strict)
  }

  /** The check that opened the window check i falls in. */
  function Opening(r: Rule, ts: seq<Instant>, i: nat): (o: nat)
    requires i < |ts|
    ensures o <= i
  {
    if i == 0 then 0
    else if Over(r, ts[Opening(r, ts, i - 1)], ts[i]) then i
    else Opening(r, ts, i - 1)
  }

  /** The counter counts the checks since the window opened. */
  lemma {:induction false} CounterOfWindow(r: Rule, ts: seq<Instant>, i: nat)
    requires i < |ts| && r.window > 0
    ensures Incr(Stored(r, ts, i), ts[i], r.strict).count == i - Opening(r, ts, i) + 1
    ensures Stored(r, ts, i + 1) ==
      Some(Counter(i - Opening(r, ts, i) + 1, Some(ts[Opening(r, ts, i)] + r.window as real)))
  {
    if i > 0 {
      CounterOfWindow(r, ts, i - 1);
    }
  }

  lemma {:induction false} OpeningOfEarlier(r: Rule, ts: seq<Instant>, j: nat, i: nat)
    requires j <= i < |ts| && Opening(r, ts, i) <= j
    ensures Opening(r, ts, j) == Opening(r, ts, i)
    decreases i
  {
    if j < i {
      OpeningOfEarlier(r, ts, j, i - 1);
    }
  }

  /** A window admits at most its first `max` checks. */
  lemma {:induction false} WindowAdmits(r: Rule, ts: seq<Instant>, j: nat, i: nat)
    requires j <= i < |ts| && Opening(r, ts, i) <= j && r.window > 0
    ensures Admissions(r, ts, j, i + 1) <= if j < Opening(r, ts, i) + r.max then Opening(r, ts, i) + r.max - j else 0
    decreases i
  {
    CounterOfWindow(r, ts, i);
    if j < i {
      OpeningOfEarlier(r, ts, i - 1, i);
      WindowAdmits(r, ts, j, i - 1);
    } else {
      assert Admissions(r, ts, j, j) == 0;
    }
  }

  ghost predicate NonDecreasing(ts: seq<Instant>) {
    forall i, j :: 0 <= i < j < |ts| ==> ts[i] <= ts[j]
  }

  lemma {:induction false} AdmissionsSplit(r: Rule, ts: seq<Instant>, j: nat, m: nat, i: nat)
    requires j <= m <= i <= |ts|
    ensures Admissions(r, ts, j, i) == Admissions(r, ts, j, m) + Admissions(r, ts, m, i)
    decreases i
  {
    if m < i {
      AdmissionsSplit(r, ts, j, m, i - 1);
    }
  }

  lemma {:induction false} OpensAtItself(r: Rule, ts: seq<Instant>, i: nat)
    requires i < |ts|
    ensures Opening(r, ts, Opening(r, ts, i)) == Opening(r, ts, i)
  {
    OpeningOfEarlier(r, ts, Opening(r, ts, i), i);
  }

  lemma {:induction false} StillOpen(r: Rule, ts: seq<Instant>, i: nat)
    requires i < |ts| && Opening(r, ts, i) < i
    ensures !Over(r, ts[Opening(r, ts, i)], ts[i])
  {
    OpeningOfEarlier(r, ts, i - 1, i);
  }

  /** A check before an opening is strictly earlier. */
  lemma {:induction false} EarlierThanOpening(r: Rule, ts: seq<Instant>, j: nat, p: nat)
    requires NonDecreasing(ts) && j < p < |ts| && Opening(r, ts, p) == p && r.window > 0
    ensures ts[j] < ts[p]
  {
    var q := Opening(r, ts, p - 1);
    assert Over(r, ts[q], ts[p]);
    if q < j {
      OpeningOfEarlier(r, ts, j, p - 1);
      StillOpen(r, ts, j);
    }
  }

  /** An interval no longer than the window meets at most two windows. */
  lemma {:induction false} AtMostTwoWindows(r: Rule, ts: seq<Instant>, j: nat, i: nat)
    requires NonDecreasing(ts) && j <= i < |ts| && ts[i] - ts[j] <= r.window as real
    requires r.window > 0
    requires Opening(r, ts, i) > j
    ensures Opening(r, ts, Opening(r, ts, i) - 1) <= j
  {
    var o := Opening(r, ts, i);
    var p := Opening(r, ts, o - 1);
    OpensAtItself(r, ts, i);
    assert Over(r, ts[p], ts[o]);
    if p > j && !r.strict {
      OpensAtItself(r, ts, o - 1);
      EarlierThanOpening(r, ts, j, p);
    }
  }

  lemma {:induction false} TwoWindowsAdmit(r: Rule, ts: seq<Instant>, j: nat, o: nat, i: nat)
    requires j < o <= i < |ts| && Opening(r, ts, i) == o && Opening(r, ts, o - 1) <= j && r.window > 0
    ensures Admissions(r, ts, j, i + 1) <= 2 * r.max
  {
    hide Opening, Admitted;
    WindowAdmits(r, ts, o, i);
    WindowAdmits(r, ts, j, o - 1);
    AdmissionsSplit(r, ts, j, o, i + 1);
  }

  /** Any interval as long as the window admits at most twice the maximum. */
  lemma {:induction false} TwiceTheMaximum(r: Rule, ts: seq<Instant>, j: nat, i: nat)
    requires NonDecreasing(ts) && j <= i < |ts| && ts[i] - ts[j] <= r.window as real
    requires r.window > 0
    ensures Admissions(r, ts, j, i + 1) <= 2 * r.max
  {
    hide Admissions;
    if Opening(r, ts, i) <= j {
      WindowAdmits(r, ts, j, i);
    } else {
      AtMostTwoWindows(r, ts, j, i);
      TwoWindowsAdmit(r, ts, j, Opening(r, ts, i), i);
    }
  }

  /** A window of zero seconds limits nothing: its EXPIRE deletes the key. */
  lemma {:induction false} ZeroWindowLimitsNothing(r: Rule, ts: seq<Instant>, i: nat)
    requires r.max > 0 && r.window == 0 && i <= |ts|
    ensures Stored(r, ts, i) == None && Admissions(r, ts, 0, i) == i
  {
    if i > 0 {
      ZeroWindowLimitsNothing(r, ts, i - 1);
    }
  }

  lemma {:induction false} ZeroMaximumAdmitsNothing(r: Rule, ts: seq<Instant>, j: nat, i: nat)
    requires r.max == 0 && j <= i <= |ts|
    ensures Admissions(r, ts, j, i) == 0
    decreases i
  {
    if j < i {
      ZeroMaximumAdmitsNothing(r, ts, j, i - 1);
    }
  }

  /** No interval as long as the window admits more than twice the maximum. */
  ghost predicate TwiceBounded(r: Rule) {
    forall ts: seq<Instant>, j: nat, i: nat ::
      NonDecreasing(ts) && j <= i < |ts| && ts[i] - ts[j] <= r.window as real ==>
      Admissions(r, ts, j, i + 1) <= 2 * r.max
  }

  /** Which settings keep the bound: all but a window of zero seconds with a positive maximum. */
  lemma {:induction false} TwiceBoundedExactly(r: Rule)
    ensures TwiceBounded(r) <==> r.window > 0 || r.max == 0
  {
    hide Admissions;
    if r.window > 0 || r.max == 0 {
      forall ts: seq<Instant>, j: nat, i: nat |
        NonDecreasing(ts) && j <= i < |ts| && ts[i] - ts[j] <= r.window as real
        ensures Admissions(r, ts, j, i + 1) <= 2 * r.max
      {
        if r.window > 0 {
          TwiceTheMaximum(r, ts, j, i);
        } else {
          ZeroMaximumAdmitsNothing(r, ts, j, i + 1);
        }
      }
    } else {
      var ts, i := seq(2 * r.max + 1, _ => 0.0), 2 * r.max;
      ZeroWindowLimitsNothing(r, ts, i + 1);
      assert NonDecreasing(ts) && ts[i] - ts[0] <= r.window as real;
      assert Admissions(r, ts, 0, i + 1) > 2 * r.max;
    }
  }

  // ----- what a sliding window would promise -----

  /** No interval shorter than the window admits more than the maximum. */
  ghost predicate SlidingWindow(r: Rule) {
    forall ts: seq<Instant>, j: nat, i: nat ::
      NonDecreasing(ts) && j <= i < |ts| && ts[i] - ts[j] < r.window as real ==>
      Admissions(r, ts, j, i + 1) <= r.max
  }

  /** With a maximum of at most one, two admissions are two openings, a window apart. */
  lemma {:induction false} AtMostOneSlides(r: Rule, ts: seq<Instant>, j: nat, i: nat)
    requires r.window > 0 && r.max <= 1
    requires NonDecreasing(ts) && j <= i < |ts| && ts[i] - ts[j] < r.window as real
    ensures Admissions(r, ts, j, i + 1) <= r.max
  {
    hide Admissions;
    var o := Opening(r, ts, i);
    if o <= j {
      WindowAdmits(r, ts, j, i);
    } else {
      var p := Opening(r, ts, o - 1);
      AtMostTwoWindows(r, ts, j, i);
      OpensAtItself(r, ts, i);
      assert Over(r, ts[p], ts[o]);
      WindowAdmits(r, ts, o, i);
      WindowAdmits(r, ts, j, o - 1);
      AdmissionsSplit(r, ts, j, o, i + 1);
    }
  }

  /** One check at 0, the rest of the maximum after three quarters of the window, and a full maximum after
      five quarters. */
  function Burst(r: Rule): (ts: seq<Instant>)
    requires r.max >= 2
    ensures |ts| == 2 * r.max
  {
    var w := r.window as real;
    seq(2 * r.max, k => if k == 0 then 0.0 else if k < r.max then 0.75 * w else 1.25 * w)
  }

  lemma {:induction false} BurstOpenings(r: Rule, k: nat)
    requires r.max >= 2 && r.window > 0 && k < 2 * r.max
    ensures Opening(r, Burst(r), k) == if k < r.max then 0 else r.max
  {
    if k > 0 {
      BurstOpenings(r, k - 1);
    }
  }

  lemma {:induction false} BurstPasses(r: Rule, i: nat)
    requires r.max >= 2 && r.window > 0 && 1 <= i <= 2 * r.max
    ensures Admissions(r, Burst(r), 1, i) == i - 1
    decreases i
  {
    if i > 1 {
      BurstPasses(r, i - 1);
      BurstOpenings(r, i - 1);
      CounterOfWindow(r, Burst(r), i - 1);
    }
  }

  /** Half a window then sees one request less than twice the maximum. */
  lemma {:induction false} BurstExceeds(r: Rule)
    requires r.max >= 2 && r.window > 0
    ensures
      var ts := Burst(r);
      && NonDecreasing(ts) && ts[2 * r.max - 1] - ts[1] == 0.5 * r.window as real
      && Admissions(r, ts, 1, 2 * r.max) == 2 * r.max - 1
  {
    hide Admissions;
    BurstPasses(r, 2 * r.max);
  }

  /** The limiter is a sliding window exactly when the maximum is at most one. */
  lemma {:induction false} SlidingWindowExactly(r: Rule)
    requires r.window > 0
    ensures SlidingWindow(r) <==> r.max <= 1
  {
    hide Admissions, Burst;
    if r.max <= 1 {
      forall ts: seq<Instant>, j: nat, i: nat |
        NonDecreasing(ts) && j <= i < |ts| && ts[i] - ts[j] < r.window as real
        ensures Admissions(r, ts, j, i + 1) <= r.max
      {
        AtMostOneSlides(r, ts, j, i);
      }
    } else {
      BurstExceeds(r);
      assert Admissions(r, Burst(r), 1, (2 * r.max - 1) + 1) > r.max;
    }
  }

  // ----- a lost EXPIRE -----

  datatype Attempt = Attempt(now: Instant, fault: Fault)
  {
    predicate Counted() { !fault.NoConnection? && !fault.IncrFails? }
  }

  /** The counter after some checks, with whatever faults. */
  function After(c: Option<Counter>, r: Rule, checks: seq<Attempt>): Option<Counter>
    decreases |checks|
  {
    if checks == [] then c
    else After(Checked(c, r.window, checks[0].now, r.strict, checks[0].fault), r, checks[1..])
  }

  /** How many of the checks that reach the counter find it within the maximum; others fail open. */
  function AdmittedFrom(c: Option<Counter>, r: Rule, checks: seq<Attempt>): nat
    decreases |checks|
  {
    if checks == [] then 0
    else
      (if !checks[0].fault.FailsOpen() && Incr(c, checks[0].now, r.strict).count <= r.max then 1 else 0)
      + AdmittedFrom(Checked(c, r.window, checks[0].now, r.strict, checks[0].fault), r, checks[1..])
  }

  /** The check that finds no counter leaves one without expiry exactly when no EXPIRE follows its INCR. */
  lemma {:induction false} OpeningCheck(c: Option<Counter>, r: Rule, a: Attempt)
    requires Current(c, a.now, r.strict).None? && a.Counted()
    ensures
      var c' := Checked(c, r.window, a.now, r.strict, a.fault);
      if a.fault.LosesExpire() then c' == Some(Counter(1, None))
      else c'.Some? ==> c'.value.count == 1 && c'.value.expiresAt.Some?
  {
  }

  /** Without an expiry the counter only grows, whatever faults follow, and at most the rest of the
      maximum passes it. */
  lemma {:induction false} LostExpire(c: Counter, r: Rule, checks: seq<Attempt>)
    requires c.expiresAt.None? && c.count >= 1
    ensures AdmittedFrom(Some(c), r, checks) <= if c.count < r.max then r.max - c.count else 0
    ensures After(Some(c), r, checks).Some?
    ensures
      var c' := After(Some(c), r, checks).value;
      c'.expiresAt.None? && c'.count >= c.count
    decreases |checks|
  {
    if checks != [] {
      var next := Checked(Some(c), r.window, checks[0].now, r.strict, checks[0].fault);
      LostExpire(next.value, r, checks[1..]);
    }
  }

  ghost predicate InOrder(checks: seq<Attempt>) {
    forall i, j :: 0 <= i < j < |checks| ==> checks[i].now <= checks[j].now
  }

  /** Without a counter or with an expiry, any number of checks passes if each comes late enough. */
  lemma {:induction false} EveryWindowAnew(c: Option<Counter>, r: Rule, from: Instant, n: nat)
    returns (checks: seq<Attempt>)
    requires (c.Some? ==> c.value.expiresAt.Some?) && r.max > 0
    ensures |checks| == n && InOrder(checks) && AdmittedFrom(c, r, checks) == n
    ensures forall k :: 0 <= k < n ==> from <= checks[k].now
    decreases n
  {
    if n == 0 {
      checks := [];
    } else {
      var now := if c.Some? && from <= c.value.expiresAt.value then c.value.expiresAt.value + 1.0 else from;
      var next := Checked(c, r.window, now, r.strict, NoFault);
      assert Current(c, now, r.strict).None?;
      var rest := EveryWindowAnew(next, r, now, n - 1);
      checks := [Attempt(now, NoFault)] + rest;
      assert checks[1..] == rest;
    }
  }

  /** Some later checks, and the next one finds the key gone and starts to count anew. */
  ghost predicate Restarts(c: Option<Counter>, r: Rule) {
    exists checks, now :: Incr(After(c, r, checks), now, r.strict).count == 1
  }

  /** Some later checks pass the counter more often than the maximum. */
  ghost predicate AdmitsAgain(c: Option<Counter>, r: Rule) {
    exists checks :: InOrder(checks) && AdmittedFrom(c, r, checks) > r.max
  }

  /** A counter ever starts anew exactly when it has an expiry. */
  lemma {:induction false} RestartsExactly(c: Counter, r: Rule)
    requires c.count >= 1
    ensures Restarts(Some(c), r) <==> c.expiresAt.Some?
  {
    if c.expiresAt.Some? {
      assert After(Some(c), r, []) == Some(c);
      assert Incr(After(Some(c), r, []), c.expiresAt.value + 1.0, r.strict).count == 1;
    } else {
      forall checks, now
        ensures Incr(After(Some(c), r, checks), now, r.strict).count != 1
      {
        LostExpire(c, r, checks);
      }
    }
  }

  /** And a positive maximum is ever passed again exactly then. */
  lemma {:induction false} BlockedExactly(c: Counter, r: Rule)
    requires c.count >= 1 && r.max > 0
    ensures AdmitsAgain(Some(c), r) <==> c.expiresAt.Some?
  {
    if c.expiresAt.Some? {
      var checks := EveryWindowAnew(Some(c), r, 0.0, r.max + 1);
    } else {
      forall checks
        ensures AdmittedFrom(Some(c), r, checks) <= r.max
      {
        LostExpire(c, r, checks);
      }
    }
  }

  /** So one lost EXPIRE decides: a key is blocked for good exactly when the check that opens it loses the
      reply to its INCR, and sends no EXPIRE, or loses the EXPIRE itself. */
  lemma {:induction false} LostExpireBlocksExactly(c: Option<Counter>, r: Rule, a: Attempt)
    requires Current(c, a.now, r.strict).None? && a.Counted() && r.max > 0
    ensures !AdmitsAgain(Checked(c, r.window, a.now, r.strict, a.fault), r)
      <==> a.fault.IncrUnacknowledged? || a.fault.ExpireFails?
  {
    var c' := Checked(c, r.window, a.now, r.strict, a.fault);
    OpeningCheck(c, r, a);
    if c'.Some? {
      BlockedExactly(c'.value, r);
    } else {
      var checks := EveryWindowAnew(c', r, 0.0, r.max + 1);
    }
  }
}
