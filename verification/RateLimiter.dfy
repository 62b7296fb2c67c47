/** Per-IP token buckets: what a run of calls admits, and when dropping idle buckets goes unnoticed. */
module RateLimiter {
  import opened Bytes

  type Ip = bytes
  datatype Bucket = Bucket(tokens: real, lastTime: real)
  type Buckets = map<Ip, Bucket>

  /** Tokens per second and bucket size; times are in seconds. */
  datatype Limits = Limits(rate: real, burst: real) {
    predicate Sound() { rate > 0.0 && burst >= 1.0 }
  }

  function NewLimits(queriesPerSecond: int): (l: Limits)
    ensures l.Sound() && l.rate == l.burst && (queriesPerSecond >= 1 ==> l.rate == queriesPerSecond as real)
  {
    var q := Max(queriesPerSecond, 1);
    Limits(q as real, q as real)
  }

  // ----- one call

  function MinReal(a: real, b: real): real { if a < b then a else b }

  /** Tokens that flow in over a time span. */
  function Refill(l: Limits, span: real): real { span * l.rate }

  lemma RefillLaws(l: Limits, a: real, b: real)
    requires l.Sound()
    ensures Refill(l, a + b) == Refill(l, a) + Refill(l, b)
    ensures a <= b ==> Refill(l, a) <= Refill(l, b)
    ensures Refill(l, 0.0) == 0.0
  {
    assert (a + b) * l.rate == a * l.rate + b * l.rate;
    assert b * l.rate == a * l.rate + (b - a) * l.rate;
  }

  /** Tokens a call at `now` finds: refilled up to the burst, or a full new bucket. */
  function Available(l: Limits, bs: Buckets, ip: Ip, now: real): real {
    if ip in bs then MinReal(l.burst, bs[ip].tokens + Refill(l, now - bs[ip].lastTime)) else l.burst
  }

  function AllowStep(l: Limits, bs: Buckets, ip: Ip, now: real): (Buckets, bool) {
    var tokens := Available(l, bs, ip, now);
    if tokens < 1.0 then (bs[ip := Bucket(tokens, now)], false)
    else (bs[ip := Bucket(tokens - 1.0, now)], true)
  }

  function CleanupStep(bs: Buckets, idle: real, now: real): Buckets {
    map ip | ip in bs && !(bs[ip].lastTime < now - idle) :: bs[ip]
  }

  class Limiter {
    const limits: Limits
    var buckets: Buckets

    constructor (queriesPerSecond: int)
      ensures limits == NewLimits(queriesPerSecond) && buckets == map[]
    {
      limits := NewLimits(queriesPerSecond);
      buckets := map[];
    }

    method Allow(ip: Ip, now: real) returns (admitted: bool)
      modifies this
      ensures (buckets, admitted) == AllowStep(limits, old(buckets), ip, now)
    {
      var tokens := limits.burst;
      if ip in buckets {
        var elapsed := now - buckets[ip].lastTime;
        tokens := buckets[ip].tokens + Refill(limits, elapsed);
        if tokens > limits.burst {
          tokens := limits.burst;
        }
      }
      assert tokens == Available(limits, buckets, ip, now);
      buckets := buckets[ip := Bucket(tokens, now)];
      if tokens < 1.0 {
        return false;
      }
      buckets := buckets[ip := Bucket(tokens - 1.0, now)];
      assert buckets == old(buckets)[ip := Bucket(tokens - 1.0, now)];
      admitted := true;
    }

    method Cleanup(idle: real, now: real)
      modifies this
      ensures buckets == CleanupStep(old(buckets), idle, now)
    {
      var cutoff := now - idle;
      var rest := buckets.Keys;
      while rest != {}
        invariant rest <= buckets.Keys <= old(buckets).Keys
        invariant forall ip <- buckets :: buckets[ip] == old(buckets)[ip]
        invariant forall ip <- old(buckets) :: ip in buckets <==> ip in rest || !(old(buckets)[ip].lastTime < cutoff)
        decreases rest
      {
        var ip :| ip in rest;
        rest := rest - {ip};
        if buckets[ip].lastTime < cutoff {
          buckets := map k | k in buckets && k != ip :: buckets[k];
        }
      }
    }
  }

  // ----- runs

  datatype Event = Allow(ip: Ip, time: real) | Cleanup(idle: real, time: real)

  predicate Ordered(es: seq<Event>) {
    forall i, j | 0 <= i < j < |es| :: es[i].time <= es[j].time
  }

  predicate Call(es: seq<Event>, i: int, ip: Ip) {
    0 <= i < |es| && es[i].Allow? && es[i].ip == ip
  }

  function Step(l: Limits, bs: Buckets, e: Event): Buckets {
    match e
    case Allow(ip, time) => AllowStep(l, bs, ip, time).0
    case Cleanup(idle, time) => CleanupStep(bs, idle, time)
  }

  /** The buckets before event j. */
  function After(l: Limits, es: seq<Event>, j: nat): Buckets
    requires j <= |es|
  {
    if j == 0 then map[] else Step(l, After(l, es, j - 1), es[j - 1])
  }

  /** The answer to call j of a run. */
  predicate Admitted(l: Limits, es: seq<Event>, j: int)
    requires 0 <= j < |es| && es[j].Allow?
  {
    AllowStep(l, After(l, es, j), es[j].ip, es[j].time).1
  }

  /** How many of the calls from `ip` among events i..j-1 were admitted. */
  function Count(l: Limits, es: seq<Event>, ip: Ip, i: nat, j: nat): nat
    requires i <= j <= |es|
    decreases j
  {
    if i == j then 0
    else Count(l, es, ip, i, j - 1) + (if Call(es, j - 1, ip) && Admitted(l, es, j - 1) then 1 else 0)
  }

  /** Cleanups never drop a bucket that could still be refilling. */
  predicate PatientCleanups(l: Limits, es: seq<Event>) {
    forall i | 0 <= i < |es| && es[i].Cleanup? :: Refill(l, es[i].idle) >= l.burst
  }

  // ----- buckets stay within bounds and remember the last call

  /** Call i is the last one of the IP before event j. */
  predicate LastCall(es: seq<Event>, i: nat, j: nat, ip: Ip) {
    i < j && Call(es, i, ip) && forall k | i < k < j :: !Call(es, k, ip)
  }

  ghost predicate BucketOk(l: Limits, es: seq<Event>, j: nat, ip: Ip, b: Bucket) {
    0.0 <= b.tokens <= l.burst && exists i: nat :: LastCall(es, i, j, ip) && es[i].time == b.lastTime
  }

  lemma CallBounds(l: Limits, bs: Buckets, ip: Ip, now: real)
    requires l.Sound() && (ip in bs ==> 0.0 <= bs[ip].tokens <= l.burst && bs[ip].lastTime <= now)
    ensures 0.0 <= Available(l, bs, ip, now) <= l.burst
    ensures var b := AllowStep(l, bs, ip, now).0[ip];
            0.0 <= b.tokens <= l.burst && b.lastTime == now
  {
    hide Refill;
    if ip in bs {
      RefillLaws(l, 0.0, now - bs[ip].lastTime);
    }
  }

  lemma {:induction false} BucketBounds(l: Limits, es: seq<Event>, j: nat, ip: Ip)
    requires l.Sound() && Ordered(es) && j <= |es|
    ensures ip in After(l, es, j) ==> BucketOk(l, es, j, ip, After(l, es, j)[ip])
  {
    if j > 0 {
      hide Available, Refill;
      BucketBounds(l, es, j - 1, ip);
      var bs, e := After(l, es, j - 1), es[j - 1];
      if Call(es, j - 1, ip) {
        CallBounds(l, bs, ip, e.time);
        assert LastCall(es, j - 1, j, ip);
      } else if ip in bs {
        var i: nat :| LastCall(es, i, j - 1, ip) && es[i].time == bs[ip].lastTime;
        assert LastCall(es, i, j, ip);
      }
    }
  }

  // ----- what a call finds, in terms of the admitted calls before it

  /** The tokens one window leaves: the burst, plus the refill since event i, minus what was admitted since. */
  function Left(l: Limits, es: seq<Event>, ip: Ip, i: nat, j: nat, now: real): real
    requires i < j <= |es|
  {
    l.burst + Refill(l, now - es[i].time) - Count(l, es, ip, i, j) as real
  }

  ghost predicate Tight(l: Limits, es: seq<Event>, ip: Ip, j: nat, now: real, a: real)
    requires j <= |es|
  {
    && a <= l.burst
    && (forall i | 0 <= i < j && Call(es, i, ip) :: a <= Left(l, es, ip, i, j, now))
    && (a == l.burst || exists i :: 0 <= i < j && Call(es, i, ip) && a == Left(l, es, ip, i, j, now))
  }

  function One(l: Limits, es: seq<Event>, j: nat): real
    requires j < |es| && es[j].Allow?
  {
    if Admitted(l, es, j) then 1.0 else 0.0
  }

  lemma LeftStep(l: Limits, es: seq<Event>, ip: Ip, i: nat, j: nat, now: real)
    requires l.Sound() && i < j < |es| && Call(es, j, ip)
    ensures Left(l, es, ip, i, j + 1, now)
            == Left(l, es, ip, i, j, es[j].time) + Refill(l, now - es[j].time) - One(l, es, j)
  {
    hide Admitted, Refill;
    RefillLaws(l, es[j].time - es[i].time, now - es[j].time);
  }

  lemma LeftNow(l: Limits, es: seq<Event>, ip: Ip, j: nat, now: real)
    requires j < |es| && Call(es, j, ip)
    ensures Left(l, es, ip, j, j + 1, now) == l.burst + Refill(l, now - es[j].time) - One(l, es, j)
  {
    hide Admitted, Refill;
    assert Count(l, es, ip, j, j) == 0;
  }

  lemma CallStep(l: Limits, es: seq<Event>, ip: Ip, j: nat, now: real, a: real)
    requires l.Sound() && j < |es| && Call(es, j, ip) && es[j].time <= now
    requires Tight(l, es, ip, j, es[j].time, a)
    ensures Tight(l, es, ip, j + 1, now, MinReal(l.burst, a - One(l, es, j) + Refill(l, now - es[j].time)))
  {
    hide One, Left, Refill;
    var a' := MinReal(l.burst, a - One(l, es, j) + Refill(l, now - es[j].time));
    LeftNow(l, es, ip, j, now);
    forall i | 0 <= i < j + 1 && Call(es, i, ip) ensures a' <= Left(l, es, ip, i, j + 1, now) {
      if i < j {
        LeftStep(l, es, ip, i, j, now);
      }
    }
    if a' != l.burst && a != l.burst {
      var i :| 0 <= i < j && Call(es, i, ip) && a == Left(l, es, ip, i, j, es[j].time);
      LeftStep(l, es, ip, i, j, now);
      assert a' == Left(l, es, ip, i, j + 1, now);
    } else if a' != l.burst {
      assert a' == Left(l, es, ip, j, j + 1, now);
    }
  }

  /** An event that is not a call from `ip` leaves its windows as they are. */
  lemma OtherStep(l: Limits, es: seq<Event>, ip: Ip, j: nat, now: real, a: real)
    requires j < |es| && !Call(es, j, ip) && Tight(l, es, ip, j, now, a)
    ensures Tight(l, es, ip, j + 1, now, a)
  {
    hide Admitted, Refill;
    forall i: nat | i < j ensures Left(l, es, ip, i, j + 1, now) == Left(l, es, ip, i, j, now) {
    }
  }

  lemma CallAvailable(l: Limits, bs: Buckets, ip: Ip, t: real, now: real)
    requires l.Sound()
    ensures Available(l, AllowStep(l, bs, ip, t).0, ip, now)
            == MinReal(l.burst, Available(l, bs, ip, t) - (if AllowStep(l, bs, ip, t).1 then 1.0 else 0.0)
                                + Refill(l, now - t))
  {
    hide Refill;
  }

  /** Other callers' calls and patient cleanups do not change what a later call finds. */
  lemma OtherKeepsAvailable(l: Limits, bs: Buckets, e: Event, ip: Ip, now: real)
    requires l.Sound() && e.time <= now && !(e.Allow? && e.ip == ip)
    requires e.Cleanup? ==> Refill(l, e.idle) >= l.burst
    requires ip in bs ==> bs[ip].tokens >= 0.0
    ensures Available(l, Step(l, bs, e), ip, now) == Available(l, bs, ip, now)
  {
    hide Refill;
    if e.Cleanup? && ip in bs {
      RefillLaws(l, e.idle, now - bs[ip].lastTime);
    }
  }

  /** At any later time a call finds exactly what the tightest window since an earlier call leaves. */
  lemma {:induction false} AvailableIsTight(l: Limits, es: seq<Event>, ip: Ip, j: nat, now: real)
    requires l.Sound() && Ordered(es) && PatientCleanups(l, es) && j <= |es|
    requires forall i | 0 <= i < j :: es[i].time <= now
    ensures Tight(l, es, ip, j, now, Available(l, After(l, es, j), ip, now))
    decreases j
  {
    hide Available, Refill, Left, AllowStep, CleanupStep;
    if j == 0 {
      NoBucket(l, ip, now);
    } else {
      var bs, e := After(l, es, j - 1), es[j - 1];
      if Call(es, j - 1, ip) {
        AvailableIsTight(l, es, ip, j - 1, e.time);
        CallStep(l, es, ip, j - 1, now, Available(l, bs, ip, e.time));
        CallAvailable(l, bs, ip, e.time, now);
      } else {
        AvailableIsTight(l, es, ip, j - 1, now);
        OtherStep(l, es, ip, j - 1, now, Available(l, bs, ip, now));
        BucketBounds(l, es, j - 1, ip);
        OtherKeepsAvailable(l, bs, e, ip, now);
      }
    }
  }

  lemma NoBucket(l: Limits, ip: Ip, now: real)
    ensures Available(l, map[], ip, now) == l.burst
  {
  }

  lemma AdmittedIs(l: Limits, bs: Buckets, ip: Ip, now: real)
    ensures AllowStep(l, bs, ip, now).1 <==> Available(l, bs, ip, now) >= 1.0
  {
    hide Available;
  }

  /**
   * The limiter is exact: a call is admitted if and only if admitting it keeps every window
   * since an earlier call of the same IP within burst + rate * length. Nothing else counts.
   */
  lemma AdmittedExactly(l: Limits, es: seq<Event>, j: nat)
    requires l.Sound() && Ordered(es) && PatientCleanups(l, es) && j < |es| && es[j].Allow?
    ensures Admitted(l, es, j) <==>
            forall i | 0 <= i < j && Call(es, i, es[j].ip) ::
              Count(l, es, es[j].ip, i, j) as real + 1.0 <= l.burst + Refill(l, es[j].time - es[i].time)
  {
    hide Count, After, Step, AllowStep, Available, Refill;
    var ip, now := es[j].ip, es[j].time;
    var a := Available(l, After(l, es, j), ip, now);
    AvailableIsTight(l, es, ip, j, now);
    AdmittedIs(l, After(l, es, j), ip, now);
    TightAtLeastOne(l, es, ip, j, now, a);
    forall i | 0 <= i < j && Call(es, i, ip)
      ensures Left(l, es, ip, i, j, now) >= 1.0
              <==> Count(l, es, ip, i, j) as real + 1.0 <= l.burst + Refill(l, now - es[i].time)
    {
    }
  }

  lemma TightAtLeastOne(l: Limits, es: seq<Event>, ip: Ip, j: nat, now: real, a: real)
    requires l.Sound() && j <= |es| && Tight(l, es, ip, j, now, a)
    ensures a >= 1.0 <==> forall i | 0 <= i < j && Call(es, i, ip) :: Left(l, es, ip, i, j, now) >= 1.0
  {
    hide Left;
    if a < 1.0 {
      var i :| 0 <= i < j && Call(es, i, ip) && a == Left(l, es, ip, i, j, now);
    }
  }

  /** In any run, at most burst + rate * (t - s) calls of one IP are admitted between two calls at s <= t. */
  lemma {:induction false} WindowBound(l: Limits, es: seq<Event>, ip: Ip, i: nat, j: nat)
    requires l.Sound() && Ordered(es) && PatientCleanups(l, es)
    requires i <= j < |es| && Call(es, i, ip)
    ensures Count(l, es, ip, i, j + 1) as real <= l.burst + Refill(l, es[j].time - es[i].time)
    decreases j
  {
    hide Admitted, Refill, PatientCleanups, Ordered;
    assert es[i].time <= es[j].time && (i < j ==> es[j - 1].time <= es[j].time) by { TimesOrdered(es); }
    RefillLaws(l, 0.0, es[j].time - es[i].time);
    if i == j {
      assert Count(l, es, ip, i, j) == 0;
    } else if Call(es, j, ip) && Admitted(l, es, j) {
      AdmittedExactly(l, es, j);
    } else {
      WindowBound(l, es, ip, i, j - 1);
      RefillLaws(l, es[j - 1].time - es[i].time, es[j].time - es[i].time);
    }
  }

  lemma TimesOrdered(es: seq<Event>)
    requires Ordered(es)
    ensures forall i, j | 0 <= i <= j < |es| :: es[i].time <= es[j].time
  {
  }

  /** A caller whose previous calls all lie at least 1/rate seconds back is never refused. */
  lemma SpacedCallsAdmitted(l: Limits, es: seq<Event>, j: nat)
    requires l.Sound() && Ordered(es) && j < |es| && es[j].Allow?
    requires forall i | 0 <= i < j && Call(es, i, es[j].ip) :: Refill(l, es[j].time - es[i].time) >= 1.0
    ensures Admitted(l, es, j)
  {
    hide After, Refill;
    BucketBounds(l, es, j, es[j].ip);
  }

  // ----- cleanup is unobservable

  /** The same run on a limiter that never drops a bucket. */
  function AfterKeeping(l: Limits, es: seq<Event>, j: nat): Buckets
    requires j <= |es|
  {
    if j == 0 then map[]
    else if es[j - 1].Allow? then Step(l, AfterKeeping(l, es, j - 1), es[j - 1])
    else AfterKeeping(l, es, j - 1)
  }

  predicate AdmittedKeeping(l: Limits, es: seq<Event>, j: int)
    requires 0 <= j < |es| && es[j].Allow?
  {
    AllowStep(l, AfterKeeping(l, es, j), es[j].ip, es[j].time).1
  }

  lemma {:induction false} SameAvailable(l: Limits, es: seq<Event>, j: nat, ip: Ip, now: real)
    requires l.Sound() && Ordered(es) && PatientCleanups(l, es) && j <= |es|
    requires forall i | 0 <= i < j :: es[i].time <= now
    ensures Available(l, After(l, es, j), ip, now) == Available(l, AfterKeeping(l, es, j), ip, now)
    decreases j
  {
    hide Available, Refill, AllowStep, CleanupStep;
    if j > 0 {
      var bs, kept, e := After(l, es, j - 1), AfterKeeping(l, es, j - 1), es[j - 1];
      if Call(es, j - 1, ip) {
        SameAvailable(l, es, j - 1, ip, e.time);
        CallAvailable(l, bs, ip, e.time, now);
        CallAvailable(l, kept, ip, e.time, now);
        AdmittedIs(l, bs, ip, e.time);
        AdmittedIs(l, kept, ip, e.time);
      } else {
        SameAvailable(l, es, j - 1, ip, now);
        BucketBounds(l, es, j - 1, ip);
        OtherKeepsAvailable(l, bs, e, ip, now);
        if e.Allow? {
          OtherCallKeepsAvailable(l, kept, e, ip, now);
        }
      }
    }
  }

  lemma OtherCallKeepsAvailable(l: Limits, bs: Buckets, e: Event, ip: Ip, now: real)
    requires e.Allow? && e.ip != ip
    ensures Available(l, Step(l, bs, e), ip, now) == Available(l, bs, ip, now)
  {
    hide Refill;
  }

  lemma PatientCleanupsUnseen(l: Limits, es: seq<Event>, j: nat)
    requires l.Sound() && Ordered(es) && PatientCleanups(l, es) && j < |es| && es[j].Allow?
    ensures Admitted(l, es, j) == AdmittedKeeping(l, es, j)
  {
    hide Available, After, AfterKeeping;
    SameAvailable(l, es, j, es[j].ip, es[j].time);
  }

  // ----- and observable as soon as the timeout is too short

  function Calls(n: nat, ip: Ip, time: real): (es: seq<Event>)
    ensures |es| == n && forall i | 0 <= i < n :: es[i] == Allow(ip, time)
  {
    if n == 0 then [] else Calls(n - 1, ip, time) + [Allow(ip, time)]
  }

  /** Use the budget up, clean up a moment before it has refilled, and use it up again. */
  function Impatient(q: nat, idle: real, now: real): seq<Event> {
    Calls(q, [], 0.0) + [Cleanup(idle, now)] + Calls(q, [], now)
  }

  /** What is left after n more calls at one moment. */
  ghost predicate Drained(a: real, n: nat, left: real) {
    && (n as real <= a ==> left == a - n as real)
    && (left < 1.0 || left <= a - n as real)
  }

  lemma {:induction false} CallsDrain(l: Limits, es: seq<Event>, j: nat, n: nat, ip: Ip, now: real)
    requires l.Sound() && j + n <= |es| && forall i | j <= i < j + n :: es[i] == Allow(ip, now)
    requires forall bs: Buckets, t: real :: Available(l, bs, ip, t) <= l.burst
    ensures Drained(Available(l, After(l, es, j), ip, now), n, Available(l, After(l, es, j + n), ip, now))
    ensures Drained(Available(l, AfterKeeping(l, es, j), ip, now), n, Available(l, AfterKeeping(l, es, j + n), ip, now))
    decreases n
  {
    hide Available, AllowStep, Refill;
    if n > 0 {
      CallsDrain(l, es, j, n - 1, ip, now);
      var bs, kept := After(l, es, j + n - 1), AfterKeeping(l, es, j + n - 1);
      RefillLaws(l, 0.0, 0.0);
      CallAvailable(l, bs, ip, now, now);
      CallAvailable(l, kept, ip, now, now);
      AdmittedIs(l, bs, ip, now);
      AdmittedIs(l, kept, ip, now);
      assert (n - 1) as real + 1.0 == n as real;
    }
  }

  lemma AvailableAtMostBurst(l: Limits, ip: Ip)
    ensures forall bs: Buckets, t: real :: Available(l, bs, ip, t) <= l.burst
  {
  }

  lemma ShortTimeoutSeen(q: nat, idle: real, now: real)
    requires q >= 1 && 0.0 <= idle < now < 1.0
    ensures var es, j := Impatient(q, idle, now), 2 * q;
            |es| == j + 1 && es[j].Allow? && Ordered(es)
            && Admitted(NewLimits(q), es, j) && !AdmittedKeeping(NewLimits(q), es, j)
  {
    hide Available, AllowStep, After, AfterKeeping, NewLimits;
    var l, ip: Ip, es := NewLimits(q), [], Impatient(q, idle, now);
    NewLimitsAre(q);
    AvailableAtMostBurst(l, ip);
    AfterCleanup(q, idle, now);
    CallsDrain(l, es, q + 1, q - 1, ip, now);
    assert (q - 1) as real == q as real - 1.0;
    AdmittedIs(l, After(l, es, 2 * q), ip, now);
    AdmittedIs(l, AfterKeeping(l, es, 2 * q), ip, now);
  }

  lemma NewLimitsAre(q: nat)
    requires q >= 1
    ensures NewLimits(q) == Limits(q as real, q as real)
  {
  }

  /** After the first burst and the cleanup, the limiter offers a full bucket; without the cleanup, less. */
  lemma AfterCleanup(q: nat, idle: real, now: real)
    requires q >= 1 && 0.0 <= idle < now < 1.0
    ensures var l, es := NewLimits(q), Impatient(q, idle, now);
            && Available(l, After(l, es, q + 1), [], now) == q as real
            && Available(l, AfterKeeping(l, es, q + 1), [], now) < q as real
  {
    var l, ip: Ip, es := NewLimits(q), [], Impatient(q, idle, now);
    NewLimitsAre(q);
    AvailableAtMostBurst(l, ip);
    CallsDrain(l, es, 0, q, ip, 0.0);
    assert es[q] == Cleanup(idle, now) && es[q - 1] == Allow(ip, 0.0);
    DrainedBucket(l, AfterKeeping(l, es, q - 1), ip, now);
    hide Available, Refill;
    var bs := After(l, es, q);
    assert bs[ip].lastTime == 0.0;
    assert ip !in After(l, es, q + 1);
    NoBucketOf(l, After(l, es, q + 1), ip, now);
  }

  lemma NoBucketOf(l: Limits, bs: Buckets, ip: Ip, now: real)
    requires ip !in bs
    ensures Available(l, bs, ip, now) == l.burst
  {
  }

  /** A bucket just emptied at time zero is not full again before a second has passed. */
  lemma DrainedBucket(l: Limits, bs: Buckets, ip: Ip, now: real)
    requires l.Sound() && l.rate == l.burst && 0.0 < now < 1.0
    requires Available(l, AllowStep(l, bs, ip, 0.0).0, ip, 0.0) == 0.0
    ensures Available(l, AllowStep(l, bs, ip, 0.0).0, ip, now) < l.burst
  {
    var b := AllowStep(l, bs, ip, 0.0).0[ip];
    assert b.lastTime == 0.0;
    assert l.rate - now * l.rate == (1.0 - now) * l.rate > 0.0;
    hide Refill;
    RefillLaws(l, 0.0, 0.0);
    assert Refill(l, now) < l.rate by { RefillIs(l, now); }
  }

  lemma RefillIs(l: Limits, span: real)
    ensures Refill(l, span) == span * l.rate
  {
  }

  lemma FullAfterASecond(l: Limits, span: real)
    requires l.Sound() && l.rate == l.burst && span >= 1.0
    ensures Refill(l, span) >= l.burst
  {
    assert Refill(l, 1.0) == l.rate;
    RefillLaws(l, 1.0, span);
  }

  predicate OneTimeout(es: seq<Event>, idle: real) {
    forall i | 0 <= i < |es| && es[i].Cleanup? :: es[i].idle == idle
  }

  /** No run with this cleanup timeout, wherever its cleanups fall, differs from one without cleanups. */
  ghost predicate Unseen(l: Limits, idle: real) {
    forall es: seq<Event>, j: nat | Ordered(es) && OneTimeout(es, idle) && j < |es| && es[j].Allow? ::
      Admitted(l, es, j) == AdmittedKeeping(l, es, j)
  }

  /**
   * For the limiters the server makes, a cleanup timeout goes unnoticed in every run
   * exactly when it is at least one second. (The server uses five minutes.)
   */
  lemma CleanupUnseenExactly(queriesPerSecond: int, idle: real)
    requires 0.0 <= idle
    ensures Unseen(NewLimits(queriesPerSecond), idle) <==> idle >= 1.0
  {
    var l, q := NewLimits(queriesPerSecond), Max(queriesPerSecond, 1);
    assert NewLimits(q) == l;
    hide Admitted, AdmittedKeeping, Impatient, NewLimits;
    if idle >= 1.0 {
      assert l.Sound() && l.rate == l.burst;
      FullAfterASecond(l, idle);
      forall es: seq<Event>, j: nat | Ordered(es) && OneTimeout(es, idle) && j < |es| && es[j].Allow?
        ensures Admitted(l, es, j) == AdmittedKeeping(l, es, j)
      {
        PatientCleanupsUnseen(l, es, j);
      }
    } else {
      var now := (idle + 1.0) / 2.0;
      ShortTimeoutSeen(q, idle, now);
      ImpatientCleanups(q, idle, now);
    }
  }

  lemma ImpatientCleanups(q: nat, idle: real, now: real)
    ensures OneTimeout(Impatient(q, idle, now), idle)
  {
  }
}
