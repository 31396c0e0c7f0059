/** The per-key rate limiter: a bounded table of token buckets from which idle buckets are swept. The clock is
    a parameter of every operation, in seconds; a bucket refills at `qps` tokens a second up to `qps`. */
module RateLimiter {
  import opened Wrappers

  // ---- one token bucket ---------------------------------------------------------------------

  datatype Bucket = Bucket(tokens: real, last: real)

  /** The tokens of a span of time. */
  function Gain(span: real, qps: int): real {
    span * qps as real
  }

  function Refilled(b: Bucket, qps: int, now: real): real {
    var t := b.tokens + Gain(now - b.last, qps);
    if t > qps as real then qps as real else t
  }

  function Spend(b: Bucket, qps: int, now: real): (Bucket, bool) {
    var t := Refilled(b, qps, now);
    if t >= 1.0 then (Bucket(t - 1.0, now), true) else (Bucket(t, now), false)
  }

  /** The time until one token is there. */
  function Wait(b: Bucket, qps: int, now: real): real
    requires qps > 0
  {
    var t := Refilled(b, qps, now);
    if t >= 1.0 then 0.0 else (1.0 - t) / qps as real
  }

  function Ceil(x: real): int {
    -(-x).Floor
  }

  ghost predicate Sound(b: Bucket, qps: int, now: real) {
    0.0 <= b.tokens <= qps as real && b.last <= now
  }

  lemma GainGrows(x: real, y: real, qps: int)
    requires x <= y && qps > 0
    ensures Gain(x, qps) <= Gain(y, qps) && (x < y ==> Gain(x, qps) < Gain(y, qps))
  {
    var q := qps as real;
    assert (y - x) * q >= 0.0 && (x < y ==> (y - x) * q > 0.0);
  }

  lemma GainAdds(x: real, y: real, qps: int)
    ensures Gain(x + y, qps) == Gain(x, qps) + Gain(y, qps)
    ensures Gain(0.0, qps) == 0.0 && Gain(1.0, qps) == qps as real
  {
  }

  lemma GainOfWait(b: Bucket, qps: int, now: real)
    requires qps > 0 && Refilled(b, qps, now) < 1.0
    ensures Gain(Wait(b, qps, now), qps) == 1.0 - Refilled(b, qps, now)
  {
  }

  /** The answer of RetryAfter is the least whole number of seconds after which a call is allowed. */
  lemma RetryAfterIsLeast(b: Bucket, qps: int, now: real, d: nat)
    requires qps > 0 && Sound(b, qps, now)
    ensures Ceil(Wait(b, qps, now)) >= 0
    ensures Spend(b, qps, now + d as real).1 <==> Ceil(Wait(b, qps, now)) <= d
  {
    var w := Wait(b, qps, now);
    var t := Refilled(b, qps, now);
    GainAdds(now - b.last, d as real, qps);
    assert now - b.last + d as real == now + d as real - b.last;
    GainGrows(0.0, d as real, qps);
    assert w >= 0.0;
    if t < 1.0 {
      GainOfWait(b, qps, now);
      hide Gain, Wait;
      if w <= d as real {
        GainGrows(w, d as real, qps);
      } else {
        GainGrows(d as real, w, qps);
      }
    }
  }

  // ---- the table ----------------------------------------------------------------------------

  datatype Entry = Entry(bucket: Bucket, lastTime: real)

  /** `whitelisted` holds the keys that are addresses in a whitelisted network. */
  datatype Config = Config(qps: int, maxBuckets: nat, whitelisted: set<string>)

  datatype State = State(buckets: map<string, Entry>, rejected: nat)

  datatype Event =
    | Allow(key: string, now: real)
    | RetryAfter(key: string, now: real)
    | Cleanup(interval: real, now: real)

  datatype Answer = Allowed(yes: bool) | Seconds(n: int) | Nothing

  function AllowStep(c: Config, s: State, key: string, now: real): (State, bool) {
    if key in c.whitelisted then (s, true)
    else if key !in s.buckets && (|s.buckets| >= c.maxBuckets || c.qps <= 0) then
      (s.(rejected := s.rejected + 1), false)
    else
      var b := if key in s.buckets then s.buckets[key].bucket else Bucket(c.qps as real, now);
      var (b', ok) := Spend(b, c.qps, now);
      (State(s.buckets[key := Entry(b', now)], if ok then s.rejected else s.rejected + 1), ok)
  }

  function RetryStep(c: Config, s: State, key: string, now: real): int {
    if c.qps <= 0 || key !in s.buckets then 0 else Ceil(Wait(s.buckets[key].bucket, c.qps, now))
  }

  function Idle(e: Entry, interval: real, now: real): bool {
    now - e.lastTime > interval * 10.0
  }

  function CleanupStep(s: State, interval: real, now: real): State {
    s.(buckets := map k | k in s.buckets && !Idle(s.buckets[k], interval, now) :: s.buckets[k])
  }

  function Step(c: Config, s: State, e: Event): (State, Answer) {
    match e
    case Allow(key, now) => var (s', ok) := AllowStep(c, s, key, now); (s', Allowed(ok))
    case RetryAfter(key, now) => (s, Seconds(RetryStep(c, s, key, now)))
    case Cleanup(interval, now) => (CleanupStep(s, interval, now), Nothing)
  }

  class Limiter {
    const config: Config
    var buckets: map<string, Entry>
    var rejected: nat

    constructor (config: Config)
      ensures this.config == config && Now() == State(map[], 0)
    {
      this.config, buckets, rejected := config, map[], 0;
    }

    ghost function Now(): State
      reads this
    {
      State(buckets, rejected)
    }

    method Allow(key: string, now: real) returns (ok: bool)
      modifies this
      ensures (Now(), ok) == AllowStep(config, old(Now()), key, now)
    {
      if key in config.whitelisted {
        return true;
      }
      var bucket: Bucket;
      if key in buckets {
        bucket := buckets[key].bucket;
      } else {
        if |buckets| >= config.maxBuckets {
          rejected := rejected + 1;
          return false;
        }
        if config.qps <= 0 {
          rejected := rejected + 1;
          return false;
        }
        bucket := Bucket(config.qps as real, now);
        buckets := buckets[key := Entry(bucket, now)];
      }
      var (spent, yes) := Spend(bucket, config.qps, now);
      buckets := buckets[key := Entry(spent, now)];
      assert buckets == old(buckets)[key := Entry(spent, now)];
      if yes {
        return true;
      }
      rejected := rejected + 1;
      return false;
    }

    method RetryAfter(key: string, now: real) returns (seconds: int)
      ensures seconds == RetryStep(config, Now(), key, now)
    {
      if config.qps <= 0 {
        return 0;
      }
      if key !in buckets {
        return 0;
      }
      var wait := Wait(buckets[key].bucket, config.qps, now);
      if wait <= 0.0 {
        return 0;
      }
      return Ceil(wait);
    }

    /** The buckets are visited in no particular order. */
    method Cleanup(interval: real, now: real)
      modifies this
      ensures Now() == CleanupStep(old(Now()), interval, now)
      ensures forall k :: k in buckets <==> k in old(buckets) && now - old(buckets)[k].lastTime <= interval * 10.0
    {
      var left := buckets.Keys;
      while left != {}
        invariant left <= buckets.Keys
        invariant rejected == old(rejected) && buckets.Keys <= old(buckets).Keys
        invariant forall k | k in buckets :: buckets[k] == old(buckets)[k]
        invariant forall k | k in old(buckets) && k !in left :: k in buckets <==> !Idle(old(buckets)[k], interval, now)
        decreases left
      {
        var key :| key in left;
        if now - buckets[key].lastTime > interval * 10.0 {
          buckets := buckets - {key};
        }
        left := left - {key};
      }
    }
  }

  // ---- runs ---------------------------------------------------------------------------------

  const START := State(map[], 0)

  function AfterAll(c: Config, s: State, es: seq<Event>): State
    decreases |es|
  {
    if es == [] then s else AfterAll(c, Step(c, s, es[0]).0, es[1..])
  }

  predicate Concerns(e: Event, k: string) {
    !e.Cleanup? && e.key == k
  }

  /** The answers a run gives to the calls for one key. */
  function AnswersTo(c: Config, s: State, es: seq<Event>, k: string): seq<Answer>
    decreases |es|
  {
    if es == [] then []
    else
      var (s', a) := Step(c, s, es[0]);
      (if Concerns(es[0], k) then [a] else []) + AnswersTo(c, s', es[1..], k)
  }

  predicate Ordered(es: seq<Event>, from: real)
    decreases |es|
  {
    es == [] || (from <= es[0].now && Ordered(es[1..], es[0].now))
  }

  /** Every sweep spares the keys that were active within the last second. */
  ghost predicate Patient(es: seq<Event>) {
    forall e | e in es && e.Cleanup? :: e.interval * 10.0 >= 1.0
  }

  function Refusals(c: Config, s: State, es: seq<Event>): nat
    decreases |es|
  {
    if es == [] then 0
    else
      var (s', a) := Step(c, s, es[0]);
      (if a == Allowed(false) then 1 else 0) + Refusals(c, s', es[1..])
  }

  /** The counter holds exactly the refused calls, whatever was swept in between. */
  lemma {:induction false} RejectedCounts(c: Config, s: State, es: seq<Event>)
    ensures AfterAll(c, s, es).rejected == s.rejected + Refusals(c, s, es)
    decreases |es|
  {
    if es != [] {
      RejectedCounts(c, Step(c, s, es[0]).0, es[1..]);
    }
  }

  // ---- sweeping cannot be observed ----------------------------------------------------------

  /** A bucket of its own for one key, never swept. */
  function AloneStep(c: Config, r: Option<Bucket>, e: Event): (Option<Bucket>, Answer) {
    match e
    case Allow(key, now) =>
      if key in c.whitelisted then (r, Allowed(true))
      else if c.qps <= 0 then (r, Allowed(false))
      else
        var (b, ok) := Spend(match r case Some(b) => b case None => Bucket(c.qps as real, now), c.qps, now);
        (Some(b), Allowed(ok))
    case RetryAfter(key, now) =>
      (r, Seconds(if c.qps <= 0 || r == None then 0 else Ceil(Wait(r.value, c.qps, now))))
    case Cleanup(interval, now) => (r, Nothing)
  }

  function AloneAnswers(c: Config, r: Option<Bucket>, es: seq<Event>, k: string): seq<Answer>
    decreases |es|
  {
    if es == [] then []
    else if Concerns(es[0], k) then
      var (r', a) := AloneStep(c, r, es[0]);
      [a] + AloneAnswers(c, r', es[1..], k)
    else AloneAnswers(c, r, es[1..], k)
  }

  /** The table has a place whenever the key asks for a bucket. */
  predicate RoomFor(c: Config, s: State, es: seq<Event>, k: string)
    decreases |es|
  {
    es != [] ==>
      && (es[0].Allow? && es[0].key == k && k !in s.buckets ==> |s.buckets| < c.maxBuckets)
      && RoomFor(c, Step(c, s, es[0]).0, es[1..], k)
  }

  ghost predicate Tidy(c: Config, s: State, k: string, t: real) {
    k in s.buckets ==>
      var e := s.buckets[k];
      c.qps > 0 && e.lastTime == e.bucket.last && Sound(e.bucket, c.qps, t)
  }

  /** A bucket the table lost is full, so a new one answers alike. */
  ghost predicate Alike(c: Config, s: State, r: Option<Bucket>, k: string, t: real) {
    && Tidy(c, s, k, t)
    && (k in s.buckets ==> r == Some(s.buckets[k].bucket))
    && (k !in s.buckets && r.Some? ==>
          c.qps > 0 && Sound(r.value, c.qps, t) && Refilled(r.value, c.qps, t) == c.qps as real)
  }

  lemma Refills(b: Bucket, qps: int, t: real, now: real)
    requires qps > 0 && Sound(b, qps, t) && t <= now
    ensures Refilled(b, qps, t) <= Refilled(b, qps, now) <= Refilled(b, qps, t) + Gain(now - t, qps)
    ensures 0.0 <= Refilled(b, qps, t)
    ensures now - b.last >= 1.0 ==> Refilled(b, qps, now) == qps as real
  {
    hide Gain;
    GainAdds(t - b.last, now - t, qps);
    assert (t - b.last) + (now - t) == now - b.last;
    GainGrows(0.0, t - b.last, qps);
    GainGrows(0.0, now - t, qps);
    if now - b.last >= 1.0 {
      GainGrows(1.0, now - b.last, qps);
    }
  }

  lemma StepAlike(c: Config, s: State, r: Option<Bucket>, e: Event, k: string, t: real)
    requires Alike(c, s, r, k, t) && t <= e.now
    requires e.Cleanup? ==> e.interval * 10.0 >= 1.0
    requires e.Allow? && e.key == k && k !in s.buckets ==> |s.buckets| < c.maxBuckets
    ensures var (s', a) := Step(c, s, e);
            if Concerns(e, k) then
              var (r', a') := AloneStep(c, r, e);
              Alike(c, s', r', k, e.now) && a == a'
            else Alike(c, s', r, k, e.now)
  {
    if r.Some? {
      Refills(r.value, c.qps, t, e.now);
    }
    GainAdds(0.0, 0.0, c.qps);
    hide Ceil, Gain;
  }

  /** While the table has room for a key, every answer for that key is the one its own, never swept bucket
      would give. */
  lemma {:induction false} SweepingUnobserved(c: Config, s: State, r: Option<Bucket>,
                                              es: seq<Event>, k: string, t: real)
    requires Alike(c, s, r, k, t) && Ordered(es, t) && Patient(es) && RoomFor(c, s, es, k)
    ensures AnswersTo(c, s, es, k) == AloneAnswers(c, r, es, k)
    decreases |es|
  {
    if es != [] {
      assert es[0] in es;
      StepAlike(c, s, r, es[0], k, t);
      var s' := Step(c, s, es[0]).0;
      hide Step, Alike;
      SweepingUnobserved(c, s', if Concerns(es[0], k) then AloneStep(c, r, es[0]).0 else r, es[1..], k, es[0].now);
    }
  }

  // ---- the rate -----------------------------------------------------------------------------

  function Granted(answers: seq<Answer>): nat {
    if answers == [] then 0 else (if answers[0] == Allowed(true) then 1 else 0) + Granted(answers[1..])
  }

  ghost predicate Until(es: seq<Event>, end: real) {
    forall e | e in es :: e.now <= end
  }

  /** What a key could spend at once. */
  ghost function Purse(c: Config, s: State, k: string, t: real): real {
    if k in s.buckets then Refilled(s.buckets[k].bucket, c.qps, t) else c.qps as real
  }

  /** One call, said of what the key could spend: it is allowed if and only if its address is whitelisted, or
      there is a rate, the key has a bucket or the table has a place for one, and it could spend a token. Then
      it has spent that token; a refusal is counted; and no other key is touched. */
  lemma AllowedIff(c: Config, s: State, k: string, now: real)
    requires Tidy(c, s, k, now)
    ensures var (s', ok) := AllowStep(c, s, k, now);
            var placed := c.qps > 0 && (k in s.buckets || |s.buckets| < c.maxBuckets);
            && (ok <==> k in c.whitelisted || (placed && Purse(c, s, k, now) >= 1.0))
            && s'.rejected == s.rejected + (if ok then 0 else 1)
            && (k in c.whitelisted || !placed ==> s'.buckets == s.buckets)
            && (k !in c.whitelisted && placed ==>
                  && k in s'.buckets && s'.buckets[k].lastTime == now
                  && Purse(c, s', k, now) == Purse(c, s, k, now) - if ok then 1.0 else 0.0)
            && forall j | j != k :: (j in s'.buckets <==> j in s.buckets)
                                    && (j in s.buckets ==> s'.buckets[j] == s.buckets[j])
  {
    if c.qps > 0 {
      PurseBounds(c, s, k, now);
      GainAdds(0.0, 0.0, c.qps);
    }
    hide Gain;
  }

  /** What RetryAfter tells a key is the least whole number of seconds after which a call of Allow succeeds; a
      key without a bucket is told 0. */
  lemma RetryAfterTells(c: Config, s: State, k: string, now: real, d: nat)
    requires c.qps > 0 && k !in c.whitelisted && Tidy(c, s, k, now)
    ensures RetryStep(c, s, k, now) >= 0 && (k !in s.buckets ==> RetryStep(c, s, k, now) == 0)
    ensures k in s.buckets ==> (AllowStep(c, s, k, now + d as real).1 <==> RetryStep(c, s, k, now) <= d)
  {
    hide Spend, Wait, Ceil;
    if k in s.buckets {
      RetryAfterIsLeast(s.buckets[k].bucket, c.qps, now, d);
    }
  }

  /** The table never holds more keys than it may. */
  lemma {:induction false} TableBounded(c: Config, s: State, es: seq<Event>)
    requires |s.buckets| <= c.maxBuckets
    ensures |AfterAll(c, s, es).buckets| <= c.maxBuckets
    decreases |es|
  {
    if es != [] {
      var s' := Step(c, s, es[0]).0;
      if es[0].Cleanup? {
        SweptSmaller(s.buckets.Keys, s'.buckets.Keys);
      } else if es[0].Allow? && s' != s {
        var k := es[0].key;
        assert s'.buckets.Keys == s.buckets.Keys + {k} || s'.buckets == s.buckets;
      }
      TableBounded(c, s', es[1..]);
    }
  }

  lemma SweptSmaller(a: set<string>, b: set<string>)
    requires b <= a
    ensures |b| <= |a|
  {
    assert a == b + (a - b);
  }

  lemma StepSpends(c: Config, s: State, e: Event, k: string, t: real)
    requires c.qps > 0 && k !in c.whitelisted && Tidy(c, s, k, t) && t <= e.now
    requires e.Cleanup? ==> e.interval * 10.0 >= 1.0
    ensures var (s', a) := Step(c, s, e);
            && Tidy(c, s', k, e.now)
            && Purse(c, s', k, e.now) + (if Concerns(e, k) && a == Allowed(true) then 1.0 else 0.0)
               <= Purse(c, s, k, t) + Gain(e.now - t, c.qps)
  {
    hide Gain, Ceil;
    GainAdds(0.0, 0.0, c.qps);
    GainGrows(0.0, e.now - t, c.qps);
    if k in s.buckets {
      Refills(s.buckets[k].bucket, c.qps, t, e.now);
    }
  }

  lemma PurseBounds(c: Config, s: State, k: string, t: real)
    requires c.qps > 0 && Tidy(c, s, k, t)
    ensures 0.0 <= Purse(c, s, k, t) <= c.qps as real
  {
    if k in s.buckets {
      Refills(s.buckets[k].bucket, c.qps, t, t);
    }
  }

  lemma GrantedStep(c: Config, s: State, es: seq<Event>, k: string)
    requires es != []
    ensures var (s', a) := Step(c, s, es[0]);
            Granted(AnswersTo(c, s, es, k)) ==
            (if Concerns(es[0], k) && a == Allowed(true) then 1 else 0) + Granted(AnswersTo(c, s', es[1..], k))
  {
    var (s', a) := Step(c, s, es[0]);
    var rest := AnswersTo(c, s', es[1..], k);
    assert AnswersTo(c, s, es, k) == (if Concerns(es[0], k) then [a] else []) + rest;
    assert ([a] + rest)[1..] == rest && [] + rest == rest;
  }

  /** In any span of time a key is granted at most its burst and the tokens of that span, also when the table
      is full and whatever is swept. */
  lemma {:induction false} RateBound(c: Config, s: State, es: seq<Event>, k: string, t: real, end: real)
    requires c.qps > 0 && k !in c.whitelisted && Tidy(c, s, k, t)
    requires Ordered(es, t) && Until(es, end) && t <= end && Patient(es)
    ensures Granted(AnswersTo(c, s, es, k)) as real <= Purse(c, s, k, t) + Gain(end - t, c.qps)
    decreases |es|
  {
    hide Gain, Tidy, Purse, Step, AnswersTo, Granted;
    if es == [] {
      EndAnswers(c, s, None, k);
      PurseBounds(c, s, k, t);
      GainAdds(0.0, 0.0, c.qps);
      GainGrows(0.0, end - t, c.qps);
    } else {
      var e := es[0];
      assert e in es;
      StepSpends(c, s, e, k, t);
      var (s', a) := Step(c, s, e);
      GrantedStep(c, s, es, k);
      GainAdds(e.now - t, end - e.now, c.qps);
      assert (e.now - t) + (end - e.now) == end - t;
      RateBound(c, s', es[1..], k, e.now, end);
    }
  }

  // ---- impatient sweeps ---------------------------------------------------------------------

  function Burst(k: string, now: real, n: nat, es: seq<Event>): seq<Event> {
    if n == 0 then es else [Allow(k, now)] + Burst(k, now, n - 1, es)
  }

  lemma {:induction false} BurstOrdered(k: string, now: real, n: nat, es: seq<Event>, from: real)
    requires from <= now && Ordered(es, now)
    ensures Ordered(Burst(k, now, n, es), from)
    ensures forall e | e in Burst(k, now, n, es) :: e in es || e == Allow(k, now)
  {
    if n == 0 {
      assert es != [] ==> from <= now <= es[0].now;
    } else {
      BurstOrdered(k, now, n - 1, es, now);
      assert Burst(k, now, n, es)[1..] == Burst(k, now, n - 1, es);
    }
  }

  /** A key with n tokens is granted n calls at once, here and alone. */
  lemma {:induction false} BurstGranted(c: Config, s: State, r: Option<Bucket>, k: string,
                                        now: real, n: nat, es: seq<Event>)
    returns (s': State, r': Option<Bucket>)
    requires c.qps > 0 && k !in c.whitelisted && Alike(c, s, r, k, now) && Purse(c, s, k, now) >= n as real
    requires k in s.buckets || |s.buckets| < c.maxBuckets
    ensures Granted(AnswersTo(c, s, Burst(k, now, n, es), k)) == n + Granted(AnswersTo(c, s', es, k))
    ensures Granted(AloneAnswers(c, r, Burst(k, now, n, es), k)) == n + Granted(AloneAnswers(c, r', es, k))
    ensures n > 0 ==> s'.buckets == s.buckets[k := Entry(Bucket(Purse(c, s, k, now) - n as real, now), now)]
    ensures n > 0 ==> r' == Some(s'.buckets[k].bucket)
    ensures RoomFor(c, s', es, k) ==> RoomFor(c, s, Burst(k, now, n, es), k)
    decreases n
  {
    hide Step, AloneStep, Alike, Purse, Granted, RoomFor, AnswersTo, AloneAnswers;
    if n == 0 {
      return s, r;
    }
    var tail := Burst(k, now, n - 1, es);
    var s1, r1 := BurstOnce(c, s, r, k, now, tail);
    if n == 1 {
      return s1, r1;
    }
    s', r' := BurstGranted(c, s1, r1, k, now, n - 1, es);
  }

  lemma BurstOnce(c: Config, s: State, r: Option<Bucket>, k: string, now: real, tail: seq<Event>)
    returns (s1: State, r1: Option<Bucket>)
    requires c.qps > 0 && k !in c.whitelisted && Alike(c, s, r, k, now) && Purse(c, s, k, now) >= 1.0
    requires k in s.buckets || |s.buckets| < c.maxBuckets
    ensures var es := [Allow(k, now)] + tail;
            && Granted(AnswersTo(c, s, es, k)) == 1 + Granted(AnswersTo(c, s1, tail, k))
            && Granted(AloneAnswers(c, r, es, k)) == 1 + Granted(AloneAnswers(c, r1, tail, k))
            && (RoomFor(c, s1, tail, k) ==> RoomFor(c, s, es, k))
    ensures Alike(c, s1, r1, k, now) && Purse(c, s1, k, now) == Purse(c, s, k, now) - 1.0
    ensures s1.buckets == s.buckets[k := Entry(Bucket(Purse(c, s, k, now) - 1.0, now), now)]
    ensures r1 == Some(s1.buckets[k].bucket)
  {
    var e := Allow(k, now);
    var es := [e] + tail;
    assert es[1..] == tail;
    s1, r1 := Step(c, s, e).0, AloneStep(c, r, e).0;
    StepAlike(c, s, r, e, k, now);
    BurstStep(c, s, k, now);
    hide Granted, Gain;
    GrantedFirst(AnswersTo(c, s1, tail, k));
    GrantedFirst(AloneAnswers(c, r1, tail, k));
  }

  lemma GrantedFirst(rest: seq<Answer>)
    ensures Granted([Allowed(true)] + rest) == 1 + Granted(rest)
    ensures Granted([Allowed(false)] + rest) == Granted(rest)
  {
    assert ([Allowed(true)] + rest)[1..] == rest && ([Allowed(false)] + rest)[1..] == rest;
  }

  lemma BurstStep(c: Config, s: State, k: string, now: real)
    requires c.qps > 0 && k !in c.whitelisted && Tidy(c, s, k, now) && Purse(c, s, k, now) >= 1.0
    requires k in s.buckets || |s.buckets| < c.maxBuckets
    ensures var (s', a) := Step(c, s, Allow(k, now));
            && a == Allowed(true)
            && s'.buckets == s.buckets[k := Entry(Bucket(Purse(c, s, k, now) - 1.0, now), now)]
            && Purse(c, s', k, now) == Purse(c, s, k, now) - 1.0
  {
    GainAdds(0.0, 0.0, c.qps);
    PurseBounds(c, s, k, now);
    hide Gain;
  }

  /** A bucket alone never grants more calls at once than it holds tokens. */
  lemma {:induction false} BurstBound(c: Config, b: Bucket, k: string, now: real, n: nat)
    requires c.qps > 0 && k !in c.whitelisted && Refilled(b, c.qps, now) >= 0.0
    ensures Granted(AloneAnswers(c, Some(b), Burst(k, now, n, []), k)) as real <= Refilled(b, c.qps, now)
    decreases n
  {
    if n > 0 {
      var tail := Burst(k, now, n - 1, []);
      assert Burst(k, now, n, [])[1..] == tail;
      var (b', ok) := Spend(b, c.qps, now);
      GainAdds(0.0, 0.0, c.qps);
      hide Gain;
      BurstBound(c, b', k, now, n - 1);
      GrantedFirst(AloneAnswers(c, Some(b'), tail, k));
    }
  }

  /** All sweeps of a run use one interval. */
  ghost predicate SweptAt(es: seq<Event>, interval: real) {
    forall e | e in es && e.Cleanup? :: e.interval == interval
  }

  /** A run from the empty table, with one sweep interval. */
  ghost predicate Run(es: seq<Event>, interval: real) {
    Ordered(es, 0.0) && SweptAt(es, interval)
  }

  /** Sweeping at this interval keeps a key to its burst and its tokens, in every run. */
  ghost predicate KeepsRate(c: Config, k: string, interval: real) {
    forall es, end: real | Run(es, interval) && Until(es, end) && 0.0 <= end ::
      Granted(AnswersTo(c, START, es, k)) as real <= c.qps as real + Gain(end, c.qps)
  }

  /** Sweeping at this interval cannot be told from never sweeping, as long as there is room. */
  ghost predicate Unobserved(c: Config, k: string, interval: real) {
    forall es | Run(es, interval) && RoomFor(c, START, es, k) ::
      AnswersTo(c, START, es, k) == AloneAnswers(c, None, es, k)
  }

  /** A burst, a sweep that comes before a second has passed, and a burst again: twice the allowance. */
  function Trick(c: Config, k: string, interval: real, at: real): seq<Event>
    requires c.qps > 0
  {
    Burst(k, 0.0, c.qps, [Cleanup(interval, at)] + Burst(k, at, c.qps, []))
  }

  lemma TrickRuns(c: Config, k: string, interval: real, at: real)
    requires c.qps > 0 && 0.0 <= at
    ensures Run(Trick(c, k, interval, at), interval) && Until(Trick(c, k, interval, at), at)
  {
    var second := Burst(k, at, c.qps, []);
    var rest := [Cleanup(interval, at)] + second;
    BurstOrdered(k, at, c.qps, [], at);
    assert rest[1..] == second;
    BurstOrdered(k, 0.0, c.qps, rest, 0.0);
  }

  /** The sweep forgets the drained bucket. */
  lemma SweepForgets(c: Config, s: State, k: string, interval: real, at: real, es: seq<Event>)
    requires interval * 10.0 < at && c.maxBuckets > 0
    requires s.buckets == map[k := Entry(Bucket(0.0, 0.0), 0.0)]
    ensures var s' := CleanupStep(s, interval, at);
            var all := [Cleanup(interval, at)] + es;
            && s'.buckets == map[]
            && AnswersTo(c, s, all, k) == AnswersTo(c, s', es, k)
            && (forall r :: AloneAnswers(c, r, all, k) == AloneAnswers(c, r, es, k))
            && (RoomFor(c, s', es, k) ==> RoomFor(c, s, all, k))
  {
    var all := [Cleanup(interval, at)] + es;
    assert all[1..] == es;
    var s' := CleanupStep(s, interval, at);
    assert [] + AnswersTo(c, s', es, k) == AnswersTo(c, s', es, k);
  }

  lemma TrickWorks(c: Config, k: string, interval: real, at: real)
    requires c.qps > 0 && c.maxBuckets > 0 && k !in c.whitelisted && 0.0 <= at < 1.0 && interval * 10.0 < at
    ensures var es := Trick(c, k, interval, at);
            && Run(es, interval) && Until(es, at)
            && RoomFor(c, START, es, k)
            && Granted(AnswersTo(c, START, es, k)) == 2 * c.qps
            && Granted(AloneAnswers(c, None, es, k)) < 2 * c.qps
  {
    var q := c.qps;
    var second := Burst(k, at, q, []);
    var rest := [Cleanup(interval, at)] + second;
    TrickRuns(c, k, interval, at);
    assert Alike(c, START, None, k, 0.0) && Purse(c, START, k, 0.0) == q as real;
    GainAdds(0.0, 0.0, q);
    GainGrows(0.0, at, q);
    GainGrows(at, 1.0, q);
    var b := Bucket(0.0, 0.0);
    assert Refilled(b, q, at) == Gain(at, q);
    hide Step, AnswersTo, AloneAnswers, RoomFor, Burst, Gain, Run, Until;
    var s1, r1 := BurstGranted(c, START, None, k, 0.0, q, rest);
    assert s1.buckets == map[k := Entry(b, 0.0)] && r1 == Some(b);
    SweepForgets(c, s1, k, interval, at, second);
    var s2 := CleanupStep(s1, interval, at);
    assert Alike(c, s2, None, k, at) && Purse(c, s2, k, at) == q as real;
    var s3, r3 := BurstGranted(c, s2, None, k, at, q, []);
    EndAnswers(c, s3, r3, k);
    BurstBound(c, b, k, at, q);
  }

  lemma EndAnswers(c: Config, s: State, r: Option<Bucket>, k: string)
    ensures RoomFor(c, s, [], k) && Granted(AnswersTo(c, s, [], k)) == 0
  {
  }

  /** Sweeping keeps the rate, and stays unobserved, exactly when an idle key is kept for at least a second. */
  lemma SweepIntervalIff(c: Config, k: string, interval: real)
    requires c.qps > 0 && c.maxBuckets > 0 && k !in c.whitelisted
    ensures KeepsRate(c, k, interval) <==> interval * 10.0 >= 1.0
  {
    if interval * 10.0 >= 1.0 {
      forall es, end: real | Run(es, interval) && Until(es, end) && 0.0 <= end
        ensures Granted(AnswersTo(c, START, es, k)) as real <= c.qps as real + Gain(end, c.qps)
      {
        RateBound(c, START, es, k, 0.0, end);
      }
    } else {
      var at := if interval < 0.0 then 0.5 else (interval * 10.0 + 1.0) / 2.0;
      TrickWorks(c, k, interval, at);
      GainAdds(0.0, 0.0, c.qps);
      GainGrows(at, 1.0, c.qps);
    }
  }

  /** The same interval decides whether sweeping can be observed at all. */
  lemma UnobservedIff(c: Config, k: string, interval: real)
    requires c.qps > 0 && c.maxBuckets > 0 && k !in c.whitelisted
    ensures Unobserved(c, k, interval) <==> interval * 10.0 >= 1.0
  {
    if interval * 10.0 >= 1.0 {
      forall es | Run(es, interval) && RoomFor(c, START, es, k)
        ensures AnswersTo(c, START, es, k) == AloneAnswers(c, None, es, k)
      {
        SweepingUnobserved(c, START, None, es, k, 0.0);
      }
    } else {
      var at := if interval < 0.0 then 0.5 else (interval * 10.0 + 1.0) / 2.0;
      TrickWorks(c, k, interval, at);
    }
  }
}
