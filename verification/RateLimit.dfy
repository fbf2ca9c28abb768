/** Token buckets with garbage collection, and the auth failure cooldown
    (packages/gateway/src/rate-limit.ts). Times are milliseconds. */
module RateLimit {

  datatype RateConfig = RateConfig(maxTokens: nat, refillRate: nat, windowMs: nat)

  const REST_RATE := RateConfig(100, 10, 1000)
  const AUTH_RATE := RateConfig(20, 2, 1000)
  const WS_CONNECT_RATE := RateConfig(10, 1, 1000)
  const BUCKET_TTL_MS: int := 300_000
  const AUTH_FAILURE_THRESHOLD := 5
  const AUTH_COOLDOWN_MS := 60_000

  datatype Bucket = Bucket(tokens: int, lastRefill: int)
  type Buckets = map<string, Bucket>

  ghost predicate ValidConfig(config: RateConfig) { config.maxTokens > 0 && config.windowMs > 0 }

  /* ----------------------------- one table, as a value ----------------------------- */

  function Refill(bucket: Bucket, config: RateConfig, now: int): int
    requires config.windowMs > 0
  {
    (now - bucket.lastRefill) / config.windowMs * config.refillRate
  }

  function Refilled(bucket: Bucket, config: RateConfig, now: int): Bucket
    requires config.windowMs > 0
  {
    var refill := Refill(bucket, config, now);
    if refill <= 0 then bucket
    else Bucket(if bucket.tokens + refill < config.maxTokens then bucket.tokens + refill else config.maxTokens, now)
  }

  function Spent(bucket: Bucket): Bucket {
    if bucket.tokens > 0 then bucket.(tokens := bucket.tokens - 1) else bucket
  }

  /** Is a request for `key` admitted? */
  function Admits(buckets: Buckets, config: RateConfig, key: string, now: int): bool
    requires config.windowMs > 0
  {
    key in buckets ==> Refilled(buckets[key], config, now).tokens > 0
  }

  function Consumed(buckets: Buckets, config: RateConfig, key: string, now: int): Buckets
    requires config.windowMs > 0
  {
    if key !in buckets then buckets[key := Bucket(config.maxTokens - 1, now)]
    else
      buckets[key := Spent(Refilled(buckets[key], config, now))]
  }

  function Swept(buckets: Buckets, now: int): Buckets {
    map key | key in buckets && now - buckets[key].lastRefill <= BUCKET_TTL_MS :: buckets[key]
  }

  /* ----------------------------------- runs ----------------------------------- */

  datatype Op = Request(key: string, now: int) | Cleanup(now: int)

  function Next(buckets: Buckets, config: RateConfig, op: Op): Buckets
    requires config.windowMs > 0
  {
    match op
    case Request(key, now) => Consumed(buckets, config, key, now)
    case Cleanup(now) => Swept(buckets, now)
  }

  /** The answers given to the requests of a run, in order. */
  function Answers(buckets: Buckets, config: RateConfig, ops: seq<Op>): seq<bool>
    requires config.windowMs > 0
    decreases |ops|
  {
    if ops == [] then []
    else
      (match ops[0] case Request(key, now) => [Admits(buckets, config, key, now)] case Cleanup(_) => [])
      + Answers(Next(buckets, config, ops[0]), config, ops[1..])
  }

  function After(buckets: Buckets, config: RateConfig, ops: seq<Op>): Buckets
    requires config.windowMs > 0
    decreases |ops|
  {
    if ops == [] then buckets else After(Next(buckets, config, ops[0]), config, ops[1..])
  }

  /** The same requests for a limiter that never deletes a bucket. */
  function Requests(ops: seq<Op>): seq<Op> {
    if ops == [] then []
    else if ops[0].Cleanup? then Requests(ops[1..])
    else [ops[0]] + Requests(ops[1..])
  }

  ghost predicate Monotone(from: int, ops: seq<Op>)
    decreases |ops|
  {
    ops == [] || (from <= ops[0].now && Monotone(ops[0].now, ops[1..]))
  }

  /** Tokens stay within [0, maxTokens] and no refill lies in the future. */
  ghost predicate Sound(buckets: Buckets, config: RateConfig, now: int) {
    forall key :: key in buckets ==> 0 <= buckets[key].tokens <= config.maxTokens && buckets[key].lastRefill <= now
  }

  lemma {:induction false} TokensStayInRange(buckets: Buckets, config: RateConfig, ops: seq<Op>, from: int, to: int)
    requires ValidConfig(config) && Sound(buckets, config, from) && Monotone(from, ops)
    requires from <= to && forall i :: 0 <= i < |ops| ==> ops[i].now <= to
    ensures Sound(After(buckets, config, ops), config, to)
    decreases |ops|
  {
    if ops != [] {
      TokensStayInRange(Next(buckets, config, ops[0]), config, ops[1..], ops[0].now, to);
    }
  }

  /* --------------------------- cleanup is invisible --------------------------- */

  /** A bucket older than the TTL would refill completely. */
  ghost predicate RefillsWithinTtl(config: RateConfig)
    requires config.windowMs > 0
  {
    (BUCKET_TTL_MS + 1) / config.windowMs * config.refillRate >= config.maxTokens
  }

  /** `collected` is `kept` without some buckets that were idle for more than the TTL. */
  ghost predicate Simulates(collected: Buckets, kept: Buckets, config: RateConfig, now: int) {
    && Sound(kept, config, now)
    && (forall key :: key in collected ==> key in kept && collected[key] == kept[key])
    && (forall key :: key in kept && key !in collected ==> now - kept[key].lastRefill > BUCKET_TTL_MS)
  }

  lemma IdleBucketIsFull(bucket: Bucket, config: RateConfig, now: int)
    requires ValidConfig(config) && RefillsWithinTtl(config)
    requires 0 <= bucket.tokens && now - bucket.lastRefill > BUCKET_TTL_MS
    ensures Refilled(bucket, config, now) == Bucket(config.maxTokens, now)
  {
    DivideMonotone(BUCKET_TTL_MS + 1, now - bucket.lastRefill, config.windowMs);
    TimesMonotone((BUCKET_TTL_MS + 1) / config.windowMs, (now - bucket.lastRefill) / config.windowMs,
      config.refillRate);
  }

  lemma DivideMonotone(x: int, y: int, d: int)
    requires x <= y && d > 0
    ensures x / d <= y / d
  {
    assert x == d * (x / d) + x % d && y == d * (y / d) + y % d;
    if x / d > y / d {
      StepUp(y / d, x / d, d);
    }
  }

  lemma StepUp(a: int, b: int, d: int)
    requires a < b && d > 0
    ensures d * a + d <= d * b
  {
    TimesMonotone(a + 1, b, d);
  }

  lemma TimesMonotone(x: int, y: int, k: int)
    requires x <= y && 0 <= k
    ensures x * k <= y * k
  {
  }

  lemma RequestKeepsSimulation(collected: Buckets, kept: Buckets, config: RateConfig, from: int, key: string, now: int)
    requires ValidConfig(config) && RefillsWithinTtl(config)
    requires Simulates(collected, kept, config, from) && from <= now
    ensures Admits(collected, config, key, now) == Admits(kept, config, key, now)
    ensures Simulates(Consumed(collected, config, key, now), Consumed(kept, config, key, now), config, now)
  {
    if key in kept && key !in collected {
      IdleBucketIsFull(kept[key], config, now);
    }
  }

  lemma {:induction false} SimulationGivesSameAnswers(collected: Buckets, kept: Buckets, config: RateConfig,
                                                      from: int, ops: seq<Op>)
    requires ValidConfig(config) && RefillsWithinTtl(config)
    requires Simulates(collected, kept, config, from) && Monotone(from, ops)
    ensures Answers(collected, config, ops) == Answers(kept, config, Requests(ops))
    decreases |ops|
  {
    if ops != [] {
      var rest := ops[1..];
      match ops[0] {
        case Request(key, now) =>
          RequestKeepsSimulation(collected, kept, config, from, key, now);
          SimulationGivesSameAnswers(Next(collected, config, ops[0]), Next(kept, config, ops[0]), config, now, rest);
          assert ([ops[0]] + Requests(rest))[1..] == Requests(rest);
        case Cleanup(now) =>
          assert [] + Answers(Next(collected, config, ops[0]), config, rest)
              == Answers(Next(collected, config, ops[0]), config, rest);
          SimulationGivesSameAnswers(Swept(collected, now), kept, config, now, rest);
      }
    }
  }

  /** In every run the answers are those of a limiter that never deletes a bucket. */
  ghost predicate CleanupInvisible(config: RateConfig)
    requires config.windowMs > 0
  {
    forall from, ops :: Monotone(from, ops) ==>
      Answers(map[], config, ops) == Answers(map[], config, Requests(ops))
  }

  lemma RefillMakesCleanupInvisible(config: RateConfig)
    requires ValidConfig(config) && RefillsWithinTtl(config)
    ensures CleanupInvisible(config)
  {
    forall from, ops | Monotone(from, ops)
      ensures Answers(map[], config, ops) == Answers(map[], config, Requests(ops))
    {
      SimulationGivesSameAnswers(map[], map[], config, from, ops);
    }
  }

  /** The three rates in use. */
  lemma CleanupInvisibleForAllRates()
    ensures CleanupInvisible(REST_RATE) && CleanupInvisible(AUTH_RATE) && CleanupInvisible(WS_CONNECT_RATE)
  {
    RefillMakesCleanupInvisible(REST_RATE);
    RefillMakesCleanupInvisible(AUTH_RATE);
    RefillMakesCleanupInvisible(WS_CONNECT_RATE);
  }

  /* ----- and only then: a config that refills too slowly shows its cleanups ----- */

  function Burst(key: string, now: int, n: nat): seq<Op> {
    if n == 0 then [] else [Request(key, now)] + Burst(key, now, n - 1)
  }

  /** Requests that would be admitted for `key` at one instant. */
  function Available(buckets: Buckets, config: RateConfig, key: string, now: int): int
    requires config.windowMs > 0
  {
    if key in buckets then Refilled(buckets[key], config, now).tokens else config.maxTokens
  }

  lemma OneRequestUsesOneToken(buckets: Buckets, config: RateConfig, key: string, now: int)
    requires ValidConfig(config) && Sound(buckets, config, now)
    ensures var available := Available(buckets, config, key, now);
            && 0 <= available <= config.maxTokens
            && (Admits(buckets, config, key, now) <==> available > 0)
            && Available(Consumed(buckets, config, key, now), config, key, now)
               == (if available > 0 then available - 1 else 0)
  {
  }

  /** A burst at one instant is admitted up to the available tokens, and no further. */
  lemma {:induction false} BurstAnswers(buckets: Buckets, config: RateConfig, key: string, now: int, n: nat)
    requires ValidConfig(config) && Sound(buckets, config, now)
    ensures var answers := Answers(buckets, config, Burst(key, now, n));
            |answers| == n && forall k :: 0 <= k < n ==> (answers[k] <==> k < Available(buckets, config, key, now))
    ensures Sound(After(buckets, config, Burst(key, now, n)), config, now)
    ensures Available(After(buckets, config, Burst(key, now, n)), config, key, now)
         == (if n <= Available(buckets, config, key, now) then Available(buckets, config, key, now) - n else 0)
    decreases n
  {
    OneRequestUsesOneToken(buckets, config, key, now);
    if n > 0 {
      var ops := Burst(key, now, n);
      assert ops[1..] == Burst(key, now, n - 1);
      BurstAnswers(Next(buckets, config, ops[0]), config, key, now, n - 1);
    }
  }

  ghost predicate WholeWindows(span: int, windowMs: nat, windows: nat) {
    windows * windowMs <= span < windows * windowMs + windowMs
  }

  /** What a bucket has earned: the refill for each whole window since its last refill. */
  ghost predicate Earned(b: Bucket, config: RateConfig, now: int, tokens: int) {
    exists windows: nat ::
      WholeWindows(now - b.lastRefill, config.windowMs, windows) && tokens == windows * config.refillRate
  }

  /** The bucket's tokens and the first refill that is due make what a burst can have, up to the
      maximum; a refill forfeits the rest of its window, without one the windows go on counting. */
  ghost predicate Metered(buckets: Buckets, config: RateConfig, key: string, now: int, n: nat, answers: seq<bool>,
                          after: Buckets, earned: int)
  {
    var had := if key in buckets then buckets[key].tokens else config.maxTokens;
    var available := if had + earned < config.maxTokens then had + earned else config.maxTokens;
    && |answers| == n && (forall k :: 0 <= k < n ==> (answers[k] <==> k < available))
    && after.Keys == buckets.Keys + {key} && (forall other :: other in buckets && other != key ==>
                                               after[other] == buckets[other])
    && after[key].tokens == (if n < available then available - n else 0)
    && after[key].lastRefill == (if key in buckets && earned == 0 then buckets[key].lastRefill else now)
  }

  lemma RefillIsEarned(b: Bucket, config: RateConfig, now: int)
    requires ValidConfig(config) && b.lastRefill <= now
    ensures Earned(b, config, now, Refill(b, config, now)) && Refill(b, config, now) >= 0
  {
    var windows := (now - b.lastRefill) / config.windowMs;
    DivideMonotone(0, now - b.lastRefill, config.windowMs);
    TimesMonotone(0, windows, config.refillRate);
    assert now - b.lastRefill == windows * config.windowMs + (now - b.lastRefill) % config.windowMs;
    assert WholeWindows(now - b.lastRefill, config.windowMs, windows);
  }

  lemma OneRequestIsMetered(buckets: Buckets, config: RateConfig, key: string, now: int, earned: int)
    requires ValidConfig(config) && Sound(buckets, config, now)
    requires earned == if key in buckets then Refill(buckets[key], config, now) else 0
    ensures earned >= 0 && Metered(buckets, config, key, now, 1,
      [Admits(buckets, config, key, now)], Consumed(buckets, config, key, now), earned)
    ensures Refill(Consumed(buckets, config, key, now)[key], config, now) == 0
    ensures Sound(Consumed(buckets, config, key, now), config, now)
  {
    if key in buckets {
      RefillIsEarned(buckets[key], config, now);
    }
    assert 0 / config.windowMs == 0;
  }

  lemma MoreAreMetered(buckets: Buckets, config: RateConfig, key: string, now: int, n: nat, first: bool, next: Buckets,
                       answers: seq<bool>, after: Buckets, earned: nat)
    requires ValidConfig(config) && Sound(buckets, config, now)
    requires Metered(buckets, config, key, now, 1, [first], next, earned)
    requires Metered(next, config, key, now, n, answers, after, 0)
    ensures Metered(buckets, config, key, now, n + 1, [first] + answers, after, earned)
  {
  }

  lemma {:induction false} BurstFromBucket(buckets: Buckets, config: RateConfig, key: string, now: int, n: nat,
                                           earned: int)
    requires ValidConfig(config) && Sound(buckets, config, now) && n > 0
    requires earned == if key in buckets then Refill(buckets[key], config, now) else 0
    ensures Metered(buckets, config, key, now, n, Answers(buckets, config, Burst(key, now, n)),
      After(buckets, config, Burst(key, now, n)), earned)
    decreases n
  {
    var ops, next := Burst(key, now, n), Consumed(buckets, config, key, now);
    var first := Admits(buckets, config, key, now);
    OneRequestIsMetered(buckets, config, key, now, earned);
    assert ops[0] == Request(key, now) && ops[1..] == Burst(key, now, n - 1);
    assert Answers(buckets, config, ops) == [first] + Answers(next, config, ops[1..]);
    if n == 1 {
      assert Answers(next, config, ops[1..]) == [];
      assert [first] + [] == [first];
    } else {
      BurstFromBucket(next, config, key, now, n - 1, 0);
      MoreAreMetered(buckets, config, key, now, n - 1, first, next,
        Answers(next, config, ops[1..]), After(next, config, ops[1..]), earned);
    }
  }

  /** A burst at one instant, whatever happened before, in terms of the bucket alone. */
  lemma BurstIsMetered(buckets: Buckets, config: RateConfig, key: string, now: int, n: nat) returns (earned: int)
    requires ValidConfig(config) && Sound(buckets, config, now) && n > 0
    ensures if key in buckets then Earned(buckets[key], config, now, earned) else earned == 0
    ensures Metered(buckets, config, key, now, n, Answers(buckets, config, Burst(key, now, n)),
      After(buckets, config, Burst(key, now, n)), earned)
  {
    earned := if key in buckets then Refill(buckets[key], config, now) else 0;
    if key in buckets {
      RefillIsEarned(buckets[key], config, now);
    }
    BurstFromBucket(buckets, config, key, now, n, earned);
  }

  lemma {:induction false} AnswersAppend(buckets: Buckets, config: RateConfig, a: seq<Op>, b: seq<Op>)
    requires config.windowMs > 0
    ensures Answers(buckets, config, a + b)
      == Answers(buckets, config, a) + Answers(After(buckets, config, a), config, b)
    ensures After(buckets, config, a + b) == After(After(buckets, config, a), config, b)
    decreases |a|
  {
    if a == [] {
      assert a + b == b;
    } else {
      AnswersAppend(Next(buckets, config, a[0]), config, a[1..], b);
      assert (a + b)[1..] == a[1..] + b;
    }
  }

  /** Drains a bucket, lets it expire, and drains it again. */
  function SlowRefillRun(config: RateConfig): seq<Op> {
    var n, later := config.maxTokens, BUCKET_TTL_MS + 1;
    Burst("k", 0, n) + ([Cleanup(later)] + Burst("k", later, n))
  }

  lemma {:induction false} BurstIsMonotone(from: int, key: string, now: int, n: nat, rest: seq<Op>)
    requires from <= now && Monotone(now, rest)
    ensures Monotone(from, Burst(key, now, n) + rest)
    decreases n
  {
    if n == 0 {
      assert Burst(key, now, n) + rest == rest;
    } else {
      BurstIsMonotone(now, key, now, n - 1, rest);
      assert (Burst(key, now, n) + rest)[1..] == Burst(key, now, n - 1) + rest;
    }
  }

  lemma {:induction false} RequestsOfBurst(key: string, now: int, n: nat, rest: seq<Op>)
    ensures Requests(Burst(key, now, n) + rest) == Burst(key, now, n) + Requests(rest)
    decreases n
  {
    if n == 0 {
      assert Burst(key, now, n) + rest == rest;
    } else {
      var one, fewer := [Request(key, now)], Burst(key, now, n - 1);
      RequestsOfBurst(key, now, n - 1, rest);
      assert one + fewer + rest == one + (fewer + rest);
      assert (one + (fewer + rest))[1..] == fewer + rest;
      assert one + fewer + Requests(rest) == one + (fewer + Requests(rest));
    }
  }

  /** After a bucket was drained at time 0, this many requests are admitted at `now`. */
  lemma RefillAfterDrain(config: RateConfig, now: int)
    requires ValidConfig(config) && now >= 0
    ensures var drained := After(map[], config, Burst("k", 0, config.maxTokens));
            && Sound(drained, config, 0) && "k" in drained && drained["k"] == Bucket(0, 0)
            && Available(drained, config, "k", now)
               == (if now / config.windowMs * config.refillRate < config.maxTokens
                   then now / config.windowMs * config.refillRate else config.maxTokens)
  {
    var n := config.maxTokens;
    BurstAnswers(map[], config, "k", 0, n);
    DrainedBucket(map[], config, 0, n);
    DivideMonotone(0, now, config.windowMs);
    TimesMonotone(0, now / config.windowMs, config.refillRate);
  }

  lemma {:induction false} DrainedBucket(buckets: Buckets, config: RateConfig, now: int, n: nat)
    requires ValidConfig(config) && n > 0
    requires "k" in buckets ==> buckets["k"].lastRefill == now
    ensures var after := After(buckets, config, Burst("k", now, n));
            "k" in after && after["k"].lastRefill == now
    decreases n
  {
    var ops := Burst("k", now, n);
    assert ops[1..] == Burst("k", now, n - 1);
    if n > 1 {
      DrainedBucket(Next(buckets, config, ops[0]), config, now, n - 1);
    } else {
      assert After(Next(buckets, config, ops[0]), config, ops[1..]) == Next(buckets, config, ops[0]);
    }
  }

  lemma SamePrefix<T>(p: seq<T>, a: seq<T>, b: seq<T>)
    ensures p + a == p + b ==> a == b
  {
    assert (p + a)[|p|..] == a && (p + b)[|p|..] == b;
  }

  lemma SlowRefillShowsCleanup(config: RateConfig)
    requires ValidConfig(config) && !RefillsWithinTtl(config)
    ensures !CleanupInvisible(config)
  {
    var n, later := config.maxTokens, BUCKET_TTL_MS + 1;
    var first, second := Burst("k", 0, n), Burst("k", later, n);
    var ops := SlowRefillRun(config);
    BurstIsMonotone(later, "k", later, n, []);
    assert second + [] == second && ([Cleanup(later)] + second)[1..] == second;
    BurstIsMonotone(0, "k", 0, n, [Cleanup(later)] + second);
    RequestsOfBurst("k", 0, n, [Cleanup(later)] + second);
    RequestsOfBurst("k", later, n, []);
    assert Requests(ops) == first + second;
    RefillAfterDrain(config, later);
    var drained := After(map[], config, first);
    AnswersAppend(map[], config, first, [Cleanup(later)] + second);
    AnswersAppend(map[], config, first, second);
    assert Answers(drained, config, [Cleanup(later)] + second)
        == Answers(Swept(drained, later), config, second);
    assert "k" !in Swept(drained, later);
    BurstAnswers(Swept(drained, later), config, "k", later, n);
    BurstAnswers(drained, config, "k", later, n);
    assert Answers(drained, config, second)[n - 1] != Answers(Swept(drained, later), config, second)[n - 1];
    SamePrefix(Answers(map[], config, first), Answers(drained, config, second),
               Answers(Swept(drained, later), config, second));
    assert Monotone(0, ops) && Answers(map[], config, ops) != Answers(map[], config, Requests(ops));
  }

  /** Exactly when garbage collection cannot be observed: when a bucket idle for longer than
      the TTL refills completely. */
  lemma CleanupInvisibleIff(config: RateConfig)
    requires ValidConfig(config)
    ensures CleanupInvisible(config) <==> RefillsWithinTtl(config)
  {
    if RefillsWithinTtl(config) {
      RefillMakesCleanupInvisible(config);
    } else {
      SlowRefillShowsCleanup(config);
    }
  }

  /* ----------------------------- the admission bound ----------------------------- */

  /** Admitted requests of one key in a run without cleanups. */
  ghost function Admitted(buckets: Buckets, config: RateConfig, key: string, ops: seq<Op>): nat
    requires config.windowMs > 0
    decreases |ops|
  {
    if ops == [] then 0
    else
      (if ops[0].Request? && ops[0].key == key && Admits(buckets, config, key, ops[0].now) then 1 else 0)
      + Admitted(Next(buckets, config, ops[0]), config, key, ops[1..])
  }

  ghost predicate Within(ops: seq<Op>, from: int, to: int) {
    Monotone(from, ops) && forall i :: 0 <= i < |ops| ==> ops[i].Request? && ops[i].now <= to
  }

  lemma WithinRest(ops: seq<Op>, from: int, to: int)
    requires Within(ops, from, to) && ops != []
    ensures from <= ops[0].now <= to && Within(ops[1..], ops[0].now, to)
  {
  }

  lemma DividePieces(a: int, b: int, d: int)
    requires d > 0
    ensures a / d + b / d <= (a + b) / d
  {
    assert a == d * (a / d) + a % d && b == d * (b / d) + b % d;
    assert a + b == d * ((a + b) / d) + (a + b) % d;
    var s := a / d + b / d;
    assert d * s == d * (a / d) + d * (b / d);
    if s > (a + b) / d {
      StepUp((a + b) / d, s, d);
    }
  }

  /** A bucket admits at most its tokens plus what whole windows can refill. */
  lemma {:induction false} AdmittedFromBucket(buckets: Buckets, config: RateConfig, key: string, ops: seq<Op>,
                                              from: int, to: int)
    requires ValidConfig(config) && Sound(buckets, config, from) && Within(ops, from, to) && from <= to
    requires key in buckets
    ensures Admitted(buckets, config, key, ops)
         <= buckets[key].tokens + (to - buckets[key].lastRefill) / config.windowMs * config.refillRate
    decreases |ops|
  {
    var b, w, r := buckets[key], config.windowMs, config.refillRate;
    DivideMonotone(0, to - b.lastRefill, w);
    TimesMonotone(0, (to - b.lastRefill) / w, r);
    if ops != [] {
      var op, rest := ops[0], ops[1..];
      var now := op.now;
      WithinRest(ops, from, to);
      var next := Next(buckets, config, op);
      AdmittedFromBucket(next, config, key, rest, now, to);
      if op.key == key {
        DividePieces(now - b.lastRefill, to - now, w);
        TimesMonotone((now - b.lastRefill) / w + (to - now) / w, (to - b.lastRefill) / w, r);
        Distribute((now - b.lastRefill) / w, (to - now) / w, r);
      }
    }
  }

  lemma Distribute(a: int, b: int, r: int)
    ensures (a + b) * r == a * r + b * r
  {
  }

  /** Windows that a span of `span` milliseconds can touch: its quotient rounded up. */
  function WindowsIn(span: nat, windowMs: nat): nat
    requires windowMs > 0
  {
    (span + windowMs - 1) / windowMs
  }

  /** Over any stretch of time [from, to], whatever happened before, a key is admitted at most
      `maxTokens` times plus one refill for every window the stretch can touch. */
  lemma {:induction false} AdmittedInWindow(buckets: Buckets, config: RateConfig, key: string, ops: seq<Op>,
                                            start: int, from: int, to: int)
    requires ValidConfig(config) && Sound(buckets, config, from) && Within(ops, from, to) && start <= from <= to
    ensures Admitted(buckets, config, key, ops)
         <= config.maxTokens + WindowsIn(to - start, config.windowMs) * config.refillRate
    decreases |ops|
  {
    var w, r := config.windowMs, config.refillRate;
    DivideMonotone(0, to - start + w - 1, w);
    TimesMonotone(0, WindowsIn(to - start, w), r);
    if ops != [] {
      var op, rest, now := ops[0], ops[1..], ops[0].now;
      WithinRest(ops, from, to);
      var next := Next(buckets, config, op);
      if op.key != key {
        AdmittedInWindow(next, config, key, rest, start, now, to);
      } else if key !in buckets || Refill(buckets[key], config, now) > 0 {
        AdmittedFromBucket(next, config, key, rest, now, to);
        DivideMonotone(to - now, to - start + w - 1, w);
        TimesMonotone((to - now) / w, WindowsIn(to - start, w), r);
      } else {
        AdmittedFromBucket(buckets, config, key, ops, from, to);
        NothingToRefill(buckets[key], config, now, start, to);
      }
    }
  }

  /** A bucket with nothing to refill yet is less than a window old, or never refills. */
  lemma NothingToRefill(b: Bucket, config: RateConfig, now: int, start: int, to: int)
    requires ValidConfig(config) && b.lastRefill <= now && start <= now <= to
    requires Refill(b, config, now) <= 0
    ensures (to - b.lastRefill) / config.windowMs * config.refillRate
         <= WindowsIn(to - start, config.windowMs) * config.refillRate
  {
    var w, r := config.windowMs, config.refillRate;
    if r > 0 {
      if now - b.lastRefill >= w {
        DivideMonotone(w, now - b.lastRefill, w);
        assert w / w == 1;
        TimesMonotone(1, (now - b.lastRefill) / w, r);
        assert false;
      }
      DivideMonotone(to - b.lastRefill, to - start + w - 1, w);
      TimesMonotone((to - b.lastRefill) / w, WindowsIn(to - start, w), r);
    }
  }

  lemma {:induction false} SimulationSurvives(collected: Buckets, kept: Buckets, config: RateConfig, key: string,
                                              from: int, to: int, ops: seq<Op>)
    requires ValidConfig(config) && RefillsWithinTtl(config)
    requires Simulates(collected, kept, config, from) && Monotone(from, ops)
    requires from <= to && forall i :: 0 <= i < |ops| ==> ops[i].now <= to
    ensures Simulates(After(collected, config, ops), After(kept, config, Requests(ops)), config, to)
    ensures Admitted(collected, config, key, ops) == Admitted(kept, config, key, Requests(ops))
    ensures Within(Requests(ops), from, to)
    decreases |ops|
  {
    if ops != [] {
      var op, rest := ops[0], ops[1..];
      match op {
        case Request(k, now) =>
          RequestKeepsSimulation(collected, kept, config, from, k, now);
          SimulationSurvives(Next(collected, config, op), Next(kept, config, op), config, key, now, to, rest);
          assert ([op] + Requests(rest))[1..] == Requests(rest);
        case Cleanup(now) =>
          SimulationSurvives(Swept(collected, now), kept, config, key, now, to, rest);
      }
    }
  }

  /** The admission bound for the limiter as it runs, garbage collection included: after any
      run `past`, over any stretch of time in which `ops` happens. */
  lemma AdmissionBound(config: RateConfig, key: string, past: seq<Op>, ops: seq<Op>, start: int, from: int, to: int)
    requires ValidConfig(config) && RefillsWithinTtl(config)
    requires Monotone(start, past) && (forall i :: 0 <= i < |past| ==> past[i].now <= from) && start <= from
    requires Monotone(from, ops) && (forall i :: 0 <= i < |ops| ==> ops[i].now <= to) && from <= to
    ensures Admitted(After(map[], config, past), config, key, ops)
         <= config.maxTokens + WindowsIn(to - from, config.windowMs) * config.refillRate
  {
    SimulationSurvives(map[], map[], config, key, start, from, past);
    var collected, kept := After(map[], config, past), After(map[], config, Requests(past));
    SimulationSurvives(collected, kept, config, key, from, to, ops);
    AdmittedInWindow(kept, config, key, Requests(ops), from, from, to);
  }

  /* ----------------------------- the mutable tables ----------------------------- */

  class TokenBucket {
    var tokens: int
    var lastRefill: int

    constructor (tokens: int, lastRefill: int)
      ensures this.tokens == tokens && this.lastRefill == lastRefill
    {
      this.tokens, this.lastRefill := tokens, lastRefill;
    }

    ghost function Value(): Bucket
      reads this
    {
      Bucket(tokens, lastRefill)
    }

    /** Refills, then takes a token if there is one. */
    method Take(config: RateConfig, now: int) returns (taken: bool)
      requires config.windowMs > 0
      modifies this
      ensures taken <==> Refilled(old(Value()), config, now).tokens > 0
      ensures Value() == Spent(Refilled(old(Value()), config, now))
    {
      var elapsed := now - lastRefill;
      var refill := elapsed / config.windowMs * config.refillRate;
      if refill > 0 {
        tokens := if tokens + refill < config.maxTokens then tokens + refill else config.maxTokens;
        lastRefill := now;
      }
      taken := tokens > 0;
      if taken {
        tokens := tokens - 1;
      }
    }
  }

  /** One of the module's bucket maps. */
  class BucketTable {
    var buckets: map<string, TokenBucket>

    /** No two keys share a bucket object. */
    ghost predicate Valid()
      reads this
    {
      forall k, l :: k in buckets && l in buckets && k != l ==> buckets[k] != buckets[l]
    }

    ghost function Table(): Buckets
      reads this, buckets.Values
    {
      map k | k in buckets :: buckets[k].Value()
    }

    constructor ()
      ensures Valid() && Table() == map[] && buckets == map[]
    {
      buckets := map[];
    }

    method TryConsume(key: string, config: RateConfig, now: int) returns (allowed: bool)
      requires Valid() && config.windowMs > 0
      modifies this, buckets.Values
      ensures Valid() && fresh(buckets.Values - old(buckets.Values))
      ensures allowed == Admits(old(Table()), config, key, now)
      ensures Table() == Consumed(old(Table()), config, key, now)
    {
      if key !in buckets {
        var bucket := new TokenBucket(config.maxTokens - 1, now);
        buckets := buckets[key := bucket];
        return true;
      }
      allowed := buckets[key].Take(config, now);
    }

    /** The part of the cleanup that deals with this table. */
    method Sweep(now: int)
      requires Valid()
      modifies this
      ensures Valid() && buckets.Values <= old(buckets.Values)
      ensures Table() == Swept(old(Table()), now)
    {
      var keys := buckets.Keys;
      ghost var before := Table();
      ghost var objects := buckets;
      while keys != {}
        invariant buckets.Keys <= objects.Keys && forall k :: k in buckets ==> buckets[k] == objects[k]
        invariant forall k :: k in objects && k !in buckets ==> now - before[k].lastRefill > BUCKET_TTL_MS
        invariant forall k :: k in buckets && k !in keys ==> now - before[k].lastRefill <= BUCKET_TTL_MS
        decreases keys
      {
        var key :| key in keys;
        keys := keys - {key};
        if key in buckets && now - buckets[key].lastRefill > BUCKET_TTL_MS {
          buckets := buckets - {key};
        }
      }
    }
  }

  class AuthTracker {
    var failures: nat
    var cooldownUntil: int

    constructor ()
      ensures failures == 0 && cooldownUntil == 0
    {
      failures, cooldownUntil := 0, 0;
    }
  }

  /** The failure trackers of the auth endpoint and its bucket table. */
  class AuthLimiter {
    const table: BucketTable
    var trackers: map<string, AuthTracker>

    ghost predicate Valid()
      reads this, table
    {
      table.Valid() && forall k, l :: k in trackers && l in trackers && k != l ==> trackers[k] != trackers[l]
    }

    /** Every tracker in the map has counted a failure. */
    ghost predicate AllCounted()
      reads this, trackers.Values
    {
      forall k :: k in trackers ==> trackers[k].failures > 0
    }

    ghost predicate CoolingDown(ip: string, now: int)
      reads this, trackers.Values
    {
      ip in trackers && now < trackers[ip].cooldownUntil
    }

    constructor ()
      ensures Valid() && AllCounted() && trackers == map[] && fresh(table) && table.Table() == map[]
        && table.buckets == map[]
    {
      table := new BucketTable();
      trackers := map[];
    }

    /** Refuses during a cooldown, without spending a token; otherwise asks the bucket. */
    method RateLimitAuth(ip: string, now: int) returns (allowed: bool)
      requires Valid()
      modifies table, table.buckets.Values
      ensures Valid() && trackers == old(trackers)
      ensures forall k :: k in trackers ==> unchanged(trackers[k])
      ensures old(CoolingDown(ip, now)) ==> !allowed && table.Table() == old(table.Table())
      ensures !old(CoolingDown(ip, now)) ==>
        allowed == Admits(old(table.Table()), AUTH_RATE, ip, now)
        && table.Table() == Consumed(old(table.Table()), AUTH_RATE, ip, now)
    {
      if ip in trackers && now < trackers[ip].cooldownUntil { return false; }
      allowed := table.TryConsume(ip, AUTH_RATE, now);
    }

    /** Counts one more failure; from the fifth on, each one starts a full cooldown. */
    method RecordAuthFailure(ip: string, now: int)
      requires Valid()
      modifies this, trackers.Values
      ensures Valid() && (old(AllCounted()) ==> AllCounted())
      ensures trackers.Keys == old(trackers.Keys) + {ip}
      ensures trackers[ip].failures == (if ip in old(trackers) then old(trackers[ip].failures) else 0) + 1
      ensures trackers[ip].cooldownUntil ==
        (if trackers[ip].failures >= AUTH_FAILURE_THRESHOLD then now + AUTH_COOLDOWN_MS
         else if ip in old(trackers) then old(trackers[ip].cooldownUntil) else 0)
      ensures forall k :: k in old(trackers) && k != ip ==> trackers[k] == old(trackers)[k] && unchanged(trackers[k])
    {
      if ip !in trackers {
        var tracker := new AuthTracker();
        trackers := trackers[ip := tracker];
      }
      var tracker := trackers[ip];
      tracker.failures := tracker.failures + 1;
      if tracker.failures >= AUTH_FAILURE_THRESHOLD {
        tracker.cooldownUntil := now + AUTH_COOLDOWN_MS;
      }
    }

    method ResetAuthFailures(ip: string)
      requires Valid()
      modifies this
      ensures Valid() && (old(AllCounted()) ==> AllCounted())
      ensures trackers == old(trackers) - {ip}
    {
      trackers := trackers - {ip};
    }

    /** The tracker half of the cleanup deletes trackers that count no failure. No operation
        leaves such a tracker in the map, so it never deletes anything. */
    method CleanupTrackers(now: int)
      requires Valid()
      modifies this
      ensures Valid()
      ensures trackers == map k | k in old(trackers)
        && !(now > old(trackers)[k].cooldownUntil && old(trackers)[k].failures == 0) :: old(trackers)[k]
      ensures old(AllCounted()) ==> trackers == old(trackers) && AllCounted()
    {
      var keys := trackers.Keys;
      ghost var before := trackers;
      while keys != {}
        invariant forall k :: k in trackers ==> k in before && trackers[k] == before[k]
        invariant forall k :: k in before && k !in trackers ==> now > before[k].cooldownUntil && before[k].failures == 0
        invariant forall k :: k in trackers && k !in keys ==>
          !(now > before[k].cooldownUntil && before[k].failures == 0)
        decreases keys
      {
        var key :| key in keys;
        keys := keys - {key};
        if key in trackers && now > trackers[key].cooldownUntil && trackers[key].failures == 0 {
          trackers := trackers - {key};
        }
      }
    }
  }
}
