/** Port binding with bounded retries (packages/gateway/src/bind-retry.ts). Times are
    milliseconds since the call. */
module BindRetry {
  import opened Basics

  datatype Listen = Listening | AddressInUse | OtherError(code: string)

  datatype Options = Options(totalBudgetMs: int, initialDelayMs: nat, maxDelayMs: nat)

  /** What the outside does: the outcome and duration of each listen call, how much longer than
      asked each timer takes, and when (if ever) the abort signal fires. Numbered from 1. */
  datatype World = World(
    outcome: nat -> Listen, listenMs: nat -> nat, oversleepMs: nat -> nat, abortAt: Option<nat>)

  datatype Retry = Retry(attempt: nat, delayMs: int, elapsedMs: int)

  datatype Reason = Shutdown | GiveUp | Fatal

  datatype Result =
    | Bound(attempts: nat, elapsedMs: int)
    | Failed(reason: Reason, attempts: nat, elapsedMs: int, lastErr: Option<Listen>)

  predicate Aborted(world: World, clock: nat) {
    world.abortAt.Some? && world.abortAt.value <= clock
  }

  function Min(x: int, y: int): int { if x < y then x else y }

  /** Delay after a failed attempt: doubling, capped, never past the budget. */
  function DelayAfter(options: Options, attempt: nat, elapsed: int): int
    requires attempt > 0
  {
    Min(Min(options.maxDelayMs, options.initialDelayMs * Pow2(attempt - 1)), options.totalBudgetMs - elapsed)
  }

  /** The clock after sleeping: cut short by an abort, otherwise at least the delay later. */
  function Wake(world: World, attempt: nat, clock: nat, delay: nat): nat {
    var planned := clock + delay + world.oversleepMs(attempt);
    if Aborted(world, clock) then clock
    else if Aborted(world, planned) then world.abortAt.value
    else planned
  }

  function TotalDelay(retries: seq<Retry>): int {
    if retries == [] then 0 else TotalDelay(retries[..|retries| - 1]) + retries[|retries| - 1].delayMs
  }

  function ShortestDelay(options: Options): nat {
    if options.initialDelayMs < options.maxDelayMs then options.initialDelayMs else options.maxDelayMs
  }

  /** Every round of the loop takes time: by its delay, or because calls and timers take some.
      Were neither so, the loop would spin until the clock moved. */
  ghost predicate RoundsTakeTime(options: Options, world: World) {
    ShortestDelay(options) > 0 || forall n: nat :: n > 0 ==> world.listenMs(n) + world.oversleepMs(n) > 0
  }

  /** The least time of a round. */
  function Pace(options: Options): (d: nat)
    ensures d > 0
  {
    if ShortestDelay(options) > 0 then ShortestDelay(options) else 1
  }

  lemma DelayAtLeastShortest(options: Options, attempt: nat, elapsed: int)
    requires attempt > 0
    ensures DelayAfter(options, attempt, elapsed) >= Min(ShortestDelay(options), options.totalBudgetMs - elapsed)
  {
    PowAtLeastOne(attempt - 1);
    assert options.initialDelayMs * Pow2(attempt - 1) >= options.initialDelayMs * 1;
  }

  lemma {:induction false} PowAtLeastOne(n: nat)
    ensures Pow2(n) >= 1
  {
    if n > 0 {
      PowAtLeastOne(n - 1);
    }
  }

  lemma AttemptsFromTime(n: int, d: nat, budget: int)
    requires d > 0 && n * d < budget
    ensures n <= budget / d
  {
    assert budget == d * (budget / d) + budget % d;
    if n > budget / d {
      AtLeastTimes(budget / d + 1, n, d);
    }
  }

  lemma AtLeastTimes(a: int, b: int, d: nat)
    requires a <= b
    ensures a * d <= b * d && (a + 1) * d == a * d + d
  {
  }

  /** What the observers have seen: a listen call per attempt, none after the abort could be
      seen, and a report with the prescribed delay before each sleep. */
  ghost predicate Orderly(options: Options, world: World, listens: seq<nat>, retries: seq<Retry>) {
    && (forall i :: 0 <= i < |listens| ==> !Aborted(world, listens[i]))
    && (forall i :: 0 <= i < |retries| ==>
          var r := retries[i];
          && r.attempt == i + 1 && r.delayMs == DelayAfter(options, i + 1, r.elapsedMs) && r.delayMs >= 0
          && (ShortestDelay(options) > 0 ==> r.delayMs > 0))
  }

  ghost predicate AllInUse(world: World, attempts: nat) {
    forall k :: 0 < k <= attempts ==> world.outcome(k).AddressInUse?
  }

  /** The reported reason is the true one. */
  ghost predicate Explained(options: Options, world: World, result: Result) {
    match result
    case Bound(attempts, _) =>
      attempts > 0 && AllInUse(world, attempts - 1) && world.outcome(attempts).Listening?
    case Failed(Fatal, attempts, _, lastErr) =>
      attempts > 0 && AllInUse(world, attempts - 1)
      && world.outcome(attempts).OtherError? && lastErr == Some(world.outcome(attempts))
    case Failed(GiveUp, attempts, elapsed, lastErr) =>
      attempts > 0 && AllInUse(world, attempts) && lastErr == Some(AddressInUse) && elapsed >= options.totalBudgetMs
    case Failed(Shutdown, attempts, elapsed, lastErr) =>
      AllInUse(world, attempts) && elapsed >= 0 && Aborted(world, elapsed)
      && lastErr == if attempts == 0 then None else Some(AddressInUse)
  }

  /** After `attempts` rounds: the sleeps before the last one were full ones inside the
      budget, and the clock accounts for them unless the abort cut the last one short. */
  ghost predicate OnSchedule(options: Options, world: World, attempts: nat, clock: nat, retries: seq<Retry>)
  {
    var d, budget := Pace(options), options.totalBudgetMs;
    && (attempts > 0 ==> (attempts - 1) * d < budget && TotalDelay(retries) <= budget)
    && (attempts == 0 ==> retries == [])
    && (!Aborted(world, clock) ==> (clock >= budget || attempts * d <= clock) && TotalDelay(retries) <= clock)
  }

  lemma RoundKeepsSchedule(options: Options, world: World, attempts: nat, clock: nat, retries: seq<Retry>,
                           failedAt: nat, report: Retry)
    requires OnSchedule(options, world, attempts, clock, retries) && !Aborted(world, clock)
    requires clock <= failedAt < options.totalBudgetMs
    requires report.delayMs == DelayAfter(options, attempts + 1, failedAt) && report.delayMs >= 0
    requires ShortestDelay(options) > 0 || failedAt + world.oversleepMs(attempts + 1) > clock
    ensures OnSchedule(options, world, attempts + 1, Wake(world, attempts + 1, failedAt, report.delayMs),
                       retries + [report])
  {
    DelayAtLeastShortest(options, attempts + 1, failedAt);
    AtLeastTimes(attempts, attempts, Pace(options));
    assert (retries + [report])[..|retries|] == retries;
  }

  /* ------------------------------- the account of a call ------------------------------- */

  /** The delay is the least of the cap, the initial delay doubled with every further attempt,
      and what is left of the budget. */
  ghost predicate BacksOff(options: Options, r: Retry, doubled: int) {
    && r.delayMs <= options.maxDelayMs && r.delayMs <= doubled && r.elapsedMs + r.delayMs <= options.totalBudgetMs
    && (r.delayMs == options.maxDelayMs || r.delayMs == doubled || r.elapsedMs + r.delayMs == options.totalBudgetMs)
  }

  function Doubled(delay: nat, times: nat): int {
    if times == 0 then delay else 2 * Doubled(delay, times - 1)
  }

  lemma {:induction false} DoubledIsTimes(delay: nat, times: nat)
    ensures Doubled(delay, times) == delay * Pow2(times)
  {
    if times > 0 {
      DoubledIsTimes(delay, times - 1);
    }
  }

  ghost predicate FailedAt(options: Options, world: World, i: nat, listen: nat, r: Retry) {
    && world.outcome(i + 1).AddressInUse? && r.attempt == i + 1
    && r.elapsedMs == listen + world.listenMs(i + 1) < options.totalBudgetMs
    && BacksOff(options, r, Doubled(options.initialDelayMs, i))
  }

  /** Every failed call was in use and reported inside the budget, and followed by a full sleep
      before the next call. */
  ghost predicate Timed(options: Options, world: World, listens: seq<nat>, retries: seq<Retry>) {
    && |retries| <= |listens| <= |retries| + 1
    && (listens != [] ==> listens[0] == 0)
    && (forall i :: 0 <= i < |listens| ==> !(world.abortAt.Some? && world.abortAt.value <= listens[i]))
    && (forall i {:trigger retries[i]} :: 0 <= i < |retries| ==>
          && FailedAt(options, world, i, listens[i], retries[i])
          && (i + 1 < |listens| ==>
                listens[i + 1] == retries[i].elapsedMs + retries[i].delayMs + world.oversleepMs(i + 1)))
  }

  /** How the call ended, at the only time it could. */
  ghost predicate Ended(options: Options, world: World, result: Result, listens: seq<nat>, retries: seq<Retry>) {
    var n := |listens|;
    match result
    case Failed(Shutdown, attempts, elapsed, lastErr) =>
      && attempts == n == |retries| && world.abortAt.Some? && world.abortAt.value <= elapsed
      && (if n == 0 then elapsed == 0 && lastErr == None
          else
            var failed, planned :=
              retries[n - 1].elapsedMs, retries[n - 1].elapsedMs + retries[n - 1].delayMs + world.oversleepMs(n);
            && world.abortAt.value <= planned && lastErr == Some(AddressInUse)
            && elapsed == if failed < world.abortAt.value then world.abortAt.value else failed)
    case Failed(GiveUp, attempts, elapsed, lastErr) =>
      && LastCall(world, attempts, elapsed, listens, retries) && elapsed >= options.totalBudgetMs
      && world.outcome(n).AddressInUse? && lastErr == Some(AddressInUse)
    case Failed(Fatal, attempts, elapsed, lastErr) =>
      && LastCall(world, attempts, elapsed, listens, retries)
      && world.outcome(n).OtherError? && lastErr == Some(world.outcome(n))
    case Bound(attempts, elapsed) =>
      LastCall(world, attempts, elapsed, listens, retries) && world.outcome(n).Listening?
  }

  ghost predicate LastCall(world: World, attempts: nat, elapsed: int, listens: seq<nat>, retries: seq<Retry>) {
    attempts == |listens| == |retries| + 1 && elapsed == listens[attempts - 1] + world.listenMs(attempts)
  }

  /** The account leaves nothing open: what the port, the clock and the signal do decides every
      call, every report and the answer. */
  lemma AccountIsUnique(options: Options, world: World,
      a: Result, listensA: seq<nat>, retriesA: seq<Retry>, b: Result, listensB: seq<nat>, retriesB: seq<Retry>)
    requires Timed(options, world, listensA, retriesA) && Ended(options, world, a, listensA, retriesA)
    requires Timed(options, world, listensB, retriesB) && Ended(options, world, b, listensB, retriesB)
    ensures a == b && listensA == listensB && retriesA == retriesB
  {
    if |retriesA| <= |retriesB| {
      SameAccount(options, world, a, listensA, retriesA, b, listensB, retriesB);
    } else {
      SameAccount(options, world, b, listensB, retriesB, a, listensA, retriesA);
    }
  }

  lemma SameAccount(options: Options, world: World,
      a: Result, listensA: seq<nat>, retriesA: seq<Retry>, b: Result, listensB: seq<nat>, retriesB: seq<Retry>)
    requires Timed(options, world, listensA, retriesA) && Ended(options, world, a, listensA, retriesA)
    requires Timed(options, world, listensB, retriesB) && Ended(options, world, b, listensB, retriesB)
    requires |retriesA| <= |retriesB|
    ensures a == b && listensA == listensB && retriesA == retriesB
  {
    SameReports(options, world, listensA, retriesA, listensB, retriesB, |retriesA|);
    assert retriesA[..|retriesA|] == retriesA;
    if |retriesA| < |retriesB| {
      NoFurther(options, world, a, listensA, retriesA, listensB, retriesB);
    } else {
      assert retriesB[..|retriesA|] == retriesB;
      EndsAlike(options, world, a, listensA, b, listensB, retriesA);
    }
  }

  lemma SameFailure(options: Options, world: World, i: nat, listen: nat, a: Retry, b: Retry)
    requires FailedAt(options, world, i, listen, a) && FailedAt(options, world, i, listen, b)
    ensures a == b
  {
  }

  lemma {:induction false} SameReports(options: Options, world: World,
      listensA: seq<nat>, retriesA: seq<Retry>, listensB: seq<nat>, retriesB: seq<Retry>, n: nat)
    requires Timed(options, world, listensA, retriesA) && Timed(options, world, listensB, retriesB)
    requires n <= |retriesA| && n <= |retriesB|
    ensures listensA[..n] == listensB[..n] && retriesA[..n] == retriesB[..n]
  {
    if n > 0 {
      SameReports(options, world, listensA, retriesA, listensB, retriesB, n - 1);
      var k := n - 1;
      if k > 0 {
        assert retriesA[k - 1] == retriesA[..k][k - 1] && retriesB[k - 1] == retriesB[..k][k - 1];
      }
      assert listensA[k] == listensB[k];
      SameFailure(options, world, k, listensA[k], retriesA[k], retriesB[k]);
      assert listensA[..n] == listensA[..k] + [listensA[k]] && listensB[..n] == listensB[..k] + [listensB[k]];
      assert retriesA[..n] == retriesA[..k] + [retriesA[k]] && retriesB[..n] == retriesB[..k] + [retriesB[k]];
    }
  }

  /** The next call of two accounts that agree so far. */
  lemma SameNextListen(options: Options, world: World,
      listensA: seq<nat>, retriesA: seq<Retry>, listensB: seq<nat>, retriesB: seq<Retry>)
    requires Timed(options, world, listensA, retriesA) && Timed(options, world, listensB, retriesB)
    requires |retriesA| <= |retriesB| && retriesA == retriesB[..|retriesA|]
    requires |listensA| == |retriesA| + 1 && |listensB| > |retriesA|
    ensures listensA[|retriesA|] == listensB[|retriesA|]
  {
    var n := |retriesA|;
    if n > 0 {
      assert listensA[n] == retriesA[n - 1].elapsedMs + retriesA[n - 1].delayMs + world.oversleepMs(n);
      assert retriesA[n - 1] == retriesB[n - 1];
    }
  }

  /** A call that is gone on with has not ended. */
  lemma NoFurther(options: Options, world: World,
      a: Result, listensA: seq<nat>, retriesA: seq<Retry>, listensB: seq<nat>, retriesB: seq<Retry>)
    requires Timed(options, world, listensA, retriesA) && Timed(options, world, listensB, retriesB)
    requires |retriesA| < |retriesB| && retriesA == retriesB[..|retriesA|]
    ensures !Ended(options, world, a, listensA, retriesA)
  {
    var n := |retriesA|;
    assert FailedAt(options, world, n, listensB[n], retriesB[n]);
    if |listensA| == n + 1 {
      SameNextListen(options, world, listensA, retriesA, listensB, retriesB);
    }
  }

  lemma EndsAlike(options: Options, world: World,
      a: Result, listensA: seq<nat>, b: Result, listensB: seq<nat>, retries: seq<Retry>)
    requires Timed(options, world, listensA, retries) && Ended(options, world, a, listensA, retries)
    requires Timed(options, world, listensB, retries) && Ended(options, world, b, listensB, retries)
    requires listensA[..|retries|] == listensB[..|retries|]
    ensures a == b && listensA == listensB
  {
    var n := |retries|;
    if |listensA| == n + 1 && |listensB| == n + 1 {
      SameNextListen(options, world, listensA, retries, listensB, retries);
      assert listensA == listensA[..n] + [listensA[n]] && listensB == listensB[..n] + [listensB[n]];
    } else {
      assert |listensA| == n ==> listensA[..n] == listensA;
      assert |listensB| == n ==> listensB[..n] == listensB;
    }
  }

  /** The clock at the start of a round. */
  ghost predicate AtRound(world: World, clock: nat, retries: seq<Retry>) {
    if retries == [] then clock == 0
    else
      var r := retries[|retries| - 1];
      r.elapsedMs >= 0 && r.delayMs >= 0 && clock == Wake(world, |retries|, r.elapsedMs, r.delayMs)
  }

  lemma ListenIsTimed(options: Options, world: World, clock: nat, listens: seq<nat>, retries: seq<Retry>)
    requires Timed(options, world, listens, retries) && |listens| == |retries| && AtRound(world, clock, retries)
    requires !Aborted(world, clock)
    ensures Timed(options, world, listens + [clock], retries)
  {
  }

  lemma AbortEnds(options: Options, world: World, clock: nat, listens: seq<nat>, retries: seq<Retry>)
    requires Timed(options, world, listens, retries) && |listens| == |retries| && AtRound(world, clock, retries)
    requires Aborted(world, clock)
    ensures Ended(options, world,
      Failed(Shutdown, |listens|, clock, if listens == [] then None else Some(AddressInUse)), listens, retries)
  {
  }

  lemma ReportIsTimed(options: Options, world: World, listens: seq<nat>, retries: seq<Retry>, r: Retry)
    requires Timed(options, world, listens, retries) && |listens| == |retries| + 1
    requires world.outcome(|listens|).AddressInUse? && r.attempt == |listens|
    requires r.elapsedMs == listens[|retries|] + world.listenMs(|listens|) < options.totalBudgetMs
    requires r.delayMs == DelayAfter(options, |listens|, r.elapsedMs)
    ensures Timed(options, world, listens, retries + [r])
  {
    DoubledIsTimes(options.initialDelayMs, |retries|);
    assert FailedAt(options, world, |retries|, listens[|retries|], r);
  }

  lemma ReportMeans(options: Options, world: World, i: nat, listen: nat, r: Retry)
    requires FailedAt(options, world, i, listen, r)
    ensures r.delayMs == DelayAfter(options, i + 1, r.elapsedMs) && r.delayMs >= 0
    ensures ShortestDelay(options) > 0 ==> r.delayMs > 0
  {
    DoubledIsTimes(options.initialDelayMs, i);
    DelayAtLeastShortest(options, i + 1, r.elapsedMs);
  }

  lemma ReportsAreOrderly(options: Options, world: World, listens: seq<nat>, retries: seq<Retry>)
    requires Timed(options, world, listens, retries)
    ensures Orderly(options, world, listens, retries)
  {
    forall i | 0 <= i < |retries|
      ensures var r := retries[i];
        && r.attempt == i + 1 && r.delayMs == DelayAfter(options, i + 1, r.elapsedMs) && r.delayMs >= 0
        && (ShortestDelay(options) > 0 ==> r.delayMs > 0)
    {
      ReportMeans(options, world, i, listens[i], retries[i]);
    }
  }

  lemma FailedCallsWereInUse(options: Options, world: World, listens: seq<nat>, retries: seq<Retry>)
    requires Timed(options, world, listens, retries)
    ensures AllInUse(world, |retries|)
  {
    forall k | 0 < k <= |retries|
      ensures world.outcome(k).AddressInUse?
    {
      assert FailedAt(options, world, k - 1, listens[k - 1], retries[k - 1]);
    }
  }

  lemma EndIsExplained(options: Options, world: World, result: Result, listens: seq<nat>, retries: seq<Retry>)
    requires Ended(options, world, result, listens, retries) && AllInUse(world, |retries|)
    ensures Explained(options, world, result)
  {
  }

  /** What the account says of the observers and of the reason. */
  lemma AccountMeans(options: Options, world: World, result: Result, listens: seq<nat>, retries: seq<Retry>)
    requires Timed(options, world, listens, retries) && Ended(options, world, result, listens, retries)
    ensures Orderly(options, world, listens, retries) && Explained(options, world, result)
  {
    ReportsAreOrderly(options, world, listens, retries);
    FailedCallsWereInUse(options, world, listens, retries);
    EndIsExplained(options, world, result, listens, retries);
  }

  /** Between two rounds: as many reports as calls, and the clock where the last sleep left it. */
  ghost predicate Going(options: Options, world: World, clock: nat, listens: seq<nat>, retries: seq<Retry>) {
    && |listens| == |retries| && Timed(options, world, listens, retries)
    && OnSchedule(options, world, |retries|, clock, retries) && AtRound(world, clock, retries)
  }

  /** The whole account of a call, with what follows from it. */
  ghost predicate Account(options: Options, world: World, result: Result, listens: seq<nat>, retries: seq<Retry>) {
    && Timed(options, world, listens, retries) && Ended(options, world, result, listens, retries)
    && Orderly(options, world, listens, retries) && Explained(options, world, result)
    && |listens| <= Positive(options.totalBudgetMs) / Pace(options) + 2
    && TotalDelay(retries) <= Positive(options.totalBudgetMs)
  }

  lemma AbortIsAccounted(options: Options, world: World, clock: nat, listens: seq<nat>, retries: seq<Retry>,
                         lastErr: Option<Listen>)
    requires Going(options, world, clock, listens, retries) && Aborted(world, clock)
    requires lastErr == if listens == [] then None else Some(AddressInUse)
    ensures Account(options, world, Failed(Shutdown, |listens|, clock, lastErr), listens, retries)
  {
    AttemptsAreBounded(options, world, |retries|, clock, retries);
    AbortEnds(options, world, clock, listens, retries);
    AccountMeans(options, world, Failed(Shutdown, |listens|, clock, lastErr), listens, retries);
  }

  /** The answer of a call that did not fail for being in use inside the budget. */
  lemma EndIsAccounted(options: Options, world: World, clock: nat, listens: seq<nat>, retries: seq<Retry>,
                       result: Result)
    requires Going(options, world, clock, listens, retries) && !Aborted(world, clock)
    requires Ended(options, world, result, listens + [clock], retries) && result.attempts == |listens| + 1
    ensures Account(options, world, result, listens + [clock], retries)
  {
    AttemptsAreBounded(options, world, |retries|, clock, retries);
    ListenIsTimed(options, world, clock, listens, retries);
    AccountMeans(options, world, result, listens + [clock], retries);
  }

  lemma RoundGoesOn(options: Options, world: World, clock: nat, listens: seq<nat>, retries: seq<Retry>,
                    failedAt: nat, delay: int)
    requires Going(options, world, clock, listens, retries) && !Aborted(world, clock)
    requires RoundsTakeTime(options, world)
    requires world.outcome(|listens| + 1).AddressInUse?
    requires failedAt == clock + world.listenMs(|listens| + 1) < options.totalBudgetMs
    requires delay == DelayAfter(options, |listens| + 1, failedAt)
    ensures delay >= 0 && Going(options, world, Wake(world, |listens| + 1, failedAt, delay),
      listens + [clock], retries + [Retry(|listens| + 1, delay, failedAt)])
    ensures var wake := Wake(world, |listens| + 1, failedAt, delay); Aborted(world, wake) || wake > clock
  {
    var report := Retry(|listens| + 1, delay, failedAt);
    ListenIsTimed(options, world, clock, listens, retries);
    DelayAtLeastShortest(options, |listens| + 1, failedAt);
    ReportIsTimed(options, world, listens + [clock], retries, report);
    RoundKeepsSchedule(options, world, |retries|, clock, retries, failedAt, report);
  }

  /** The loop ends within a bounded number of attempts, requests delays that add up to no more
      than the budget, never listens once the abort could be seen, and says truly why it
      stopped. `listens` holds the time of each listen call, `retries` the reports; the account
      of both and of the answer is the only one possible. */
  method BindWithRetry(options: Options, world: World)
    returns (result: Result, listens: seq<nat>, retries: seq<Retry>)
    requires RoundsTakeTime(options, world)
    ensures result.attempts == |listens|
    ensures Account(options, world, result, listens, retries)
  {
    var clock: nat, attempts: nat := 0, 0;
    var lastErr: Option<Listen> := None;
    listens, retries := [], [];
    while true
      invariant attempts == |listens|
      invariant lastErr == if attempts == 0 then None else Some(AddressInUse)
      invariant Going(options, world, clock, listens, retries)
      decreases if Aborted(world, clock) then 0 else 1, Positive(options.totalBudgetMs - clock)
    {
      if Aborted(world, clock) {
        AbortIsAccounted(options, world, clock, listens, retries, lastErr);
        return Failed(Shutdown, attempts, clock, lastErr), listens, retries;
      }
      ghost var before, earlier := clock, listens;
      listens := listens + [clock];
      attempts := attempts + 1;
      var outcome := world.outcome(attempts);
      clock := clock + world.listenMs(attempts);
      if outcome.Listening? {
        EndIsAccounted(options, world, before, earlier, retries, Bound(attempts, clock));
        return Bound(attempts, clock), listens, retries;
      }
      lastErr := Some(outcome);
      if outcome.OtherError? {
        EndIsAccounted(options, world, before, earlier, retries, Failed(Fatal, attempts, clock, lastErr));
        return Failed(Fatal, attempts, clock, lastErr), listens, retries;
      }
      var remaining := options.totalBudgetMs - clock;
      if remaining <= 0 {
        EndIsAccounted(options, world, before, earlier, retries, Failed(GiveUp, attempts, clock, lastErr));
        return Failed(GiveUp, attempts, clock, lastErr), listens, retries;
      }
      var delay := DelayAfter(options, attempts, clock);
      RoundGoesOn(options, world, before, earlier, retries, clock, delay);
      retries := retries + [Retry(attempts, delay, clock)];
      clock := Wake(world, attempts, clock, delay);
    }
  }

  lemma AttemptsAreBounded(options: Options, world: World, attempts: nat, clock: nat, retries: seq<Retry>)
    requires OnSchedule(options, world, attempts, clock, retries)
    ensures attempts + 1 <= Positive(options.totalBudgetMs) / Pace(options) + 2
    ensures TotalDelay(retries) <= Positive(options.totalBudgetMs)
  {
    var d, budget := Pace(options), options.totalBudgetMs;
    if attempts > 1 {
      AtLeastTimes(0, attempts - 1, d);
      assert 0 < budget == Positive(budget);
      AttemptsFromTime(attempts - 1, d, budget);
    } else {
      QuotientIsNatural(Positive(budget), d);
    }
  }

  lemma QuotientIsNatural(x: nat, d: nat)
    requires d > 0
    ensures x / d >= 0
  {
  }
}
