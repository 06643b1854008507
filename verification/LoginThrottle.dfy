/** Login throttling: a failure counter per bucket, restarted by the first failure after
    its window, with a lockout once the counter reaches the limit.
  */
module LoginThrottle {
  import opened Common

  const I32_MAX: int := 0x7FFF_FFFF
  const DAY: int := 86_400 * SECOND

  datatype Bucket = Bucket(failureCount: int, windowStartedAt: Time, lockedUntil: Option<Time>, updatedAt: Time)

  datatype Policy = Policy(maxFailures: int, windowSeconds: int, lockoutSeconds: int) {
    function Window(): int {
      windowSeconds * SECOND
    }
  }

  /** Whole seconds until `until`, at least one. */
  function SecondsUntil(until: Time, now: Time): int {
    Max((until - now) / SECOND, 1)
  }

  function StillLocked(lock: Option<Time>, now: Time): Option<Time> {
    if lock.Some? && lock.value > now then lock else None
  }

  function RetryAfter(b: Option<Bucket>, now: Time): Option<int> {
    if b.None? then None
    else
      match StillLocked(b.value.lockedUntil, now)
      case None => None
      case Some(until) => Some(SecondsUntil(until, now))
  }

  /** The bucket after a failure; a missing bucket is first inserted empty. */
  function AfterFailure(b: Option<Bucket>, now: Time, policy: Policy): Bucket {
    var bucket := if b.Some? then b.value else Bucket(0, now, None, now);
    var expired := bucket.windowStartedAt <= now - policy.Window();
    var count := if expired then 1 else Min(bucket.failureCount + 1, I32_MAX);
    Bucket(count,
           if expired then now else bucket.windowStartedAt,
           if count >= policy.maxFailures then Some(now + policy.lockoutSeconds * SECOND)
           else StillLocked(bucket.lockedUntil, now),
           now)
  }

  /** What record_failure reports: the lockout, if there is one. */
  function FailureAnswer(b: Option<Bucket>, now: Time, policy: Policy): Option<int> {
    match AfterFailure(b, now, policy).lockedUntil
    case None => None
    case Some(until) => Some(SecondsUntil(until, now))
  }

  predicate Prunable(b: Bucket, cutoff: Time) {
    b.updatedAt < cutoff && (b.lockedUntil.None? || b.lockedUntil.value < cutoff)
  }

  /** What every stored bucket satisfies: it was created by a failure in its own window. */
  predicate BucketInv(b: Option<Bucket>, now: Time) {
    b.Some? ==> b.value.failureCount >= 1 && b.value.windowStartedAt <= b.value.updatedAt <= now
  }

  class ThrottleTable {
    var buckets: map<string, Bucket>

    constructor ()
      ensures buckets == map[]
    {
      buckets := map[];
    }

    function Find(hash: string): Option<Bucket>
      reads this
    {
      if hash in buckets then Some(buckets[hash]) else None
    }

    method RetryAfterSeconds(hash: string, now: Time) returns (seconds: Option<int>)
      ensures seconds == RetryAfter(Find(hash), now)
      ensures seconds.Some? <==>
                hash in buckets && buckets[hash].lockedUntil.Some? && buckets[hash].lockedUntil.value > now
      ensures seconds.Some? ==>
                var left := buckets[hash].lockedUntil.value - now;
                seconds.value >= 1 && left < (seconds.value + 1) * SECOND
                && (seconds.value > 1 ==> seconds.value * SECOND <= left)
    {
      if hash in buckets && buckets[hash].lockedUntil.Some? && buckets[hash].lockedUntil.value > now {
        return Some(Max((buckets[hash].lockedUntil.value - now) / SECOND, 1));
      }
      return None;
    }

    method RecordFailure(hash: string, now: Time, policy: Policy) returns (seconds: Option<int>)
      modifies this
      ensures buckets == old(buckets)[hash := AfterFailure(old(Find(hash)), now, policy)]
      ensures seconds == FailureAnswer(old(Find(hash)), now, policy)
      ensures BucketInv(old(Find(hash)), now) ==> BucketInv(Find(hash), now)
      ensures policy.lockoutSeconds > 0 ==> seconds == RetryAfter(Find(hash), now)
    {
      if hash !in buckets {
        buckets := buckets[hash := Bucket(0, now, None, now)];
      }
      var bucket := buckets[hash];
      var windowExpired := bucket.windowStartedAt <= now - policy.windowSeconds * SECOND;
      var failureCount := 1;
      var windowStartedAt := now;
      if !windowExpired {
        failureCount := if bucket.failureCount < I32_MAX then bucket.failureCount + 1 else I32_MAX;
        windowStartedAt := bucket.windowStartedAt;
      }
      var lockedUntil: Option<Time> := None;
      if failureCount >= policy.maxFailures {
        lockedUntil := Some(now + policy.lockoutSeconds * SECOND);
      } else if bucket.lockedUntil.Some? && bucket.lockedUntil.value > now {
        lockedUntil := bucket.lockedUntil;
      }
      buckets := buckets[hash := Bucket(failureCount, windowStartedAt, lockedUntil, now)];
      seconds := if lockedUntil.Some? then Some(Max((lockedUntil.value - now) / SECOND, 1)) else None;
    }

    method Clear(hash: string)
      modifies this
      ensures buckets == old(buckets) - {hash}
    {
      buckets := buckets - {hash};
    }

    method PruneBefore(cutoff: Time)
      modifies this
      ensures buckets == PrunedAt(old(buckets), cutoff)
      ensures forall hash :: hash in buckets <==> hash in old(buckets) && !Prunable(old(buckets)[hash], cutoff)
      ensures forall hash :: hash in buckets ==> buckets[hash] == old(buckets)[hash]
    {
      buckets := map hash | hash in buckets && !Prunable(buckets[hash], cutoff) :: buckets[hash];
    }
  }

  // ---------------------------------------------------------------- how many failures go free

  predicate SortedFrom(times: seq<Time>, from: Time) {
    times == [] || (from <= times[0] && SortedFrom(times[1..], times[0]))
  }

  /** The failures inside [from, from + window) that were answered without a lockout. */
  function FreeFailures(b: Option<Bucket>, times: seq<Time>, policy: Policy, from: Time): nat
    decreases |times|
  {
    if times == [] then 0
    else
      var now := times[0];
      var free := from <= now < from + policy.Window() && FailureAnswer(b, now, policy).None?;
      (if free then 1 else 0) + FreeFailures(Some(AfterFailure(b, now, policy)), times[1..], policy, from)
  }

  function Positive(n: int): nat {
    if n > 0 then n else 0
  }

  /** Free failures a bucket still allows once time has reached `from`: the rest of its
      window, and one more window if the present one began before `from`. */
  function Allowance(b: Option<Bucket>, policy: Policy, from: Time): nat {
    if b.None? then Positive(policy.maxFailures - 1)
    else
      Positive(policy.maxFailures - 1 - b.value.failureCount)
      + if b.value.windowStartedAt < from then Positive(policy.maxFailures - 1) else 0
  }

  lemma {:induction false} NothingAfterTheInterval(b: Option<Bucket>, times: seq<Time>, policy: Policy, from: Time)
    requires SortedFrom(times, from + policy.Window())
    ensures FreeFailures(b, times, policy, from) == 0
    decreases |times|
  {
    if times != [] {
      assert SortedFrom(times[1..], from + policy.Window()) by {
        SortedEarlier(times[1..], times[0], from + policy.Window());
      }
      NothingAfterTheInterval(Some(AfterFailure(b, times[0], policy)), times[1..], policy, from);
    }
  }

  lemma SortedEarlier(times: seq<Time>, later: Time, earlier: Time)
    requires SortedFrom(times, later) && earlier <= later
    ensures SortedFrom(times, earlier)
  {
  }

  lemma {:induction false} FreeWithinAllowance(b: Option<Bucket>, times: seq<Time>, policy: Policy, from: Time, now: Time)
    requires from <= now && SortedFrom(times, now) && BucketInv(b, now) && policy.maxFailures <= I32_MAX
    ensures FreeFailures(b, times, policy, from) <= Allowance(b, policy, from)
    decreases |times|
  {
    if times != [] {
      var t := times[0];
      if t >= from + policy.Window() {
        SortedEarlier(times, t, from + policy.Window());
        NothingAfterTheInterval(b, times, policy, from);
      } else {
        var b' := Some(AfterFailure(b, t, policy));
        FreeWithinAllowance(b', times[1..], policy, from, t);
      }
    }
  }

  function FreeBound(policy: Policy): nat {
    if policy.maxFailures <= 1 then 0 else 2 * policy.maxFailures - 3
  }

  /** In any window-long interval, whatever happened before, at most 2 * max - 3 failures
      go without a lockout (none when max is 1). */
  lemma {:induction false} FreeFailuresBounded(b: Option<Bucket>, times: seq<Time>, policy: Policy, from: Time, now: Time)
    requires SortedFrom(times, now) && BucketInv(b, now) && policy.maxFailures <= I32_MAX
    ensures FreeFailures(b, times, policy, from) <= FreeBound(policy)
    decreases |times|
  {
    if times != [] {
      var t := times[0];
      var b' := Some(AfterFailure(b, t, policy));
      if t < from {
        FreeFailuresBounded(b', times[1..], policy, from, t);
      } else {
        FreeWithinAllowance(b', times[1..], policy, from, t);
        if t >= from + policy.Window() {
          SortedEarlier(times, t, from + policy.Window());
          NothingAfterTheInterval(b, times, policy, from);
        }
      }
    }
  }

  // ---------------------------------------------------------------- the bound is reached

  function Repeat(t: Time, k: nat): seq<Time> {
    if k == 0 then [] else [t] + Repeat(t, k - 1)
  }

  /** Failures at one instant, inside both the bucket's window and the interval, all go
      free while the counter stays below the limit. */
  lemma {:induction false} RepeatedFailuresGoFree(b: Bucket, t: Time, k: nat, rest: seq<Time>, policy: Policy, from: Time)
    requires b.lockedUntil.None? && 0 <= b.failureCount && b.failureCount + k < policy.maxFailures <= I32_MAX
    requires t - policy.Window() < b.windowStartedAt && from <= t < from + policy.Window()
    ensures FreeFailures(Some(b), Repeat(t, k) + rest, policy, from)
              == k + FreeFailures(Some(Bucket(b.failureCount + k, b.windowStartedAt, None,
                                              if k == 0 then b.updatedAt else t)), rest, policy, from)
    decreases k
  {
    if k == 0 {
      assert Repeat(t, k) + rest == rest;
    } else {
      var all, next := Repeat(t, k) + rest, Bucket(b.failureCount + 1, b.windowStartedAt, None, t);
      assert all[0] == t && all[1..] == Repeat(t, k - 1) + rest;
      assert AfterFailure(Some(b), t, policy) == next;
      RepeatedFailuresGoFree(next, t, k - 1, rest, policy, from);
    }
  }

  lemma {:induction false} RepeatSorted(t: Time, k: nat, rest: seq<Time>, from: Time)
    requires from <= t && SortedFrom(rest, t)
    ensures SortedFrom(Repeat(t, k) + rest, from)
    decreases k
  {
    if k == 0 {
      assert Repeat(t, k) + rest == rest;
      SortedEarlier(rest, t, from);
    } else {
      assert (Repeat(t, k) + rest)[1..] == Repeat(t, k - 1) + rest;
      RepeatSorted(t, k - 1, rest, t);
    }
  }

  /** For every limit of at least two and every window some trace on a new bucket reaches
      the bound: one early failure, max - 2 at the end of its window, max - 1 right after. */
  lemma FreeBoundIsReached(policy: Policy) returns (times: seq<Time>)
    requires 2 <= policy.maxFailures <= I32_MAX && policy.windowSeconds >= 1
    ensures SortedFrom(times, 0)
    ensures FreeFailures(None, times, policy, 1) == FreeBound(policy)
  {
    var w, m := policy.Window(), policy.maxFailures;
    var second := [w] + Repeat(w, m - 2);
    var first := Repeat(w - 1, m - 2) + second;
    times := [0] + first;
    assert second == Repeat(w, m - 1) && Repeat(w, m - 1) + [] == second;
    assert times[1..] == first && second[1..] == Repeat(w, m - 2) && Repeat(w, m - 2) + [] == Repeat(w, m - 2);
    RepeatSorted(w, m - 1, [], w - 1);
    RepeatSorted(w - 1, m - 2, second, 0);
    var b0 := Bucket(1, 0, None, 0);
    assert AfterFailure(None, 0, policy) == b0;
    RepeatedFailuresGoFree(b0, w - 1, m - 2, second, policy, 1);
    var b1 := Bucket(m - 1, 0, None, if m == 2 then 0 else w - 1);
    var b2 := Bucket(1, w, None, w);
    assert AfterFailure(Some(b1), w, policy) == b2;
    RepeatedFailuresGoFree(b2, w, m - 2, [], policy, 1);
  }

  // ---------------------------------------------------------------- pruning

  datatype Call = Failure(at: Time) | Question(at: Time)

  predicate CallsFrom(calls: seq<Call>, from: Time) {
    calls == [] || (from <= calls[0].at && CallsFrom(calls[1..], calls[0].at))
  }

  /** Everything a caller sees of one bucket. */
  function Answers(b: Option<Bucket>, calls: seq<Call>, policy: Policy): seq<Option<int>>
    decreases |calls|
  {
    if calls == [] then []
    else
      match calls[0]
      case Failure(at) =>
        [FailureAnswer(b, at, policy)] + Answers(Some(AfterFailure(b, at, policy)), calls[1..], policy)
      case Question(at) => [RetryAfter(b, at)] + Answers(b, calls[1..], policy)
  }

  /** Pruning is invisible when the cutoff is at least one window old: every later trace
      of calls gets the same answers with the bucket or without it. */
  lemma {:induction false} PruneUnobservable(b: Bucket, cutoff: Time, now: Time, calls: seq<Call>, policy: Policy)
    requires Prunable(b, cutoff) && b.windowStartedAt <= b.updatedAt
    requires policy.windowSeconds > 0 && cutoff <= now - policy.Window() && CallsFrom(calls, now)
    ensures Answers(Some(b), calls, policy) == Answers(None, calls, policy)
    decreases |calls|
  {
    if calls != [] {
      match calls[0]
      case Failure(at) =>
        assert AfterFailure(Some(b), at, policy) == AfterFailure(None, at, policy);
      case Question(at) =>
        PruneUnobservable(b, cutoff, at, calls[1..], policy);
    }
  }

  /** With a limit of one every failure locks, so only the lock matters. */
  lemma {:induction false} OnlyTheLockMatters(b: Option<Bucket>, c: Option<Bucket>, now: Time, calls: seq<Call>, policy: Policy)
    requires policy.maxFailures <= 1 && CallsFrom(calls, now)
    requires b.Some? ==> b.value.failureCount >= 0
    requires c.Some? ==> c.value.failureCount >= 0
    requires forall t :: t >= now ==> RetryAfter(b, t) == RetryAfter(c, t)
    ensures Answers(b, calls, policy) == Answers(c, calls, policy)
    decreases |calls|
  {
    if calls != [] {
      match calls[0]
      case Failure(at) =>
        OnlyTheLockMatters(Some(AfterFailure(b, at, policy)), Some(AfterFailure(c, at, policy)), at, calls[1..], policy);
      case Question(at) =>
        OnlyTheLockMatters(b, c, at, calls[1..], policy);
    }
  }

  /** Pruning what is a day old, as every login does, is invisible under this policy. */
  ghost predicate DailyPruneUnobservable(policy: Policy) {
    forall b: Bucket, now: Time, calls: seq<Call> ::
      BucketInv(Some(b), now) && Prunable(b, now - DAY) && CallsFrom(calls, now) ==>
        Answers(Some(b), calls, policy) == Answers(None, calls, policy)
  }

  /** The configured window has no upper limit. The daily prune forgets failures that
      still count exactly when the window is longer than a day and the limit above one. */
  lemma DailyPruneUnobservableIff(policy: Policy)
    requires policy.windowSeconds > 0 && 1 <= policy.maxFailures <= I32_MAX
    ensures DailyPruneUnobservable(policy) <==> policy.windowSeconds <= 86_400 || policy.maxFailures == 1
  {
    if policy.windowSeconds <= 86_400 || policy.maxFailures == 1 {
      forall b: Bucket, now: Time, calls: seq<Call>
        | BucketInv(Some(b), now) && Prunable(b, now - DAY) && CallsFrom(calls, now)
        ensures Answers(Some(b), calls, policy) == Answers(None, calls, policy)
      {
        if policy.windowSeconds <= 86_400 {
          PruneUnobservable(b, now - DAY, now, calls, policy);
        } else {
          OnlyTheLockMatters(Some(b), None, now, calls, policy);
        }
      }
    } else {
      var b := Bucket(policy.maxFailures - 1, -1, None, -1);
      var calls := [Failure(DAY)];
      assert CallsFrom(calls[1..], DAY);
      assert Answers(Some(b), calls, policy)[0] == FailureAnswer(Some(b), DAY, policy);
      assert Answers(None, calls, policy)[0] == FailureAnswer(None, DAY, policy);
      assert BucketInv(Some(b), DAY) && Prunable(b, DAY - DAY) && CallsFrom(calls, DAY);
      assert FailureAnswer(Some(b), DAY, policy).Some? && FailureAnswer(None, DAY, policy).None?;
    }
  }

  // ---------------------------------------------------------------- a prune at every login

  type Buckets = map<string, Bucket>

  /** What a login does to one bucket, after pruning the whole table. */
  datatype LoginCall = Asks(hash: string, at: Time) | Fails(hash: string, at: Time) | Clears(hash: string, at: Time)

  function Lookup(t: Buckets, hash: string): Option<Bucket> {
    if hash in t then Some(t[hash]) else None
  }

  function PrunedAt(t: Buckets, cutoff: Time): Buckets {
    map hash | hash in t && !Prunable(t[hash], cutoff) :: t[hash]
  }

  function AfterCall(t: Buckets, call: LoginCall, policy: Policy): Buckets {
    match call
    case Asks(_, _) => t
    case Fails(hash, at) => t[hash := AfterFailure(Lookup(t, hash), at, policy)]
    case Clears(hash, _) => t - {hash}
  }

  function AnswerTo(t: Buckets, call: LoginCall, policy: Policy): Option<int> {
    match call
    case Asks(hash, at) => RetryAfter(Lookup(t, hash), at)
    case Fails(hash, at) => FailureAnswer(Lookup(t, hash), at, policy)
    case Clears(_, _) => None
  }

  /** Everything the callers see, with a prune of day-old buckets before each call or not. */
  function LoginAnswers(t: Buckets, calls: seq<LoginCall>, policy: Policy, pruning: bool): seq<Option<int>>
    decreases |calls|
  {
    if calls == [] then []
    else
      var u := if pruning then PrunedAt(t, calls[0].at - DAY) else t;
      [AnswerTo(u, calls[0], policy)] + LoginAnswers(AfterCall(u, calls[0], policy), calls[1..], policy, pruning)
  }

  predicate LoginsFrom(calls: seq<LoginCall>, from: Time) {
    calls == [] || (from <= calls[0].at && LoginsFrom(calls[1..], calls[0].at))
  }

  predicate BucketsInv(t: Buckets, now: Time) {
    forall hash :: hash in t ==> BucketInv(Some(t[hash]), now)
  }

  /** A bucket in the pruned table answers like its counterpart in the table never pruned:
      it is the same one, or is gone and was forgettable; with a limit of one it is enough
      that both are locked alike. */
  ghost predicate Alike(b: Option<Bucket>, c: Option<Bucket>, now: Time, policy: Policy) {
    && BucketInv(b, now) && BucketInv(c, now)
    && (forall t :: t >= now ==> RetryAfter(b, t) == RetryAfter(c, t))
    && (policy.maxFailures > 1 ==> b == c || (b.None? && c.Some? && Prunable(c.value, now - DAY)))
  }

  ghost predicate TablesAlike(t: Buckets, u: Buckets, now: Time, policy: Policy) {
    forall hash :: Alike(Lookup(t, hash), Lookup(u, hash), now, policy)
  }

  /** The prune forgets nothing that counts under this policy. */
  predicate DailyPruneIsSafe(policy: Policy) {
    policy.windowSeconds <= 86_400 || policy.maxFailures == 1
  }

  lemma PruneKeepsAlike(t: Buckets, u: Buckets, now: Time, before: Time, policy: Policy)
    requires TablesAlike(t, u, before, policy) && before <= now
    ensures TablesAlike(PrunedAt(t, now - DAY), u, now, policy)
  {
    forall hash ensures Alike(Lookup(PrunedAt(t, now - DAY), hash), Lookup(u, hash), now, policy) {
      assert Alike(Lookup(t, hash), Lookup(u, hash), before, policy);
    }
  }

  lemma FailureKeepsAlike(b: Option<Bucket>, c: Option<Bucket>, now: Time, policy: Policy)
    requires Alike(b, c, now, policy) && DailyPruneIsSafe(policy)
    requires policy.windowSeconds > 0 && 1 <= policy.maxFailures
    ensures FailureAnswer(b, now, policy) == FailureAnswer(c, now, policy)
    ensures Alike(Some(AfterFailure(b, now, policy)), Some(AfterFailure(c, now, policy)), now, policy)
  {
    var b', c' := AfterFailure(b, now, policy), AfterFailure(c, now, policy);
    if policy.maxFailures == 1 {
      assert b'.lockedUntil == c'.lockedUntil;
    } else {
      assert b' == c';
    }
  }

  lemma CallKeepsAlike(t: Buckets, u: Buckets, call: LoginCall, policy: Policy)
    requires TablesAlike(t, u, call.at, policy) && DailyPruneIsSafe(policy)
    requires policy.windowSeconds > 0 && 1 <= policy.maxFailures
    ensures AnswerTo(t, call, policy) == AnswerTo(u, call, policy)
    ensures TablesAlike(AfterCall(t, call, policy), AfterCall(u, call, policy), call.at, policy)
  {
    var t', u' := AfterCall(t, call, policy), AfterCall(u, call, policy);
    assert Alike(Lookup(t, call.hash), Lookup(u, call.hash), call.at, policy);
    FailureKeepsAlike(Lookup(t, call.hash), Lookup(u, call.hash), call.at, policy);
    forall hash ensures Alike(Lookup(t', hash), Lookup(u', hash), call.at, policy) {
      assert Alike(Lookup(t, hash), Lookup(u, hash), call.at, policy);
    }
  }

  lemma {:induction false} AlikeAnswers(t: Buckets, u: Buckets, calls: seq<LoginCall>, now: Time, policy: Policy)
    requires TablesAlike(t, u, now, policy) && LoginsFrom(calls, now) && DailyPruneIsSafe(policy)
    requires policy.windowSeconds > 0 && 1 <= policy.maxFailures
    ensures LoginAnswers(t, calls, policy, true) == LoginAnswers(u, calls, policy, false)
    decreases |calls|
  {
    if calls != [] {
      var call := calls[0];
      var pruned := PrunedAt(t, call.at - DAY);
      PruneKeepsAlike(t, u, call.at, now, policy);
      CallKeepsAlike(pruned, u, call, policy);
      AlikeAnswers(AfterCall(pruned, call, policy), AfterCall(u, call, policy), calls[1..], call.at, policy);
    }
  }

  /** No sequence of logins on any buckets can tell whether the table is pruned each time. */
  ghost predicate LoginsCannotTell(policy: Policy) {
    forall t: Buckets, now: Time, calls: seq<LoginCall> ::
      BucketsInv(t, now) && LoginsFrom(calls, now) ==>
        LoginAnswers(t, calls, policy, true) == LoginAnswers(t, calls, policy, false)
  }

  lemma PruneTells(policy: Policy)
    requires 1 < policy.maxFailures <= I32_MAX && policy.windowSeconds > 86_400
    ensures !LoginsCannotTell(policy)
  {
    var b := Bucket(policy.maxFailures - 1, -1, None, -1);
    var t := map["x" := b];
    var calls := [Fails("x", DAY)];
    assert LoginsFrom(calls[1..], DAY) && BucketsInv(t, DAY) && LoginsFrom(calls, DAY);
    assert Prunable(b, 0) && Lookup(PrunedAt(t, 0), "x") == None;
    assert LoginAnswers(t, calls, policy, true)[0] == FailureAnswer(None, DAY, policy);
    assert LoginAnswers(t, calls, policy, false)[0] == FailureAnswer(Some(b), DAY, policy);
    assert FailureAnswer(Some(b), DAY, policy).Some? && FailureAnswer(None, DAY, policy).None?;
  }

  /** Pruning at every login, over whole traces of failures, questions and successes on any
      number of buckets, is unobservable exactly for the policies it is safe for. */
  lemma LoginsCannotTellIff(policy: Policy)
    requires policy.windowSeconds > 0 && 1 <= policy.maxFailures <= I32_MAX
    ensures LoginsCannotTell(policy) <==> DailyPruneIsSafe(policy)
  {
    if DailyPruneIsSafe(policy) {
      forall t: Buckets, now: Time, calls: seq<LoginCall> | BucketsInv(t, now) && LoginsFrom(calls, now)
        ensures LoginAnswers(t, calls, policy, true) == LoginAnswers(t, calls, policy, false)
      {
        AlikeAnswers(t, t, calls, now, policy);
      }
    } else {
      PruneTells(policy);
    }
  }

  // ---------------------------------------------------------------- the lock

  /** One bucket after a run of failures. */
  function AfterFailures(b: Option<Bucket>, times: seq<Time>, policy: Policy): Option<Bucket>
    decreases |times|
  {
    if times == [] then b
    else Some(AfterFailure(AfterFailures(b, times[..|times| - 1], policy), times[|times| - 1], policy))
  }

  /** Failures of a new bucket that all fall into the window the first one opens. */
  predicate InOneWindow(times: seq<Time>, policy: Policy) {
    && 0 < |times| <= I32_MAX
    && (forall i :: 0 <= i < |times| ==> times[0] <= times[i] < times[0] + policy.Window())
  }

  lemma {:induction false} FailuresCountUp(times: seq<Time>, policy: Policy)
    requires InOneWindow(times, policy) && policy.windowSeconds > 0
    requires |times| < policy.maxFailures
    ensures AfterFailures(None, times, policy) == Some(Bucket(|times|, times[0], None, times[|times| - 1]))
    decreases |times|
  {
    var n := |times| - 1;
    if n == 0 {
      assert times[..0] == [];
    } else {
      FailuresCountUp(times[..n], policy);
    }
  }

  /** On a new bucket the failures of one window go unanswered up to max - 1 of them; the one
      that makes max is answered, and the bucket then answers for exactly the lockout. */
  lemma LocksAtTheLimit(times: seq<Time>, policy: Policy)
    requires InOneWindow(times, policy) && policy.windowSeconds > 0 && 1 <= policy.maxFailures
    requires |times| <= policy.maxFailures
    ensures var b, last := AfterFailures(None, times, policy), times[|times| - 1];
            var answer := FailureAnswer(AfterFailures(None, times[..|times| - 1], policy), last, policy);
            && (answer.Some? <==> |times| == policy.maxFailures)
            && forall t :: t >= last ==>
                 (RetryAfter(b, t).Some? <==> |times| == policy.maxFailures && t < last + policy.lockoutSeconds * SECOND)
  {
    var n := |times| - 1;
    if |times| < policy.maxFailures {
      FailuresCountUp(times, policy);
    }
    if n > 0 {
      FailuresCountUp(times[..n], policy);
    } else {
      assert times[..0] == [];
    }
  }

  /** A failure after the window has passed starts a new count of one, and one inside it is
      added to the count. */
  lemma WindowDecides(b: Bucket, now: Time, policy: Policy)
    requires 0 <= b.failureCount < I32_MAX
    ensures var b' := AfterFailure(Some(b), now, policy);
            if now >= b.windowStartedAt + policy.Window() then b'.failureCount == 1 && b'.windowStartedAt == now
            else b'.failureCount == b.failureCount + 1 && b'.windowStartedAt == b.windowStartedAt
  {
  }

  /** A lock set under the policy holds to its end: every failure before that is answered,
      and none ends it early, even one that starts a new window. */
  lemma {:induction false} LockHolds(b: Bucket, until: Time, times: seq<Time>, policy: Policy)
    requires b.lockedUntil.Some? && until <= b.lockedUntil.value && 0 <= b.failureCount
    requires forall i :: 0 <= i < |times| ==> times[i] < until <= times[i] + policy.lockoutSeconds * SECOND
    ensures var after := AfterFailures(Some(b), times, policy).value;
            && after.lockedUntil.Some? && until <= after.lockedUntil.value && 0 <= after.failureCount
            && (times != [] ==> FailureAnswer(AfterFailures(Some(b), times[..|times| - 1], policy), times[|times| - 1], policy).Some?)
    decreases |times|
  {
    if times != [] {
      LockHolds(b, until, times[..|times| - 1], policy);
    }
  }
}
