/** The life of one row of `connector_runs` under the worker lease protocol.

    Every guarded UPDATE of the run repository is one atomic operation on a row. Apply
    gives its effect, a no-op when the guard fails. A History adds what the row itself
    forgets: the leases granted so far, the results accepted, the number of status
    changes. Play folds any interleaving of operations, issued by any number of workers,
    operators and recovery loops, over one non-decreasing clock.
  */
module RunLease {
  import opened Common

  datatype Status = Queued | Running | Succeeded | PartiallySucceeded | Failed | Cancelled {
    predicate Active() {
      Queued? || Running?
    }
  }

  /** The statuses a finished execution reports. */
  datatype Outcome = Success | PartialSuccess | Failure {
    function ToStatus(): Status {
      match this
      case Success => Succeeded
      case PartialSuccess => PartiallySucceeded
      case Failure => Failed
    }
  }

  datatype Run = Run(
    source: string,
    target: string,
    status: Status,
    startedAt: Time,
    finishedAt: Option<Time>,
    claimedAt: Option<Time>,
    workerId: Option<string>,
    attemptCount: int,
    maxAttempts: int,
    nextAttemptAt: Time,
    leaseExpiresAt: Option<Time>,
    heartbeatAt: Option<Time>,
    cancelRequestedAt: Option<Time>,
    cancelledAt: Option<Time>,
    parentRunId: Option<int>)

  // ---------------------------------------------------------------- retry backoff

  const I64_MAX: int := 0x7FFF_FFFF_FFFF_FFFF

  function Pow2(n: nat): (p: nat)
    ensures p >= 1
  {
    if n == 0 then 1 else 2 * Pow2(n - 1)
  }

  function SaturatingMul(a: nat, b: nat): nat {
    Min(a * b, I64_MAX)
  }

  /** Exponential backoff in 64-bit arithmetic, with a saturating product. */
  function Backoff(attemptCount: int, baseSeconds: int, maxSeconds: int): (b: int)
    ensures 1 <= b <= Max(maxSeconds, Max(baseSeconds, 1))
  {
    var base := Max(baseSeconds, 1);
    var cap := Max(maxSeconds, base);
    var exponent := Min(Max(attemptCount - 1, 0), 30);
    assert base <= base * Pow2(exponent) by { Scaling(base, Pow2(exponent)); }
    Min(SaturatingMul(base, Pow2(exponent)), cap)
  }

  lemma Scaling(a: nat, b: nat)
    requires b >= 1
    ensures a <= a * b
  {
  }

  /** Capping commutes with doubling as long as the cap is a 64-bit number. */
  lemma CappedDoubling(x: nat, cap: nat)
    requires cap <= I64_MAX
    ensures Min(Min(2 * x, I64_MAX), cap) == Min(2 * Min(Min(x, I64_MAX), cap), cap)
  {
  }

  lemma DoubledProduct(base: nat, p: nat)
    ensures base * (2 * p) == 2 * (base * p)
  {
  }

  /** Saturation is never visible: for 64-bit arguments the delay is the capped
      mathematical product, and each further attempt doubles it up to the cap. */
  lemma BackoffDoublesUpToCap(attemptCount: int, baseSeconds: int, maxSeconds: int)
    requires baseSeconds <= I64_MAX && maxSeconds <= I64_MAX
    ensures var base := Max(baseSeconds, 1);
            Backoff(1, baseSeconds, maxSeconds) == base
    ensures 1 <= attemptCount <= 30 ==>
      Backoff(attemptCount + 1, baseSeconds, maxSeconds)
        == Min(2 * Backoff(attemptCount, baseSeconds, maxSeconds), Max(maxSeconds, Max(baseSeconds, 1)))
    ensures attemptCount > 30 ==>
      Backoff(attemptCount, baseSeconds, maxSeconds) == Backoff(31, baseSeconds, maxSeconds)
  {
    var base := Max(baseSeconds, 1);
    assert Pow2(0) == 1 && base * 1 == base;
    if 1 <= attemptCount <= 30 {
      var p := Pow2(attemptCount - 1);
      assert Pow2(attemptCount) == 2 * p;
      DoubledProduct(base, p);
      CappedDoubling(base * p, Max(maxSeconds, base));
    }
  }

  // ---------------------------------------------------------------- guarded operations

  datatype Op =
    | Claim(worker: string, leaseSeconds: int)
    | Renew(worker: string, leaseSeconds: int)
    | Finalize(owner: Option<string>, outcome: Outcome, finished: Time)
    | RequestCancel
    | MarkCancelled(owner: Option<string>)
    | Recover(retryBase: int, retryMax: int)

  predicate Claimable(r: Run, now: Time) {
    && r.status == Queued
    && r.nextAttemptAt <= now
    && r.cancelRequestedAt == None
    && r.attemptCount < r.maxAttempts
  }

  /** `owner` may still act on the run: a named worker needs its own unexpired lease,
      the unnamed in-process owner needs a run nobody leased. */
  predicate ActiveFor(r: Run, owner: Option<string>, now: Time) {
    && r.status == Running
    && r.workerId == owner
    && r.cancelRequestedAt == None
    && (owner.Some? ==> r.leaseExpiresAt.Some? && r.leaseExpiresAt.value > now)
  }

  predicate Expired(r: Run, now: Time) {
    r.status == Running && r.leaseExpiresAt.Some? && r.leaseExpiresAt.value <= now
  }

  /** What the recovery loop does to one expired row. */
  function Recovered(r: Run, now: Time, retryBase: int, retryMax: int): Run {
    if r.cancelRequestedAt.Some? then
      r.(status := Cancelled, cancelledAt := Some(now), finishedAt := Some(now), leaseExpiresAt := None)
    else if r.attemptCount >= r.maxAttempts then
      r.(status := Failed, finishedAt := Some(now), leaseExpiresAt := None)
    else
      r.(status := Queued,
         nextAttemptAt := now + Backoff(r.attemptCount, retryBase, retryMax) * SECOND,
         claimedAt := None, workerId := None, leaseExpiresAt := None, heartbeatAt := None)
  }

  function Apply(r: Run, op: Op, now: Time): Run {
    match op
    case Claim(worker, leaseSeconds) =>
      if Claimable(r, now) then
        r.(status := Running, claimedAt := Some(now), workerId := Some(worker),
           attemptCount := r.attemptCount + 1,
           leaseExpiresAt := Some(now + leaseSeconds * SECOND), heartbeatAt := Some(now),
           finishedAt := None, cancelledAt := None)
      else r
    case Renew(worker, leaseSeconds) =>
      if ActiveFor(r, Some(worker), now) then
        r.(heartbeatAt := Some(now), leaseExpiresAt := Some(now + leaseSeconds * SECOND))
      else r
    case Finalize(owner, outcome, finished) =>
      if ActiveFor(r, owner, now) then
        r.(status := outcome.ToStatus(), finishedAt := Some(finished),
           leaseExpiresAt := None, heartbeatAt := Some(now))
      else r
    case RequestCancel =>
      if r.status == Queued then
        r.(status := Cancelled, cancelRequestedAt := Some(now), cancelledAt := Some(now),
           finishedAt := Some(now), leaseExpiresAt := None)
      else if r.status == Running then
        r.(cancelRequestedAt := Some(now))
      else r
    case MarkCancelled(owner) =>
      if r.status == Running && r.workerId == owner && r.cancelRequestedAt.Some? then
        r.(status := Cancelled, cancelledAt := Some(now), finishedAt := Some(now),
           leaseExpiresAt := None, heartbeatAt := Some(now))
      else r
    case Recover(retryBase, retryMax) =>
      if Expired(r, now) then Recovered(r, now, retryBase, retryMax) else r
  }

  // ---------------------------------------------------------------- histories

  /** One lease: who got it, when, the last expiry it was ever given, and the backoff
      recorded when recovery took it away. */
  datatype Grant = Grant(worker: string, from: Time, until: Time, backoff: Option<int>)

  datatype Acceptance = Acceptance(owner: Option<string>, at: Time)

  datatype History = History(
    run: Run,
    grants: seq<Grant>,
    accepted: seq<Acceptance>,
    changes: nat)

  datatype Event = Event(op: Op, at: Time)

  function WithLast(grants: seq<Grant>, g: Grant): seq<Grant>
    requires grants != []
  {
    grants[..|grants| - 1] + [g]
  }

  function Last(grants: seq<Grant>): Grant
    requires grants != []
  {
    grants[|grants| - 1]
  }

  /** The leases after `op`: a claim grants one, a renewal moves the latest expiry, a
      requeueing recovery stamps the latest one with the backoff it chose. */
  function GrantsAfter(h: History, op: Op, now: Time): seq<Grant> {
    var r := h.run;
    if op.Claim? && Claimable(r, now) then
      h.grants + [Grant(op.worker, now, now + op.leaseSeconds * SECOND, None)]
    else if op.Renew? && ActiveFor(r, Some(op.worker), now) && h.grants != [] then
      WithLast(h.grants, Last(h.grants).(until := now + op.leaseSeconds * SECOND))
    else if op.Recover? && Expired(r, now) && Apply(r, op, now).status == Queued && h.grants != [] then
      WithLast(h.grants,
               Last(h.grants).(backoff := Some(Backoff(r.attemptCount, op.retryBase, op.retryMax))))
    else h.grants
  }

  function AcceptedAfter(h: History, op: Op, now: Time): seq<Acceptance> {
    if op.Finalize? && ActiveFor(h.run, op.owner, now) then
      h.accepted + [Acceptance(op.owner, now)]
    else h.accepted
  }

  function Record(h: History, op: Op, now: Time): History {
    var r' := Apply(h.run, op, now);
    History(r', GrantsAfter(h, op, now), AcceptedAfter(h, op, now),
            h.changes + if r'.status != h.run.status then 1 else 0)
  }

  function Play(h: History, trace: seq<Event>): History
    decreases |trace|
  {
    if trace == [] then h else Play(Record(h, trace[0].op, trace[0].at), trace[1..])
  }

  /** The clock never runs backwards, and starts no earlier than `from`. */
  predicate Timed(trace: seq<Event>, from: Time) {
    trace == [] || (from <= trace[0].at && Timed(trace[1..], trace[0].at))
  }

  /** The time of the last event, or `from` when there is none. */
  function End(trace: seq<Event>, from: Time): Time {
    if trace == [] then from else trace[|trace| - 1].at
  }

  /** A row as `create_queued_run` inserts it. */
  predicate FreshQueued(r: Run) {
    && r.status == Queued && r.attemptCount == 0 && r.maxAttempts > 0
    && r.workerId == None && r.claimedAt == None && r.leaseExpiresAt == None
    && r.cancelRequestedAt == None && r.cancelledAt == None && r.finishedAt == None
  }

  /** A row as `create_running_run` inserts it: run in process, never leased. */
  predicate FreshInProcess(r: Run) {
    && r.status == Running && r.attemptCount == 1 && r.maxAttempts == 1
    && r.workerId == None && r.leaseExpiresAt == None
    && r.cancelRequestedAt == None && r.cancelledAt == None && r.finishedAt == None
  }

  predicate Fresh(r: Run) {
    FreshQueued(r) || FreshInProcess(r)
  }

  function Start(r: Run): History {
    History(r, [], [], 0)
  }

  // ---------------------------------------------------------------- invariants

  /** What every reachable row satisfies on its own. */
  predicate RowInv(r: Run) {
    && 0 <= r.attemptCount <= r.maxAttempts
    && r.maxAttempts > 0
    && (r.finishedAt.Some? <==> !r.status.Active())
    && (r.status == Queued ==>
          r.attemptCount < r.maxAttempts && r.workerId == None && r.leaseExpiresAt == None)
    && (r.status == Running ==> (r.workerId.Some? <==> r.leaseExpiresAt.Some?))
    && (!r.status.Active() ==> r.leaseExpiresAt == None)
    && (r.cancelRequestedAt.Some? ==> r.status == Running || r.status == Cancelled)
  }

  /** Successive leases never overlap, and the next one starts no earlier than the last
      expiry of the previous one plus the backoff chosen when it was taken away. */
  predicate LeasesSeparated(grants: seq<Grant>) {
    forall i, j :: 0 <= i < j < |grants| ==>
      && grants[i].backoff.Some? && grants[i].backoff.value >= 1
      && grants[i].until + grants[i].backoff.value * SECOND <= grants[j].from
  }

  /** At most one result is ever accepted; a worker's result arrived inside the latest
      lease, which was its own. */
  predicate AcceptedOnce(h: History) {
    && |h.accepted| <= 1
    && (forall a :: a in h.accepted && a.owner.Some? ==>
          && h.grants != []
          && var g := Last(h.grants);
             g.worker == a.owner.value && g.from <= a.at < g.until)
    && (h.accepted != [] ==> h.run.status in {Succeeded, PartiallySucceeded, Failed})
  }

  predicate LastGrantMatches(h: History) {
    h.grants != [] ==>
      var g := Last(h.grants);
      && (h.run.status == Running ==>
            h.run.workerId == Some(g.worker) && h.run.leaseExpiresAt == Some(g.until))
      && (h.run.status == Queued ==>
            && g.backoff.Some? && g.backoff.value >= 1
            && g.until + g.backoff.value * SECOND <= h.run.nextAttemptAt)
  }

  /** Status changes a row can still make. */
  function Budget(r: Run): int {
    match r.status
    case Queued => 2 * (r.maxAttempts - r.attemptCount)
    case Running => 2 * (r.maxAttempts - r.attemptCount) + 1
    case _ => 0
  }

  predicate Inv(h: History, now: Time) {
    && RowInv(h.run)
    && (h.grants == [] && h.run.status == Running ==> h.run.workerId == None)
    && (forall i :: 0 <= i < |h.grants| ==> h.grants[i].from <= now)
    && LeasesSeparated(h.grants)
    && LastGrantMatches(h)
    && AcceptedOnce(h)
    && (h.run.status.Active() ==> h.accepted == [])
    && h.changes + Budget(h.run) <= 2 * h.run.maxAttempts
  }

  lemma RowInvKept(r: Run, op: Op, now: Time)
    requires RowInv(r)
    ensures RowInv(Apply(r, op, now))
  {
  }

  lemma ClaimKeepsInv(h: History, op: Op, now: Time, before: Time)
    requires Inv(h, before) && before <= now && op.Claim?
    ensures Inv(Record(h, op, now), now)
  {
  }

  lemma RenewKeepsInv(h: History, op: Op, now: Time, before: Time)
    requires Inv(h, before) && before <= now && op.Renew?
    ensures Inv(Record(h, op, now), now)
  {
  }

  lemma RecoverKeepsInv(h: History, op: Op, now: Time, before: Time)
    requires Inv(h, before) && before <= now && op.Recover?
    ensures Inv(Record(h, op, now), now)
  {
  }

  lemma EndingKeepsInv(h: History, op: Op, now: Time, before: Time)
    requires Inv(h, before) && before <= now
    requires op.Finalize? || op.RequestCancel? || op.MarkCancelled?
    ensures Inv(Record(h, op, now), now)
  {
  }

  lemma StepKeepsInv(h: History, op: Op, now: Time, before: Time)
    requires Inv(h, before) && before <= now
    ensures Inv(Record(h, op, now), now)
  {
    match op
    case Claim(_, _) => ClaimKeepsInv(h, op, now, before);
    case Renew(_, _) => RenewKeepsInv(h, op, now, before);
    case Recover(_, _) => RecoverKeepsInv(h, op, now, before);
    case _ => EndingKeepsInv(h, op, now, before);
  }

  lemma PlayFirst(h: History, trace: seq<Event>, from: Time)
    requires trace != []
    ensures Play(h, trace) == Play(Record(h, trace[0].op, trace[0].at), trace[1..])
    ensures End(trace, from) == End(trace[1..], trace[0].at)
    ensures Record(h, trace[0].op, trace[0].at).run.maxAttempts == h.run.maxAttempts
  {
  }

  lemma {:induction false} TraceKeepsInv(h: History, trace: seq<Event>, from: Time)
    requires Inv(h, from) && Timed(trace, from)
    ensures Inv(Play(h, trace), End(trace, from))
    ensures Play(h, trace).run.maxAttempts == h.run.maxAttempts
    decreases |trace|
  {
    if trace != [] {
      var h', rest, now := Record(h, trace[0].op, trace[0].at), trace[1..], trace[0].at;
      assert Timed(rest, now);
      PlayFirst(h, trace, from);
      StepKeepsInv(h, trace[0].op, now, from);
      TraceKeepsInv(h', rest, now);
    }
  }

  // ---------------------------------------------------------------- theorems over whole runs

  predicate ValidAt(g: Grant, t: Time) {
    g.from <= t < g.until
  }

  ghost predicate AtMostOneValid(grants: seq<Grant>) {
    forall t: Time, i, j ::
      (0 <= i < j < |grants|) ==> !(ValidAt(grants[i], t) && ValidAt(grants[j], t))
  }

  /** For every interleaving: leases are separated by expiry plus backoff, no instant
      falls into two of them, and at most one result is accepted, from the holder of the
      latest lease while it was valid. */
  lemma LeaseSafety(r: Run, trace: seq<Event>, from: Time)
    requires Fresh(r) && Timed(trace, from)
    ensures var h := Play(Start(r), trace);
            && LeasesSeparated(h.grants)
            && AcceptedOnce(h)
            && AtMostOneValid(h.grants)
  {
    TraceKeepsInv(Start(r), trace, from);
  }

  /** Every run settles: it changes status at most 2 * max_attempts times, is attempted
      at most max_attempts times, and carries a finish time exactly when it is over. */
  lemma BoundedLife(r: Run, trace: seq<Event>, from: Time)
    requires Fresh(r) && Timed(trace, from)
    ensures var h := Play(Start(r), trace);
            && h.changes <= 2 * r.maxAttempts
            && (!h.run.status.Active() || h.changes < 2 * r.maxAttempts)
            && h.run.attemptCount <= r.maxAttempts
            && (h.run.finishedAt.Some? <==> !h.run.status.Active())
            && (h.run.status == Queued ==> h.run.cancelRequestedAt == None)
  {
    TraceKeepsInv(Start(r), trace, from);
  }

  /** Once a lease has lapsed no later operation revives it: its expiry stays what it was. */
  lemma {:induction false} LapsedLeaseStaysLapsed(h: History, trace: seq<Event>, from: Time, i: nat)
    requires Inv(h, from) && Timed(trace, from)
    requires i < |h.grants| && h.grants[i].until <= from
    ensures i < |Play(h, trace).grants|
    ensures var g := Play(h, trace).grants[i];
            g.worker == h.grants[i].worker && g.from == h.grants[i].from && g.until == h.grants[i].until
    decreases |trace|
  {
    if trace != [] {
      var h' := Record(h, trace[0].op, trace[0].at);
      StepKeepsInv(h, trace[0].op, trace[0].at, from);
      assert i < |h'.grants| && h'.grants[i].until == h.grants[i].until;
      LapsedLeaseStaysLapsed(h', trace[1..], trace[0].at, i);
    }
  }

  /** Operations an execution issues in the name of its worker. */
  predicate IssuedBy(op: Op, worker: string) {
    || (op.Renew? && op.worker == worker)
    || (op.Finalize? && op.owner == Some(worker))
    || (op.MarkCancelled? && op.owner == Some(worker))
  }

  /** The fencing token is the worker id. The holder of a superseded lease can still act
      on the run exactly when the run is active for the worker of the latest lease and
      that worker is the same one; a different worker never can. */
  lemma SupersededWorkerFenced(h: History, now: Time, i: nat)
    requires Inv(h, now) && i < |h.grants| - 1
    ensures ActiveFor(h.run, Some(h.grants[i].worker), now) <==>
              (h.grants[i].worker == Last(h.grants).worker
               && ActiveFor(h.run, Some(Last(h.grants).worker), now))
    ensures h.grants[i].worker != Last(h.grants).worker ==>
              forall op: Op :: IssuedBy(op, h.grants[i].worker) ==> Record(h, op, now) == h
  {
  }

  const DEMO_RUN: Run :=
    Run("erp", "notifications", Queued, 0, None, None, None, 0, 2, 0, None, None, None, None, None)

  const DEMO_TRACE: seq<Event> :=
    [Event(Claim("a", 1), 0), Event(Recover(1, 1), SECOND), Event(Claim("a", 1), 2 * SECOND),
     Event(Finalize(Some("a"), Success, 2 * SECOND), 2 * SECOND)]

  /** Worker "a" claims DEMO_RUN, loses it, and claims it again. */
  function DemoHistory(k: nat): History
    requires k <= 3
  {
    var leased := DEMO_RUN.(status := Running, claimedAt := Some(0), workerId := Some("a"), attemptCount := 1,
                            leaseExpiresAt := Some(SECOND), heartbeatAt := Some(0));
    var back := DEMO_RUN.(attemptCount := 1, nextAttemptAt := 2 * SECOND);
    var again := back.(status := Running, claimedAt := Some(2 * SECOND), workerId := Some("a"), attemptCount := 2,
                       leaseExpiresAt := Some(3 * SECOND), heartbeatAt := Some(2 * SECOND));
    var first, second := Grant("a", 0, SECOND, Some(1)), Grant("a", 2 * SECOND, 3 * SECOND, None);
    match k
    case 0 => Start(DEMO_RUN)
    case 1 => History(leased, [first.(backoff := None)], [], 1)
    case 2 => History(back, [first], [], 2)
    case _ => History(again, [first, second], [], 3)
  }

  lemma DemoStep(k: nat)
    requires k < 3
    ensures Record(DemoHistory(k), DEMO_TRACE[k].op, DEMO_TRACE[k].at) == DemoHistory(k + 1)
  {
    assert Pow2(0) == 1 && Backoff(1, 1, 1) == 1;
  }

  /** The repository cannot tell two leases of one worker apart: a result offered in the
      name of the worker of the first lease is accepted under its second one. That it is
      never the result of the first execution is up to the worker loop. */
  lemma SameWorkerIsNotFenced()
    ensures Timed(DEMO_TRACE, 0)
    ensures var h := Play(Start(DEMO_RUN), DEMO_TRACE);
            && |h.grants| == 2 && h.grants[0].worker == h.grants[1].worker
            && h.accepted == [Acceptance(Some(h.grants[0].worker), End(DEMO_TRACE, 0))]
  {
    DemoStep(0);
    DemoStep(1);
    DemoStep(2);
    PlayFour(Start(DEMO_RUN), DEMO_TRACE);
    assert ActiveFor(DemoHistory(3).run, Some("a"), 2 * SECOND);
  }

  lemma PlayFour(h: History, trace: seq<Event>)
    requires |trace| == 4
    ensures var h2 := Record(Record(h, trace[0].op, trace[0].at), trace[1].op, trace[1].at);
            Play(h, trace) == Record(Record(h2, trace[2].op, trace[2].at), trace[3].op, trace[3].at)
    ensures forall from :: from <= trace[0].at <= trace[1].at <= trace[2].at <= trace[3].at ==> Timed(trace, from)
  {
    var last := [trace[3]];
    var late := [trace[2]] + last;
    assert trace[1..][1..] == late && late[1..] == last && last[1..] == [];
    assert trace[1].at <= trace[2].at <= trace[3].at ==> Timed(last, trace[2].at) && Timed(late, trace[1].at);
    assert trace[0].at <= trace[1].at <= trace[2].at <= trace[3].at ==> Timed(trace[1..], trace[0].at);
    var h1 := Record(h, trace[0].op, trace[0].at);
    var h2 := Record(h1, trace[1].op, trace[1].at);
    var h3 := Record(h2, trace[2].op, trace[2].at);
    assert Play(h3, last) == Record(h3, trace[3].op, trace[3].at);
    assert Play(h2, late) == Play(h3, last);
    assert Play(h1, trace[1..]) == Play(h2, late);
  }

  /** After a cancel request no operation grants or renews a lease, accepts a result,
      requeues the run, or lets it end as anything but cancelled. */
  lemma {:induction false} CancellationIsFinal(h: History, trace: seq<Event>, from: Time)
    requires Inv(h, from) && Timed(trace, from) && h.run.cancelRequestedAt.Some?
    ensures var h' := Play(h, trace);
            && h'.run.cancelRequestedAt.Some?
            && h'.grants == h.grants
            && h'.accepted == h.accepted
            && (h'.run.status == h.run.status || h'.run.status == Cancelled)
    decreases |trace|
  {
    if trace != [] {
      StepKeepsInv(h, trace[0].op, trace[0].at, from);
      CancellationIsFinal(Record(h, trace[0].op, trace[0].at), trace[1..], trace[0].at);
    }
  }

  /** Nothing leased gets stuck: a queued run is claimable from exactly next_attempt_at
      on, and recovery moves a leased run from exactly its expiry on. */
  lemma LeasedRunNeverStuck(h: History, now: Time, retryBase: int, retryMax: int)
    requires Inv(h, now)
    ensures h.run.status == Queued ==>
              forall t :: Claimable(h.run, t) <==> h.run.nextAttemptAt <= t
    ensures h.run.status == Running && h.grants != [] ==>
              forall t :: Apply(h.run, Recover(retryBase, retryMax), t).status != Running
                          <==> Last(h.grants).until <= t
  {
  }

  predicate ByWorkers(trace: seq<Event>) {
    forall e :: e in trace ==>
      || e.op.Claim? || e.op.Renew? || e.op.Recover?
      || (e.op.Finalize? && e.op.owner.Some?) || (e.op.MarkCancelled? && e.op.owner.Some?)
  }

  /** An in-process run has no lease: no worker and no recovery pass ever moves it, so if
      its process dies it stays running until an operator intervenes. */
  lemma {:induction false} InProcessRunNeverRecovered(h: History, trace: seq<Event>)
    requires FreshInProcess(h.run) && ByWorkers(trace)
    ensures Play(h, trace) == h
    decreases |trace|
  {
    if trace != [] {
      assert trace[0] in trace;
      assert Record(h, trace[0].op, trace[0].at) == h;
      InProcessRunNeverRecovered(h, trace[1..]);
    }
  }

  // ---------------------------------------------------------------- what each operation achieves

  /** Everything but the lease and progress columns. */
  predicate SameJob(a: Run, b: Run) {
    a.source == b.source && a.target == b.target && a.startedAt == b.startedAt
    && a.maxAttempts == b.maxAttempts && a.parentRunId == b.parentRunId
  }

  /** A claim is one more attempt and makes the run the worker's for exactly the lease. */
  lemma ClaimGivesTheLease(r: Run, worker: string, leaseSeconds: int, now: Time)
    requires Claimable(r, now)
    ensures var r' := Apply(r, Claim(worker, leaseSeconds), now);
            && SameJob(r', r) && r'.attemptCount == r.attemptCount + 1 && r'.claimedAt == Some(now)
            && (forall t, owner :: ActiveFor(r', owner, t) <==> owner == Some(worker) && t < now + leaseSeconds * SECOND)
  {
  }

  /** A renewal moves the end of the lease and nothing else a guard reads. */
  lemma RenewalMovesTheEnd(r: Run, worker: string, leaseSeconds: int, now: Time)
    requires ActiveFor(r, Some(worker), now)
    ensures var r' := Apply(r, Renew(worker, leaseSeconds), now);
            && r' == r.(heartbeatAt := Some(now), leaseExpiresAt := r'.leaseExpiresAt)
            && (forall t, owner :: ActiveFor(r', owner, t) <==> owner == Some(worker) && t < now + leaseSeconds * SECOND)
  {
  }

  /** A run nobody leased is active for its in-process owner until it ends or a cancel. */
  lemma InProcessFence(r: Run, now: Time)
    requires RowInv(r)
    ensures ActiveFor(r, None, now) <==> r.status == Running && r.leaseExpiresAt.None? && r.cancelRequestedAt.None?
  {
  }

  /** An accepted result ends the run with the status it reports, at the time it reports. */
  lemma ResultEndsTheRun(r: Run, owner: Option<string>, outcome: Outcome, finished: Time, now: Time)
    requires ActiveFor(r, owner, now)
    ensures var r' := Apply(r, Finalize(owner, outcome, finished), now);
            && SameJob(r', r) && r'.finishedAt == Some(finished) && r'.attemptCount == r.attemptCount
            && r'.workerId == r.workerId && r'.cancelledAt == r.cancelledAt
            && (r'.status == Succeeded <==> outcome == Success)
            && (r'.status == PartiallySucceeded <==> outcome == PartialSuccess)
            && (r'.status == Failed <==> outcome == Failure)
  {
  }

  /** A cancel request ends a queued run at once, leaves a running one to its worker with the
      request noted, and does nothing to an ended one. */
  lemma CancelRequestTakesEffect(r: Run, now: Time)
    ensures var r' := Apply(r, RequestCancel, now);
            && (r.status == Queued ==> r'.status == Cancelled && r'.cancelledAt == r'.finishedAt == r'.cancelRequestedAt == Some(now))
            && (r.status == Running ==> r' == r.(cancelRequestedAt := Some(now)))
            && (!r.status.Active() ==> r' == r)
  {
  }

  /** The owner's acknowledgement ends a running run with a pending request, and no other. */
  lemma CancelIsAcknowledged(r: Run, owner: Option<string>, now: Time)
    ensures var r' := Apply(r, MarkCancelled(owner), now);
            if r.status == Running && r.cancelRequestedAt.Some? && r.workerId == owner
            then SameJob(r', r) && r'.status == Cancelled && r'.cancelledAt == r'.finishedAt == Some(now)
            else r' == r
  {
  }

  /** An expired lease with a cancel request ends as cancelled, one on the last attempt as
      failed, and any other makes the run claimable from exactly the backoff on. */
  lemma RecoveryDecides(r: Run, retryBase: int, retryMax: int, now: Time)
    requires RowInv(r) && Expired(r, now)
    ensures var r' := Apply(r, Recover(retryBase, retryMax), now);
            && SameJob(r', r) && r'.attemptCount == r.attemptCount
            && (r.cancelRequestedAt.Some? ==> r'.status == Cancelled && r'.cancelledAt == r'.finishedAt == Some(now))
            && (r.cancelRequestedAt.None? && r.attemptCount == r.maxAttempts ==>
                  r'.status == Failed && r'.finishedAt == Some(now))
            && (r.cancelRequestedAt.None? && r.attemptCount < r.maxAttempts ==>
                  r'.status == Queued
                  && forall t :: Claimable(r', t) <==> now + Backoff(r.attemptCount, retryBase, retryMax) * SECOND <= t)
  {
  }

  // ---------------------------------------------------------------- runs nobody finishes

  /** Only claims, renewals and recoveries: no result, no cancel. */
  predicate Abandoned(op: Op) {
    op.Claim? || op.Renew? || op.Recover?
  }

  predicate AllAbandoned(trace: seq<Event>) {
    forall i :: 0 <= i < |trace| ==> Abandoned(trace[i].op)
  }

  /** Every attempt so far was one lease, and every status change is accounted for. */
  predicate AbandonedInv(h: History) {
    && h.run.attemptCount == |h.grants| && h.run.cancelRequestedAt.None?
    && h.changes + Budget(h.run) == 2 * h.run.maxAttempts
    && (h.run.status == Queued || (h.run.status == Running && h.grants != [])
        || (h.run.status == Failed && h.run.attemptCount == h.run.maxAttempts))
  }

  lemma AbandonedStep(h: History, op: Op, now: Time, before: Time)
    requires Inv(h, before) && before <= now && AbandonedInv(h) && Abandoned(op)
    ensures AbandonedInv(Record(h, op, now))
  {
  }

  lemma {:induction false} AbandonedTrace(h: History, trace: seq<Event>, from: Time)
    requires Inv(h, from) && AbandonedInv(h) && Timed(trace, from) && AllAbandoned(trace)
    ensures AbandonedInv(Play(h, trace))
    ensures Play(h, trace).run.maxAttempts == h.run.maxAttempts
    decreases |trace|
  {
    if trace != [] {
      PlayFirst(h, trace, from);
      AbandonedStep(h, trace[0].op, trace[0].at, from);
      StepKeepsInv(h, trace[0].op, trace[0].at, from);
      assert forall i :: 0 <= i < |trace[1..]| ==> trace[1..][i] == trace[i + 1];
      AbandonedTrace(Record(h, trace[0].op, trace[0].at), trace[1..], trace[0].at);
    }
  }

  /** A run whose every lease lapses ends as failed, after exactly max_attempts leases and
      2 * max_attempts status changes, whoever claims and recovers it and when. */
  lemma AbandonedRunFailsAtTheLimit(r: Run, trace: seq<Event>, from: Time)
    requires FreshQueued(r) && Timed(trace, from) && AllAbandoned(trace)
    ensures var h := Play(Start(r), trace);
            && h.run.attemptCount == |h.grants| <= r.maxAttempts
            && (!h.run.status.Active() ==>
                  h.run.status == Failed && |h.grants| == r.maxAttempts && h.changes == 2 * r.maxAttempts)
  {
    AbandonedTrace(Start(r), trace, from);
    BoundedLife(r, trace, from);
  }

  /** And it does end: from any point claims and recoveries lead there. */
  lemma {:induction false} AbandonedRunEnds(h: History, from: Time) returns (trace: seq<Event>)
    requires Inv(h, from) && AbandonedInv(h)
    ensures Timed(trace, from) && AllAbandoned(trace)
    ensures Play(h, trace).run.status == Failed
    decreases Budget(h.run)
  {
    if h.run.status == Failed {
      trace := [];
    } else {
      var e := if h.run.status == Queued then Event(Claim("w", 1), Max(from, h.run.nextAttemptAt))
               else Event(Recover(1, 1), Max(from, h.run.leaseExpiresAt.value));
      var h' := Record(h, e.op, e.at);
      StepKeepsInv(h, e.op, e.at, from);
      AbandonedStep(h, e.op, e.at, from);
      var rest := AbandonedRunEnds(h', e.at);
      trace := [e] + rest;
      assert trace[1..] == rest;
    }
  }
}
