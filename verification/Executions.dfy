/** Which execution a run's result comes from.

    The repository knows a worker only by its id. The worker loop adds the rest: an id is
    drawn once per process, and the loop claims again only after the execution it started
    has returned and its renewal task has stopped. An execution is numbered by the lease
    that started it. A process that dies, or a claim whose answer is lost, is an execution
    that stops at once.
  */
module Executions {
  import opened Common
  import opened RunLease

  /** `busy` maps a worker to the execution it is in; `results` says, for each accepted
      result, which execution delivered it (None for a run executed in process). */
  datatype World = World(history: History, busy: map<string, nat>, results: seq<Option<nat>>)

  datatype Step =
    | Claims(worker: string, leaseSeconds: int)
    | Acts(worker: string, op: Op)
    | Stops(worker: string)
    | Others(op: Op)

  datatype TimedStep = TimedStep(step: Step, at: Time)

  /** Operations nobody issues in the name of a worker. */
  predicate Anonymous(op: Op) {
    op.RequestCancel? || op.Recover? || (op.Finalize? && op.owner.None?) || (op.MarkCancelled? && op.owner.None?)
  }

  function Recorded(w: World, op: Op, at: Time, execution: Option<nat>): World {
    var h' := Record(w.history, op, at);
    w.(history := h', results := if |h'.accepted| > |w.history.accepted| then w.results + [execution] else w.results)
  }

  function Next(w: World, step: Step, at: Time): World {
    match step
    case Claims(worker, leaseSeconds) =>
      if worker in w.busy || !Claimable(w.history.run, at) then w
      else Recorded(w, Claim(worker, leaseSeconds), at, None).(busy := w.busy[worker := |w.history.grants|])
    case Acts(worker, op) =>
      if worker in w.busy && IssuedBy(op, worker) then Recorded(w, op, at, Some(w.busy[worker])) else w
    case Stops(worker) => w.(busy := w.busy - {worker})
    case Others(op) => if Anonymous(op) then Recorded(w, op, at, None) else w
  }

  function Execute(w: World, steps: seq<TimedStep>): World
    decreases |steps|
  {
    if steps == [] then w else Execute(Next(w, steps[0].step, steps[0].at), steps[1..])
  }

  predicate InOrder(steps: seq<TimedStep>, from: Time) {
    steps == [] || (from <= steps[0].at && InOrder(steps[1..], steps[0].at))
  }

  function EndOf(steps: seq<TimedStep>, from: Time): Time {
    if steps == [] then from else steps[|steps| - 1].at
  }

  /** `e` is the newest lease the worker was ever granted. */
  predicate Newest(grants: seq<Grant>, worker: string, e: nat) {
    && e < |grants| && grants[e].worker == worker
    && forall j :: e < j < |grants| ==> grants[j].worker != worker
  }

  predicate ResultsCurrent(w: World) {
    && |w.results| == |w.history.accepted|
    && forall i :: 0 <= i < |w.results| && w.history.accepted[i].owner.Some? ==>
         w.results[i] == Some(|w.history.grants| - 1)
  }

  predicate WorldInv(w: World, now: Time) {
    && Inv(w.history, now)
    && (forall worker :: worker in w.busy ==> Newest(w.history.grants, worker, w.busy[worker]))
    && ResultsCurrent(w)
  }

  /** No operation moves a lease to another worker or drops one. */
  lemma WorkersStay(h: History, op: Op, now: Time)
    ensures var grants' := GrantsAfter(h, op, now);
            && |h.grants| <= |grants'| <= |h.grants| + 1
            && (|grants'| > |h.grants| ==> op.Claim?)
            && forall i :: 0 <= i < |h.grants| ==> grants'[i].worker == h.grants[i].worker
  {
  }

  /** What an execution may still do to its run: exactly as long as its lease is the latest
      one, has not expired, and no cancellation was requested, the run is active for it. */
  lemma ExecutionFence(w: World, worker: string, now: Time)
    requires WorldInv(w, now) && worker in w.busy
    ensures ActiveFor(w.history.run, Some(worker), now) <==>
              && w.busy[worker] == |w.history.grants| - 1
              && w.history.run.status == Running && w.history.run.cancelRequestedAt.None?
              && now < Last(w.history.grants).until
  {
    assert Newest(w.history.grants, worker, w.busy[worker]);
  }

  lemma RecordedKeepsInv(w: World, op: Op, now: Time, before: Time, execution: Option<nat>)
    requires WorldInv(w, before) && before <= now && !op.Claim?
    requires execution.None? ==> Anonymous(op)
    requires execution.Some? ==> exists worker :: worker in w.busy && IssuedBy(op, worker) && w.busy[worker] == execution.value
    ensures WorldInv(Recorded(w, op, now, execution), now)
  {
    StepKeepsInv(w.history, op, now, before);
    WorkersStay(w.history, op, now);
    var w' := Recorded(w, op, now, execution);
    forall worker | worker in w'.busy ensures Newest(w'.history.grants, worker, w'.busy[worker]) {
      assert Newest(w.history.grants, worker, w.busy[worker]);
    }
    if execution.Some? && |w'.history.accepted| > |w.history.accepted| {
      var worker :| worker in w.busy && IssuedBy(op, worker) && w.busy[worker] == execution.value;
      assert Newest(w.history.grants, worker, w.busy[worker]);
    }
  }

  lemma ClaimKeepsWorld(w: World, worker: string, leaseSeconds: int, now: Time, before: Time)
    requires WorldInv(w, before) && before <= now
    ensures WorldInv(Next(w, Claims(worker, leaseSeconds), now), now)
  {
    var op := Claim(worker, leaseSeconds);
    StepKeepsInv(w.history, op, now, before);
    WorkersStay(w.history, op, now);
    var w' := Next(w, Claims(worker, leaseSeconds), now);
    forall other | other in w'.busy ensures Newest(w'.history.grants, other, w'.busy[other]) {
      assert other in w.busy ==> Newest(w.history.grants, other, w.busy[other]);
    }
  }

  lemma StepKeepsWorld(w: World, step: Step, now: Time, before: Time)
    requires WorldInv(w, before) && before <= now
    ensures WorldInv(Next(w, step, now), now)
  {
    match step
    case Claims(worker, leaseSeconds) => ClaimKeepsWorld(w, worker, leaseSeconds, now, before);
    case Acts(worker, op) =>
      if worker in w.busy && IssuedBy(op, worker) {
        RecordedKeepsInv(w, op, now, before, Some(w.busy[worker]));
      }
    case Stops(worker) =>
      assert forall other :: other in w.busy ==> Newest(w.history.grants, other, w.busy[other]);
    case Others(op) =>
      if Anonymous(op) {
        RecordedKeepsInv(w, op, now, before, None);
      }
  }

  lemma {:induction false} ScheduleKeepsWorld(w: World, steps: seq<TimedStep>, from: Time)
    requires WorldInv(w, from) && InOrder(steps, from)
    ensures WorldInv(Execute(w, steps), EndOf(steps, from))
    decreases |steps|
  {
    if steps != [] {
      StepKeepsWorld(w, steps[0].step, steps[0].at, from);
      ScheduleKeepsWorld(Next(w, steps[0].step, steps[0].at), steps[1..], steps[0].at);
    }
  }

  /** In every schedule of worker loops, operators and recovery: a worker's accepted result
      was delivered by the execution of the run's latest lease, while that lease was valid,
      and at most one result is accepted. */
  lemma ResultsComeFromLatestLease(r: Run, steps: seq<TimedStep>, from: Time)
    requires Fresh(r) && InOrder(steps, from)
    ensures var w := Execute(World(Start(r), map[], []), steps);
            && |w.results| == |w.history.accepted| <= 1
            && forall i :: 0 <= i < |w.results| && w.history.accepted[i].owner.Some? ==>
                 && w.results[i] == Some(|w.history.grants| - 1)
                 && ValidAt(Last(w.history.grants), w.history.accepted[i].at)
                 && Last(w.history.grants).worker == w.history.accepted[i].owner.value
  {
    ScheduleKeepsWorld(World(Start(r), map[], []), steps, from);
    var w := Execute(World(Start(r), map[], []), steps);
    forall i | 0 <= i < |w.history.accepted| ensures w.history.accepted[i] in w.history.accepted {
    }
  }

  /** A worker that claims a fresh run and delivers inside its lease has its result accepted,
      as that of execution 0; offered after the lease it is not. */
  lemma LoopDelivers(r: Run, worker: string, leaseSeconds: int, outcome: Outcome, at: Time, later: Time)
    requires FreshQueued(r) && r.nextAttemptAt <= at <= later
    ensures var claimed := Next(World(Start(r), map[], []), Claims(worker, leaseSeconds), at);
            var done := Next(claimed, Acts(worker, Finalize(Some(worker), outcome, later)), later);
            && claimed.busy == map[worker := 0] && |claimed.history.grants| == 1
            && (if later < at + leaseSeconds * SECOND
                then done.results == [Some(0)] && done.history.accepted == [Acceptance(Some(worker), later)]
                     && !done.history.run.status.Active()
                else done == claimed)
  {
    ClaimGivesTheLease(r, worker, leaseSeconds, at);
  }
}
