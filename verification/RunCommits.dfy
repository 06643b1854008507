/** Import and result of one connector run, committed together.

    An execution imports and finalises in one transaction: its records become visible only
    if finalise_if_active accepts the result, which is the transaction's last statement and
    keeps the run row locked until the commit; a refused result rolls the import back. Here
    that transaction is one step, taken when it ends. Around it run the worker loops,
    recovery and cancellation of the run, imports of other runs, and manual edits that write
    back what they have read.
  */
module RunCommits {
  import opened Common
  import opened RunLease
  import Executions
  import opened Reconcile

  datatype Edit = Edit(id: int, found: Record)

  /** The run `runId` and the records of every connector. */
  datatype State = State(runId: int, world: Executions.World, rows: Rows, edits: map<int, Edit>)

  datatype Delivery = Delivery(outcome: Outcome, finished: Time, payload: Payload, connector: Connector, imported: Rows, log: Log)

  /** Deliver: the owner of an execution ends its transaction. Plainly: any other step of
      the run, a result without records included. */
  datatype Step =
    | Plainly(step: Executions.Step)
    | Deliver(owner: Option<string>, delivery: Delivery)
    | OtherImport(rows: Rows)
    | ReadRecord(tx: int, id: int)
    | SaveRecord(tx: int)
    | DeleteRecord(id: int)

  datatype TimedStep = TimedStep(step: Step, at: Time)

  function Errors(d: Delivery): nat {
    ErrorCount(d.payload, |d.payload.items|)
  }

  /** The records after the transaction, as Reconcile.RecordTable.Import leaves them. */
  function Delivered(s: State, d: Delivery, at: Time): Rows {
    if ShouldReconcile(d.payload.snapshotComplete, Errors(d)) then Archive(d.imported, d.connector.id, s.runId, at)
    else d.imported
  }

  predicate Imports(s: State, d: Delivery) {
    Upserted(d.payload, |d.payload.items|, d.connector, s.runId, s.rows, d.imported, d.log)
  }

  /** The owner is executing the run, and the run is active for it. */
  predicate Accepts(s: State, owner: Option<string>, at: Time) {
    (owner.Some? ==> owner.value in s.world.busy) && ActiveFor(s.world.history.run, owner, at)
  }

  function ExecutionOf(s: State, owner: Option<string>): Option<nat> {
    if owner.Some? && owner.value in s.world.busy then Some(s.world.busy[owner.value]) else None
  }

  function Next(s: State, step: Step, at: Time): State {
    match step
    case Plainly(plain) => s.(world := Executions.Next(s.world, plain, at))
    case Deliver(owner, d) =>
      if Accepts(s, owner, at) && Imports(s, d) then
        s.(world := Executions.Recorded(s.world, Finalize(owner, d.outcome, d.finished), at, ExecutionOf(s, owner)),
           rows := Delivered(s, d, at))
      else s
    case OtherImport(rows) => if StampsNothingNew(s, rows) then s.(rows := rows) else s
    case ReadRecord(tx, id) => if id in s.rows then s.(edits := s.edits[tx := Edit(id, s.rows[id])]) else s
    case SaveRecord(tx) =>
      if tx in s.edits && s.edits[tx].id in s.rows
      then s.(rows := s.rows[s.edits[tx].id := s.edits[tx].found], edits := s.edits - {tx})
      else s
    case DeleteRecord(id) => s.(rows := s.rows - {id})
  }

  /** An import of another run stamps its own id: no record gets this run's stamp by it. */
  predicate StampsNothingNew(s: State, rows: Rows) {
    forall id :: id in rows && rows[id].lastSeenRunId == Some(s.runId) ==>
      id in s.rows && s.rows[id].lastSeenRunId == Some(s.runId)
  }

  function Execute(s: State, steps: seq<TimedStep>): State
    decreases |steps|
  {
    if steps == [] then s else Execute(Next(s, steps[0].step, steps[0].at), steps[1..])
  }

  predicate InOrder(steps: seq<TimedStep>, from: Time) {
    steps == [] || (from <= steps[0].at && InOrder(steps[1..], steps[0].at))
  }

  function EndOf(steps: seq<TimedStep>, from: Time): Time {
    if steps == [] then from else steps[|steps| - 1].at
  }

  /** No record, and no record somebody has read, carries the run's stamp. */
  predicate Unstamped(s: State) {
    && (forall id :: id in s.rows ==> s.rows[id].lastSeenRunId != Some(s.runId))
    && (forall tx :: tx in s.edits ==> s.edits[tx].found.lastSeenRunId != Some(s.runId))
  }

  predicate Inv(s: State, now: Time) {
    && Executions.WorldInv(s.world, now)
    && (s.world.history.accepted == [] ==> Unstamped(s))
  }

  lemma AcceptanceOnlyGrows(w: Executions.World, step: Executions.Step, at: Time)
    ensures |w.history.accepted| <= |Executions.Next(w, step, at).history.accepted|
  {
  }

  lemma DeliverKeepsInv(s: State, owner: Option<string>, d: Delivery, now: Time, before: Time)
    requires Inv(s, before) && before <= now
    ensures Inv(Next(s, Deliver(owner, d), now), now)
  {
    if Accepts(s, owner, now) && Imports(s, d) {
      var op := Finalize(owner, d.outcome, d.finished);
      Executions.RecordedKeepsInv(s.world, op, now, before, ExecutionOf(s, owner));
    } else {
      WaitKeepsWorld(s.world, now, before);
    }
  }

  lemma WaitKeepsWorld(w: Executions.World, now: Time, before: Time)
    requires Executions.WorldInv(w, before) && before <= now
    ensures Executions.WorldInv(w, now)
  {
  }

  lemma StepKeepsInv(s: State, step: Step, now: Time, before: Time)
    requires Inv(s, before) && before <= now
    ensures Inv(Next(s, step, now), now)
  {
    match step
    case Plainly(plain) =>
      Executions.StepKeepsWorld(s.world, plain, now, before);
      AcceptanceOnlyGrows(s.world, plain, now);
    case Deliver(owner, d) => DeliverKeepsInv(s, owner, d, now, before);
    case _ => WaitKeepsWorld(s.world, now, before);
  }

  predicate Initial(s: State) {
    && Fresh(s.world.history.run) && s.world == Executions.World(Start(s.world.history.run), map[], [])
    && Unstamped(s)
  }

  lemma {:induction false} ScheduleKeepsInv(s: State, steps: seq<TimedStep>, from: Time)
    requires Inv(s, from) && InOrder(steps, from)
    ensures Inv(Execute(s, steps), EndOf(steps, from))
    decreases |steps|
  {
    if steps != [] {
      var first, rest := steps[0], steps[1..];
      assert EndOf(steps, from) == EndOf(rest, first.at) && Execute(s, steps) == Execute(Next(s, first.step, first.at), rest);
      StepKeepsInv(s, first.step, first.at, from);
      ScheduleKeepsInv(Next(s, first.step, first.at), rest, first.at);
    }
  }

  lemma InitialInv(s: State, now: Time)
    requires Initial(s)
    ensures Inv(s, now)
  {
  }

  /** Whatever is interleaved: as long as no result of the run was accepted no record carries
      its stamp; at most one is accepted; and a worker's was delivered, together with its
      records, by the execution of the latest lease while that was valid. */
  lemma StampsComeWithTheResult(s: State, steps: seq<TimedStep>, from: Time)
    requires (Initial(s) || Inv(s, from)) && InOrder(steps, from)
    ensures var t := Execute(s, steps);
            && |t.world.history.accepted| <= 1
            && (t.world.history.accepted == [] ==> Unstamped(t))
            && Executions.ResultsCurrent(t.world) && AcceptedOnce(t.world.history)
  {
    if Initial(s) {
      InitialInv(s, from);
    }
    ScheduleKeepsInv(s, steps, from);
  }

  /** The run was not ended before, and its result is this one, of the latest lease. */
  lemma DeliveryIsTheResult(t: State, owner: Option<string>, d: Delivery, at: Time)
    requires Inv(t, at) && Accepts(t, owner, at) && Imports(t, d)
    ensures var w := Next(t, Deliver(owner, d), at).world;
            && t.world.history.accepted == [] && Unstamped(t)
            && w.history.accepted == [Acceptance(owner, at)]
            && (owner.Some? ==> w.results == [Some(|t.world.history.grants| - 1)])
  {
    assert t.world.history.accepted == [];
    if owner.Some? {
      Executions.ExecutionFence(t.world, owner.value, at);
    }
  }

  /** A complete import on records its run has not seen leaves exactly its records live. */
  lemma DeliveredRecords(t: State, owner: Option<string>, d: Delivery, at: Time)
    requires Unstamped(t) && Accepts(t, owner, at) && Imports(t, d)
    requires ShouldReconcile(d.payload.snapshotComplete, Errors(d))
    ensures var rows' := Next(t, Deliver(owner, d), at).rows;
            && LiveIds(rows', d.connector.id) == d.log.itemOf.Keys
            && UniqueKeys(rows')
            && Missing(d.imported, d.connector.id, t.runId) == LiveIds(t.rows, d.connector.id) - d.log.itemOf.Keys
  {
    CompleteImportIsExact(d.payload, d.connector, t.runId, t.rows, d.imported, d.log, at);
  }

  /** What an accepted import means: the records had not been seen by the run, it is the
      run's only result, of the latest lease, and a complete one leaves exactly its records
      live. */
  ghost predicate DeliversExactly(t: State, owner: Option<string>, d: Delivery, at: Time) {
    var t' := Next(t, Deliver(owner, d), at);
    && Unstamped(t) && t.world.history.accepted == []
    && t'.world.history.accepted == [Acceptance(owner, at)]
    && (owner.Some? ==> t'.world.results == [Some(|t.world.history.grants| - 1)])
    && (ShouldReconcile(d.payload.snapshotComplete, Errors(d)) ==>
          && LiveIds(t'.rows, d.connector.id) == d.log.itemOf.Keys
          && UniqueKeys(t'.rows)
          && Missing(d.imported, d.connector.id, t.runId) == LiveIds(t.rows, d.connector.id) - d.log.itemOf.Keys)
  }

  lemma DeliveryIsExact(t: State, owner: Option<string>, d: Delivery, at: Time, before: Time)
    requires Inv(t, before) && before <= at && Accepts(t, owner, at) && Imports(t, d)
    ensures DeliversExactly(t, owner, d, at)
  {
    WaitKeepsWorld(t.world, at, before);
    DeliveryIsTheResult(t, owner, d, at);
    if ShouldReconcile(d.payload.snapshotComplete, Errors(d)) {
      DeliveredRecords(t, owner, d, at);
    }
  }

  /** This holds of every accepted import of every schedule. */
  lemma DeliveredImportIsExact(s: State, steps: seq<TimedStep>, from: Time, owner: Option<string>, d: Delivery, at: Time)
    requires (Initial(s) || Inv(s, from)) && InOrder(steps, from) && EndOf(steps, from) <= at
    requires Accepts(Execute(s, steps), owner, at) && Imports(Execute(s, steps), d)
    ensures DeliversExactly(Execute(s, steps), owner, d, at)
  {
    if Initial(s) {
      InitialInv(s, from);
    }
    ScheduleKeepsInv(s, steps, from);
    DeliveryIsExact(Execute(s, steps), owner, d, at, EndOf(steps, from));
  }

  /** The worker of the latest lease commits its records with its result while that lease is
      valid, and neither afterwards. */
  lemma DeliveryCommitsInsideTheLease(t: State, worker: string, d: Delivery, at: Time)
    requires Inv(t, at) && Imports(t, d) && worker in t.world.busy
    requires t.world.busy[worker] == |t.world.history.grants| - 1
    requires t.world.history.run.status == Running && t.world.history.run.cancelRequestedAt.None?
    ensures var t' := Next(t, Deliver(Some(worker), d), at);
            if at < Last(t.world.history.grants).until
            then t'.rows == Delivered(t, d, at) && |t'.world.history.accepted| == 1
            else t' == t
  {
    Executions.ExecutionFence(t.world, worker, at);
    assert t.world.history.accepted == [];
  }
}
