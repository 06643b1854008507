/** Creating runs: `create_if_no_pending` and `create_retry` as interleaved transactions.

    Each transaction locks the connector row, optionally the parent run, counts the active
    runs, inserts, and commits. Statements of different transactions interleave freely with
    each other and with the lease protocol; an inserted row is invisible to others until
    its transaction commits. The row lock on the connector is the only thing that orders
    creators, and the switch `locking` lets the model drop it.
  */
module RunCreation {
  import opened Common
  import opened RunLease
  import opened RunTable

  datatype Phase =
    | Started
    | ParentLocked
    | Counted(pending: bool)
    | Inserted(id: int)

  datatype Creation = Creation(run: Run, parent: Option<int>, phase: Phase)

  datatype State = State(
    runs: Table,
    connectors: set<string>,
    locks: map<string, int>,
    creations: map<int, Creation>,
    nextId: int)

  datatype Step =
    | LockConnector(tx: int, run: Run, parent: Option<int>)
    | LockParent(tx: int)
    | CountActive(tx: int)
    | InsertRun(tx: int)
    | Commit(tx: int)
    | Rollback(tx: int)
    | Protocol(op: TableOp, at: Time)
    | AddConnector(source: string)
    | DropConnector(source: string)

  predicate SameSlot(a: Run, b: Run) {
    a.source == b.source && a.target == b.target
  }

  predicate HasActive(runs: Table, like: Run) {
    exists id :: id in runs && runs[id].status.Active() && SameSlot(runs[id], like)
  }

  function Close(s: State, tx: int): State
    requires tx in s.creations
  {
    var source := s.creations[tx].run.source;
    s.(creations := s.creations - {tx},
       locks := if source in s.locks && s.locks[source] == tx then s.locks - {source} else s.locks)
  }

  function WithPhase(s: State, tx: int, phase: Phase): State
    requires tx in s.creations
  {
    s.(creations := s.creations[tx := s.creations[tx].(phase := phase)])
  }

  /** One statement; a statement whose guard fails waits, so the state does not change. */
  function Next(s: State, step: Step, locking: bool): State {
    match step
    case LockConnector(tx, run, parent) =>
      if tx !in s.creations && Fresh(run) && run.source in s.connectors
         && (locking ==> run.source !in s.locks)
      then s.(creations := s.creations[tx := Creation(run, parent, Started)],
              locks := if locking then s.locks[run.source := tx] else s.locks)
      else s
    case LockParent(tx) =>
      if tx in s.creations && s.creations[tx].phase == Started && s.creations[tx].parent.Some? then
        if s.creations[tx].parent.value in s.runs then WithPhase(s, tx, ParentLocked) else Close(s, tx)
      else s
    case CountActive(tx) =>
      if tx in s.creations
         && s.creations[tx].phase == (if s.creations[tx].parent.Some? then ParentLocked else Started)
      then WithPhase(s, tx, Counted(HasActive(s.runs, s.creations[tx].run)))
      else s
    case InsertRun(tx) =>
      if tx in s.creations && s.creations[tx].phase == Counted(false) then
        WithPhase(s, tx, Inserted(s.nextId)).(nextId := s.nextId + 1)
      else s
    case Commit(tx) =>
      if tx in s.creations && s.creations[tx].phase.Inserted? then
        Close(s, tx).(runs := s.runs[s.creations[tx].phase.id := s.creations[tx].run])
      else if tx in s.creations && s.creations[tx].phase == Counted(true) then Close(s, tx)
      else s
    case Rollback(tx) =>
      if tx in s.creations then Close(s, tx) else s
    case Protocol(op, at) =>
      if op.Insert? then s else s.(runs := TableApply(s.runs, op, at))
    case AddConnector(source) => s.(connectors := s.connectors + {source})
    case DropConnector(source) =>
      if source in s.locks then s else s.(connectors := s.connectors - {source})
  }

  function Execute(s: State, steps: seq<Step>, locking: bool): State
    decreases |steps|
  {
    if steps == [] then s else Execute(Next(s, steps[0], locking), steps[1..], locking)
  }

  // ---------------------------------------------------------------- the invariant

  predicate OneActivePerSlot(runs: Table) {
    forall i, j :: i in runs && j in runs && runs[i].status.Active() && runs[j].status.Active()
                   && SameSlot(runs[i], runs[j])
      ==> i == j
  }

  /** An open creation holds its connector's lock, and from its count to its commit no
      active run of its slot is committed. */
  predicate CreationOk(s: State, tx: int)
    requires tx in s.creations
  {
    var c := s.creations[tx];
    && c.run.source in s.locks && s.locks[c.run.source] == tx
    && (c.phase == Counted(false) || c.phase.Inserted? ==> !HasActive(s.runs, c.run))
    && (c.phase.Inserted? ==> c.phase.id < s.nextId && c.phase.id !in s.runs)
  }

  predicate DistinctIds(s: State) {
    && (forall id :: id in s.runs ==> id < s.nextId)
    && (forall tx, ty :: tx in s.creations && ty in s.creations && tx != ty
                         && s.creations[tx].phase.Inserted? && s.creations[ty].phase.Inserted?
          ==> s.creations[tx].phase.id != s.creations[ty].phase.id)
  }

  predicate Inv(s: State) {
    && OneActivePerSlot(s.runs)
    && DistinctIds(s)
    && forall tx :: tx in s.creations ==> CreationOk(s, tx)
  }

  predicate Initial(s: State) {
    && s.creations == map[] && s.locks == map[]
    && OneActivePerSlot(s.runs)
    && forall id :: id in s.runs ==> id < s.nextId
  }

  /** The lease protocol, requeueing included, never makes an ended run active again and
      never moves a run to another source or target. */
  lemma ProtocolOnlyRetiresRuns(t: Table, op: TableOp, at: Time, id: int)
    requires !op.Insert? && id in TableApply(t, op, at)
    ensures id in t && SameSlot(t[id], TableApply(t, op, at)[id])
    ensures TableApply(t, op, at)[id].status.Active() ==> t[id].status.Active()
  {
  }

  lemma ProtocolKeepsInv(s: State, op: TableOp, at: Time)
    requires Inv(s) && !op.Insert?
    ensures Inv(s.(runs := TableApply(s.runs, op, at)))
  {
    var runs' := TableApply(s.runs, op, at);
    var s' := s.(runs := runs');
    forall id | id in runs'
      ensures id in s.runs && SameSlot(s.runs[id], runs'[id])
      ensures runs'[id].status.Active() ==> s.runs[id].status.Active()
    {
      ProtocolOnlyRetiresRuns(s.runs, op, at, id);
    }
    forall tx | tx in s'.creations ensures CreationOk(s', tx) {
      assert CreationOk(s, tx);
    }
  }

  lemma LockKeepsInv(s: State, step: Step)
    requires Inv(s) && step.LockConnector?
    ensures Inv(Next(s, step, true))
  {
    var s' := Next(s, step, true);
    forall tx | tx in s'.creations ensures CreationOk(s', tx) {
      assert tx != step.tx || s' == s ==> CreationOk(s, tx);
    }
  }

  lemma CloseKeepsInv(s: State, tx: int)
    requires Inv(s) && tx in s.creations
    ensures Inv(Close(s, tx))
  {
    var s' := Close(s, tx);
    assert CreationOk(s, tx);
    forall ty | ty in s'.creations ensures CreationOk(s', ty) {
      assert CreationOk(s, ty);
    }
  }

  lemma PhaseKeepsInv(s: State, step: Step)
    requires Inv(s) && (step.LockParent? || step.CountActive? || step.InsertRun?)
    ensures Inv(Next(s, step, true))
  {
    var s' := Next(s, step, true);
    if step.tx in s.creations {
      assert CreationOk(s, step.tx);
      CloseKeepsInv(s, step.tx);
      if s' != Close(s, step.tx) {
        forall ty | ty in s'.creations ensures CreationOk(s', ty) {
          assert CreationOk(s, ty);
        }
      }
    }
  }

  lemma CommitKeepsInv(s: State, tx: int)
    requires Inv(s)
    ensures Inv(Next(s, Commit(tx), true))
  {
    if tx in s.creations {
      CloseKeepsInv(s, tx);
      var c := s.creations[tx];
      assert CreationOk(s, tx);
      if c.phase.Inserted? {
        var s' := Next(s, Commit(tx), true);
        forall ty | ty in s'.creations ensures CreationOk(s', ty) {
          assert CreationOk(s, ty) && s.creations[ty].run.source != c.run.source;
        }
      }
    }
  }

  lemma StepKeepsInv(s: State, step: Step)
    requires Inv(s)
    ensures Inv(Next(s, step, true))
  {
    match step
    case LockConnector(_, _, _) => LockKeepsInv(s, step);
    case Commit(tx) => CommitKeepsInv(s, tx);
    case Rollback(tx) => if tx in s.creations { CloseKeepsInv(s, tx); }
    case Protocol(op, at) => if !op.Insert? { ProtocolKeepsInv(s, op, at); }
    case AddConnector(source) =>
      assert forall tx :: tx in s.creations ==> CreationOk(s, tx);
    case DropConnector(source) =>
      assert forall tx :: tx in s.creations ==> CreationOk(s, tx);
    case _ => PhaseKeepsInv(s, step);
  }

  /** However creators interleave with one another and with the lease protocol, there is
      never more than one queued or running run per source and target. */
  lemma {:induction false} NeverTwoActiveRuns(s: State, steps: seq<Step>)
    requires Initial(s) || Inv(s)
    ensures OneActivePerSlot(Execute(s, steps, true).runs)
    decreases |steps|
  {
    assert Inv(s);
    if steps != [] {
      StepKeepsInv(s, steps[0]);
      NeverTwoActiveRuns(Next(s, steps[0], true), steps[1..]);
    }
  }

  const DEMO_STEPS: seq<Step> :=
    [LockConnector(1, DEMO_RUN, None), LockConnector(2, DEMO_RUN, None),
     CountActive(1), CountActive(2), InsertRun(1), InsertRun(2), Commit(1), Commit(2)]

  /** The states of two unlocked creators racing through DEMO_STEPS. */
  function DemoState(k: nat): State
    requires k <= 8
  {
    var c := Creation(DEMO_RUN, None, Started);
    var counted := c.(phase := Counted(false));
    var creations :=
      if k == 0 || k == 8 then map[]
      else if k == 1 then map[1 := c]
      else if k == 2 then map[1 := c, 2 := c]
      else if k == 3 then map[1 := counted, 2 := c]
      else if k == 4 then map[1 := counted, 2 := counted]
      else if k == 5 then map[1 := c.(phase := Inserted(0)), 2 := counted]
      else if k == 6 then map[1 := c.(phase := Inserted(0)), 2 := c.(phase := Inserted(1))]
      else map[2 := c.(phase := Inserted(1))];
    var runs := if k < 7 then map[] else if k == 7 then map[0 := DEMO_RUN] else map[0 := DEMO_RUN, 1 := DEMO_RUN];
    State(runs, {"erp"}, map[], creations, if k < 5 then 0 else if k == 5 then 1 else 2)
  }

  lemma {:induction false} DemoRun(k: nat)
    requires k <= 8
    ensures Execute(DemoState(k), DEMO_STEPS[k..], false) == DemoState(8)
    decreases 8 - k
  {
    if k < 8 {
      assert DEMO_STEPS[k..][1..] == DEMO_STEPS[k + 1..];
      assert Next(DemoState(k), DEMO_STEPS[k], false) == DemoState(k + 1);
      DemoRun(k + 1);
    }
  }

  /** Without the connector lock two creators both count zero and both insert. */
  lemma LockIsNeeded()
    ensures Initial(DemoState(0))
    ensures !OneActivePerSlot(Execute(DemoState(0), DEMO_STEPS, false).runs)
  {
    DemoRun(0);
    assert DEMO_STEPS[0..] == DEMO_STEPS;
    var runs := DemoState(8).runs;
    assert 0 in runs && 1 in runs;
  }

  // ---------------------------------------------------------------- a creation run alone

  /** A queued or running row of the same source and target is there. */
  predicate Busy(runs: Table, source: string, target: string) {
    exists id :: id in runs && (runs[id].status == Queued || runs[id].status == Running)
                 && runs[id].source == source && runs[id].target == target
  }

  predicate CanStart(s: State, tx: int, run: Run) {
    tx !in s.creations && Fresh(run) && run.source in s.connectors && run.source !in s.locks
  }

  /** The statements of `create_if_no_pending`, or of `create_retry` with a parent run. */
  function Statements(tx: int, run: Run, parent: Option<int>): seq<Step> {
    [LockConnector(tx, run, parent)] + (if parent.Some? then [LockParent(tx)] else []) + [CountActive(tx), InsertRun(tx), Commit(tx)]
  }

  function UnderWay(s: State, tx: int, c: Creation): State {
    s.(creations := s.creations[tx := c], locks := s.locks[c.run.source := tx])
  }

  lemma CloseUnderWay(s: State, tx: int, c: Creation)
    requires CanStart(s, tx, c.run)
    ensures Close(UnderWay(s, tx, c), tx) == s
  {
    assert s.creations[tx := c] - {tx} == s.creations;
    assert s.locks[c.run.source := tx] - {c.run.source} == s.locks;
  }

  lemma PhaseUnderWay(s: State, tx: int, c: Creation, phase: Phase)
    ensures WithPhase(UnderWay(s, tx, c), tx, phase) == UnderWay(s, tx, c.(phase := phase))
  {
    assert s.creations[tx := c][tx := c.(phase := phase)] == s.creations[tx := c.(phase := phase)];
  }

  lemma ExecuteFirst(s: State, step: Step, rest: seq<Step>)
    ensures Execute(s, [step] + rest, true) == Execute(Next(s, step, true), rest, true)
  {
    assert ([step] + rest)[1..] == rest;
  }

  lemma ExecuteLast(s: State, tx: int)
    ensures Execute(s, [InsertRun(tx), Commit(tx)], true) == Next(Next(s, InsertRun(tx), true), Commit(tx), true)
  {
    assert [InsertRun(tx), Commit(tx)] == [InsertRun(tx)] + ([Commit(tx)] + []);
    ExecuteFirst(s, InsertRun(tx), [Commit(tx)] + []);
    ExecuteFirst(Next(s, InsertRun(tx), true), Commit(tx), []);
  }

  /** From the count on. */
  lemma CountsAndInserts(s: State, tx: int, c: Creation)
    requires CanStart(s, tx, c.run) && c.phase == (if c.parent.Some? then ParentLocked else Started)
    ensures var t := Execute(UnderWay(s, tx, c), [CountActive(tx), InsertRun(tx), Commit(tx)], true);
            && t.runs == (if Busy(s.runs, c.run.source, c.run.target) then s.runs else s.runs[s.nextId := c.run])
            && t.creations == s.creations && t.locks == s.locks
  {
    var busy := Busy(s.runs, c.run.source, c.run.target);
    assert HasActive(s.runs, c.run) <==> busy;
    var counted := c.(phase := Counted(busy));
    PhaseUnderWay(s, tx, c, counted.phase);
    assert [CountActive(tx), InsertRun(tx), Commit(tx)] == [CountActive(tx)] + [InsertRun(tx), Commit(tx)];
    ExecuteFirst(UnderWay(s, tx, c), CountActive(tx), [InsertRun(tx), Commit(tx)]);
    assert Next(UnderWay(s, tx, c), CountActive(tx), true) == UnderWay(s, tx, counted);
    ExecuteLast(UnderWay(s, tx, counted), tx);
    CloseUnderWay(s, tx, counted);
    if !busy {
      var later := s.(nextId := s.nextId + 1);
      PhaseUnderWay(s, tx, counted, Inserted(s.nextId));
      assert Next(UnderWay(s, tx, counted), InsertRun(tx), true) == UnderWay(later, tx, c.(phase := Inserted(s.nextId)));
      CloseUnderWay(later, tx, c.(phase := Inserted(s.nextId)));
    }
  }

  /** With the connector free a creation succeeds exactly when no queued or running run has
      its source and target; a retry also needs its parent. Whatever else is in the table
      plays no part. */
  lemma CreationAlone(s: State, tx: int, run: Run, parent: Option<int>)
    requires CanStart(s, tx, run)
    ensures var t := Execute(s, Statements(tx, run, parent), true);
            && t.runs == (if Busy(s.runs, run.source, run.target) || (parent.Some? && parent.value !in s.runs)
                          then s.runs else s.runs[s.nextId := run])
            && t.creations == s.creations && t.locks == s.locks
  {
    var rest := [CountActive(tx), InsertRun(tx), Commit(tx)];
    var c := Creation(run, parent, Started);
    assert Next(s, LockConnector(tx, run, parent), true) == UnderWay(s, tx, c);
    if parent.None? {
      assert Statements(tx, run, parent) == [LockConnector(tx, run, parent)] + rest;
      ExecuteFirst(s, LockConnector(tx, run, parent), rest);
      CountsAndInserts(s, tx, c);
    } else {
      assert Statements(tx, run, parent) == [LockConnector(tx, run, parent)] + ([LockParent(tx)] + rest);
      ExecuteFirst(s, LockConnector(tx, run, parent), [LockParent(tx)] + rest);
      ExecuteFirst(UnderWay(s, tx, c), LockParent(tx), rest);
      if parent.value in s.runs {
        PhaseUnderWay(s, tx, c, ParentLocked);
        CountsAndInserts(s, tx, c.(phase := ParentLocked));
      } else {
        CloseUnderWay(s, tx, c);
        NothingUnderWay(s, tx);
      }
    }
  }

  lemma NothingUnderWay(s: State, tx: int)
    requires tx !in s.creations
    ensures Execute(s, [CountActive(tx), InsertRun(tx), Commit(tx)], true) == s
  {
    assert [CountActive(tx), InsertRun(tx), Commit(tx)] == [CountActive(tx)] + [InsertRun(tx), Commit(tx)];
    ExecuteFirst(s, CountActive(tx), [InsertRun(tx), Commit(tx)]);
    ExecuteLast(s, tx);
  }

  /** A connector that is missing gets no run. */
  lemma NoConnectorNoRun(s: State, tx: int, run: Run, parent: Option<int>)
    requires run.source !in s.connectors
    ensures Next(s, LockConnector(tx, run, parent), true) == s
  {
  }
}
