/** Who may see a record: the list-query filter, the single-record test, and how a record's
    scope follows its connector's.

    Imports run in a transaction that reads the connector's scope without locking it and
    stamps that scope on the records it upserts; a manual edit reads the record, then writes
    it back with the scope it read. Both can be overtaken by a scope change. A scope change
    locks the connector row and updates the connector's records, so it waits for an open
    import that has updated one of them, and for an open import that has inserted a record
    of the connector or moved one to it: the foreign key check of such a write keeps a share
    lock on the connector row. Deleting connectors, users or maintainers is left out.
  */
module AccessScope {
  import opened Common
  import QueryOrder

  /** SQL's three truth values. */
  datatype Truth = True | False | Unknown {
    function Or(other: Truth): Truth {
      if this == True || other == True then True
      else if this == Unknown || other == Unknown then Unknown
      else False
    }
    function And(other: Truth): Truth {
      if this == False || other == False then False
      else if this == Unknown || other == Unknown then Unknown
      else True
    }
  }

  datatype Scope = Scope(owner: Option<int>, maintainer: Option<int>)

  datatype Access = Access(user: int, isAdmin: bool, maintainers: seq<int>)

  const GLOBAL: Scope := Scope(None, None)

  function Known(b: bool): Truth {
    if b then True else False
  }

  function Eq(column: Option<int>, value: int): Truth {
    if column.None? then Unknown else Known(column.value == value)
  }

  function EqAny(column: Option<int>, values: seq<int>): Truth {
    if values == [] then False
    else if column.None? then Unknown
    else Known(column.value in values)
  }

  /** The WHERE clause of the list queries. */
  predicate Listed(a: Access, s: Scope) {
    a.isAdmin ||
    Eq(s.owner, a.user).Or(EqAny(s.maintainer, a.maintainers)).Or(Known(s.owner.None?).And(Known(s.maintainer.None?))) == True
  }

  predicate Allows(a: Access, s: Scope) {
    a.isAdmin ||
    match (s.owner, s.maintainer)
    case (Some(owner), None) => owner == a.user
    case (None, Some(maintainer)) => maintainer in a.maintainers
    case (None, None) => true
    case (Some(_), Some(_)) => false
  }

  predicate BothSet(s: Scope) {
    s.owner.Some? && s.maintainer.Some?
  }

  /** The two tests differ exactly on a doubly scoped record whose owner or maintainer side
      would let a non-admin in. */
  lemma FilterDiffersExactly(a: Access, s: Scope)
    ensures Listed(a, s) != Allows(a, s)
            <==> !a.isAdmin && BothSet(s) && (s.owner.value == a.user || s.maintainer.value in a.maintainers)
  {
  }

  lemma FilterAgreesForAll(s: Scope)
    ensures (forall a :: Listed(a, s) == Allows(a, s)) <==> !BothSet(s)
  {
    if BothSet(s) {
      var insider := Access(s.owner.value, false, []);
      FilterDiffersExactly(insider, s);
    }
  }

  /** What request validation accepts for a connector. */
  predicate ValidDataScope(scopeType: string, s: Scope) {
    && (scopeType == "global" || scopeType == "maintainer" || scopeType == "user")
    && (scopeType == "global" ==> s.owner.None? && s.maintainer.None?)
    && (scopeType == "user" ==> s.owner.Some? && s.maintainer.None?)
    && (scopeType == "maintainer" ==> s.owner.None? && s.maintainer.Some?)
    && (s.owner.Some? ==> s.owner.value > 0)
    && (s.maintainer.Some? ==> s.maintainer.value > 0)
  }

  /** Accepted are exactly a global scope, one positive owner, one positive maintainer, each
      under its own name. */
  lemma ValidScopesExactly(scopeType: string, s: Scope)
    ensures ValidDataScope(scopeType, s) <==>
              || (scopeType == "global" && s == Scope(None, None))
              || (exists owner :: owner > 0 && scopeType == "user" && s == Scope(Some(owner), None))
              || (exists maintainer :: maintainer > 0 && scopeType == "maintainer" && s == Scope(None, Some(maintainer)))
  {
    if ValidDataScope(scopeType, s) && scopeType == "user" {
      assert s == Scope(Some(s.owner.value), None);
    }
    if ValidDataScope(scopeType, s) && scopeType == "maintainer" {
      assert s == Scope(None, Some(s.maintainer.value));
    }
  }

  /** Who sees what, spelled out. */
  lemma VisibleExactly(a: Access, s: Scope)
    requires !BothSet(s)
    ensures Listed(a, s) <==>
              || a.isAdmin
              || s == Scope(None, None)
              || s == Scope(Some(a.user), None)
              || (exists k :: 0 <= k < |a.maintainers| && s == Scope(None, Some(a.maintainers[k])))
  {
  }

  // ---------------------------------------------------------------- records and connectors

  datatype Record = Record(connector: Option<int>, scope: Scope)

  datatype Import = Import(connector: int, scope: Scope, written: set<int>)

  datatype Edit = Edit(id: int, found: Record)

  datatype State = State(
    connectors: map<int, Scope>,
    records: map<int, Record>,
    imports: map<int, Import>,
    edits: map<int, Edit>)

  datatype Step =
    | CreateConnector(connector: int, scopeType: string, scope: Scope)
    | ChangeScope(connector: int, scopeType: string, scope: Scope)
    | CreateRecord(id: int)
    | DeleteRecord(id: int)
    | ReadConnector(tx: int, connector: int)
    | Upsert(tx: int, id: int)
    | CommitImport(tx: int)
    | AbortImport(tx: int)
    | ReadRecord(tx: int, id: int)
    | SaveRecord(tx: int)

  function Rescoped(records: map<int, Record>, connector: int, scope: Scope): map<int, Record> {
    map id | id in records :: if records[id].connector == Some(connector) then records[id].(scope := scope) else records[id]
  }

  /** Some open import has written this record. */
  predicate Claimed(s: State, id: int) {
    exists tx :: tx in s.imports && id in s.imports[tx].written
  }

  /** Some open import has inserted this connector's record or moved one to it. */
  predicate Linked(s: State, connector: int) {
    exists tx, id :: tx in s.imports && s.imports[tx].connector == connector && id in s.imports[tx].written
                     && !(id in s.records && s.records[id].connector == Some(connector))
  }

  /** A scope change that has to wait, for a row lock or for the connector row. */
  predicate Waits(s: State, connector: int) {
    || (exists id :: id in s.records && s.records[id].connector == Some(connector) && Claimed(s, id))
    || Linked(s, connector)
  }

  function Stamped(records: map<int, Record>, i: Import): map<int, Record> {
    map id | id in records.Keys + i.written ::
      if id in i.written then Record(Some(i.connector), i.scope) else records[id]
  }

  function Next(s: State, step: Step): State {
    match step
    case CreateConnector(connector, scopeType, scope) =>
      if connector !in s.connectors && ValidDataScope(scopeType, scope)
      then s.(connectors := s.connectors[connector := scope]) else s
    case ChangeScope(connector, scopeType, scope) =>
      if connector in s.connectors && ValidDataScope(scopeType, scope) && !Waits(s, connector)
      then s.(connectors := s.connectors[connector := scope], records := Rescoped(s.records, connector, scope))
      else s
    case CreateRecord(id) =>
      if id in s.records || Claimed(s, id) then s else s.(records := s.records[id := Record(None, GLOBAL)])
    case DeleteRecord(id) => if Claimed(s, id) then s else s.(records := s.records - {id})
    case ReadConnector(tx, connector) =>
      if tx !in s.imports && connector in s.connectors
      then s.(imports := s.imports[tx := Import(connector, s.connectors[connector], {})]) else s
    case Upsert(tx, id) =>
      if tx in s.imports && !Claimed(s, id)
      then s.(imports := s.imports[tx := s.imports[tx].(written := s.imports[tx].written + {id})]) else s
    case CommitImport(tx) =>
      if tx in s.imports then s.(records := Stamped(s.records, s.imports[tx]), imports := s.imports - {tx}) else s
    case AbortImport(tx) => s.(imports := s.imports - {tx})
    case ReadRecord(tx, id) =>
      if tx !in s.edits && id in s.records then s.(edits := s.edits[tx := Edit(id, s.records[id])]) else s
    case SaveRecord(tx) =>
      if tx in s.edits && s.edits[tx].id in s.records && !Claimed(s, s.edits[tx].id)
      then s.(records := s.records[s.edits[tx].id := s.edits[tx].found], edits := s.edits - {tx})
      else s
  }

  function Execute(s: State, steps: seq<Step>): State
    decreases |steps|
  {
    if steps == [] then s else Execute(Next(s, steps[0]), steps[1..])
  }

  /** With no import or edit under way: a scope change reaches the connector and all its
      records and no other, a manual record is global, and an import that runs from its read
      to its commit leaves its record with the connector's scope. */
  lemma StepsAlone(s: State, connector: int, scopeType: string, scope: Scope, tx: int, id: int)
    requires s.imports == map[] && s.edits == map[] && connector in s.connectors
    ensures ValidDataScope(scopeType, scope) ==>
              var t := Next(s, ChangeScope(connector, scopeType, scope));
              && t.connectors == s.connectors[connector := scope] && t.records.Keys == s.records.Keys
              && (forall i :: i in s.records ==>
                    t.records[i] == if s.records[i].connector == Some(connector) then Record(Some(connector), scope) else s.records[i])
    ensures Next(s, DeleteRecord(id)).records == s.records - {id}
    ensures id !in s.records ==> Next(s, CreateRecord(id)).records == s.records[id := Record(None, Scope(None, None))]
    ensures var t := Next(Next(Next(s, ReadConnector(tx, connector)), Upsert(tx, id)), CommitImport(tx));
            t.records == s.records[id := Record(Some(connector), s.connectors[connector])]
  {
    var read := Next(s, ReadConnector(tx, connector));
    var written := Next(read, Upsert(tx, id));
    assert {} + {id} == {id};
    assert written.imports == map[tx := Import(connector, s.connectors[connector], {id})];
  }

  // ---------------------------------------------------------------- never doubly scoped

  predicate NoneDouble(s: State) {
    && (forall c :: c in s.connectors ==> !BothSet(s.connectors[c]))
    && (forall id :: id in s.records ==> !BothSet(s.records[id].scope))
    && (forall tx :: tx in s.imports ==> !BothSet(s.imports[tx].scope))
    && (forall tx :: tx in s.edits ==> !BothSet(s.edits[tx].found.scope))
  }

  lemma StepKeepsNoneDouble(s: State, step: Step)
    requires NoneDouble(s)
    ensures NoneDouble(Next(s, step))
  {
  }

  lemma {:induction false} NeverDouble(s: State, steps: seq<Step>)
    requires NoneDouble(s)
    ensures NoneDouble(Execute(s, steps))
    decreases |steps|
  {
    if steps != [] {
      StepKeepsNoneDouble(s, steps[0]);
      NeverDouble(Next(s, steps[0]), steps[1..]);
    }
  }

  /** Under every interleaving, racing imports and edits included, the list queries and the
      single-record test agree on every record for everyone. */
  lemma ListsAndLookupsAgree(s: State, steps: seq<Step>, id: int, a: Access)
    requires NoneDouble(s) && id in Execute(s, steps).records
    ensures Listed(a, Execute(s, steps).records[id].scope) == Allows(a, Execute(s, steps).records[id].scope)
  {
    NeverDouble(s, steps);
    FilterDiffersExactly(a, Execute(s, steps).records[id].scope);
  }

  // ---------------------------------------------------------------- in line with the connector

  predicate InLine(connectors: map<int, Scope>, r: Record) {
    match r.connector
    case None => r.scope == GLOBAL
    case Some(c) => c in connectors && r.scope == connectors[c]
  }

  predicate Aligned(s: State) {
    forall id :: id in s.records ==> InLine(s.connectors, s.records[id])
  }

  /** Open imports and edits are of connectors that exist; a manual record read is global. */
  predicate Grounded(s: State) {
    && (forall tx :: tx in s.imports ==> s.imports[tx].connector in s.connectors)
    && (forall tx :: tx in s.edits ==>
          match s.edits[tx].found.connector
          case None => s.edits[tx].found.scope == GLOBAL
          case Some(c) => c in s.connectors)
    && (forall id :: id in s.records ==>
          match s.records[id].connector
          case None => s.records[id].scope == GLOBAL
          case Some(c) => c in s.connectors)
  }

  /** The step writes back a scope its connector no longer has. */
  predicate Overtaken(s: State, step: Step) {
    match step
    case CommitImport(tx) =>
      tx in s.imports && s.imports[tx].written != {} && s.imports[tx].connector in s.connectors
      && s.imports[tx].scope != s.connectors[s.imports[tx].connector]
    case SaveRecord(tx) =>
      && tx in s.edits && s.edits[tx].id in s.records && !Claimed(s, s.edits[tx].id)
      && s.edits[tx].found.connector.Some? && s.edits[tx].found.connector.value in s.connectors
      && s.edits[tx].found.scope != s.connectors[s.edits[tx].found.connector.value]
    case _ => false
  }

  lemma StepKeepsGrounded(s: State, step: Step)
    requires Grounded(s)
    ensures Grounded(Next(s, step))
  {
  }

  lemma OvertakenImportMisaligns(s: State, tx: int)
    requires Overtaken(s, CommitImport(tx))
    ensures !Aligned(Next(s, CommitImport(tx)))
  {
    var i, s' := s.imports[tx], Next(s, CommitImport(tx));
    QueryOrder.SomeMember(i.written);
    var id :| id in i.written;
    assert id in s'.records && s'.records[id] == Record(Some(i.connector), i.scope);
  }

  /** One step from an aligned state leaves it aligned exactly when it is not overtaken. */
  lemma StepAlignsExactly(s: State, step: Step)
    requires Grounded(s) && Aligned(s)
    ensures Aligned(Next(s, step)) <==> !Overtaken(s, step)
  {
    var s' := Next(s, step);
    if Overtaken(s, step) {
      if step.CommitImport? {
        OvertakenImportMisaligns(s, step.tx);
      } else {
        var id := s.edits[step.tx].id;
        assert id in s'.records && !InLine(s'.connectors, s'.records[id]);
      }
    } else {
      forall id | id in s'.records ensures InLine(s'.connectors, s'.records[id]) {
        assert id in s.records ==> InLine(s.connectors, s.records[id]);
      }
    }
  }

  predicate AlignedThroughout(s: State, steps: seq<Step>)
    decreases |steps|
  {
    Aligned(s) && (steps != [] ==> AlignedThroughout(Next(s, steps[0]), steps[1..]))
  }

  predicate NeverOvertaken(s: State, steps: seq<Step>)
    decreases |steps|
  {
    steps != [] ==> !Overtaken(s, steps[0]) && NeverOvertaken(Next(s, steps[0]), steps[1..])
  }

  /** Every record carries its connector's scope at every moment of a run exactly when no
      import or edit of the run writes back a scope that has changed since it was read. */
  lemma {:induction false} AlignedExactlyUnlessOvertaken(s: State, steps: seq<Step>)
    requires Grounded(s) && Aligned(s)
    ensures AlignedThroughout(s, steps) <==> NeverOvertaken(s, steps)
    decreases |steps|
  {
    if steps != [] {
      StepAlignsExactly(s, steps[0]);
      StepKeepsGrounded(s, steps[0]);
      if !Overtaken(s, steps[0]) {
        AlignedExactlyUnlessOvertaken(Next(s, steps[0]), steps[1..]);
      }
    }
  }

  /** Open imports and edits hold the scope their connector has now. */
  predicate Current(s: State) {
    && (forall tx :: tx in s.imports ==>
          s.imports[tx].connector in s.connectors && s.imports[tx].scope == s.connectors[s.imports[tx].connector])
    && (forall tx :: tx in s.edits ==> InLine(s.connectors, s.edits[tx].found))
  }

  /** A scope change while an import of the connector or an edit of its records is open. */
  predicate Disturbs(s: State, step: Step) {
    step.ChangeScope? &&
    ((exists tx :: tx in s.imports && s.imports[tx].connector == step.connector)
     || (exists tx :: tx in s.edits && s.edits[tx].found.connector == Some(step.connector)))
  }

  predicate NeverDisturbed(s: State, steps: seq<Step>)
    decreases |steps|
  {
    steps != [] ==> !Disturbs(s, steps[0]) && NeverDisturbed(Next(s, steps[0]), steps[1..])
  }

  lemma StepKeepsCurrent(s: State, step: Step)
    requires Aligned(s) && Current(s) && !Disturbs(s, step)
    ensures Current(Next(s, step)) && !Overtaken(s, step)
  {
    var s' := Next(s, step);
    forall tx | tx in s'.edits ensures InLine(s'.connectors, s'.edits[tx].found) {
      if tx in s.edits {
        assert InLine(s.connectors, s.edits[tx].found);
      } else {
        assert InLine(s.connectors, s.records[s'.edits[tx].id]);
      }
    }
  }

  /** If scope changes, imports and edits do not overlap, records never leave their
      connector's scope. */
  lemma {:induction false} UndisturbedStaysAligned(s: State, steps: seq<Step>)
    requires Grounded(s) && Aligned(s) && Current(s) && NeverDisturbed(s, steps)
    ensures AlignedThroughout(s, steps) && Aligned(Execute(s, steps))
    decreases |steps|
  {
    if steps != [] {
      StepKeepsCurrent(s, steps[0]);
      StepAlignsExactly(s, steps[0]);
      StepKeepsGrounded(s, steps[0]);
      UndisturbedStaysAligned(Next(s, steps[0]), steps[1..]);
    }
  }

  /** From its first write to its end an import keeps its connector's scope as it is, so an
      import is overtaken only between its read and its first write. */
  lemma WritingImportHoldsScope(s: State, step: Step, tx: int)
    requires Grounded(s) && tx in s.imports && s.imports[tx].written != {}
    ensures var c := s.imports[tx].connector;
            c in Next(s, step).connectors && Next(s, step).connectors[c] == s.connectors[c]
  {
    var c := s.imports[tx].connector;
    QueryOrder.SomeMember(s.imports[tx].written);
    var id :| id in s.imports[tx].written;
    if id in s.records && s.records[id].connector == Some(c) {
      assert Claimed(s, id) && Waits(s, c);
    } else {
      assert Linked(s, c) && Waits(s, c);
    }
  }

  predicate EndsImport(step: Step, tx: int) {
    (step.CommitImport? || step.AbortImport?) && step.tx == tx
  }

  /** Over a whole run: whether the commit of an import will be overtaken is settled at its
      first write. */
  lemma {:induction false} OvertakenAtFirstWrite(s: State, steps: seq<Step>, tx: int)
    requires Grounded(s) && tx in s.imports && s.imports[tx].written != {}
    requires forall i :: 0 <= i < |steps| ==> !EndsImport(steps[i], tx)
    ensures var t := Execute(s, steps);
            Overtaken(t, CommitImport(tx)) <==> Overtaken(s, CommitImport(tx))
    decreases |steps|
  {
    if steps != [] {
      var s' := Next(s, steps[0]);
      WritingImportHoldsScope(s, steps[0], tx);
      StepKeepsGrounded(s, steps[0]);
      ImportStaysOpen(s, steps[0], tx);
      OvertakenAtFirstWrite(s', steps[1..], tx);
    }
  }

  lemma ImportStaysOpen(s: State, step: Step, tx: int)
    requires tx in s.imports && !EndsImport(step, tx)
    ensures var s' := Next(s, step);
            && tx in s'.imports && s'.imports[tx].connector == s.imports[tx].connector
            && s'.imports[tx].scope == s.imports[tx].scope && s.imports[tx].written <= s'.imports[tx].written
  {
  }

  const DEMO_SCOPE: Scope := Scope(Some(7), None)

  const DEMO_IMPORT: seq<Step> :=
    [ReadConnector(1, 1), ChangeScope(1, "user", DEMO_SCOPE), Upsert(1, 5), CommitImport(1)]

  function DemoImportState(k: nat): State
    requires k <= 4
  {
    var reading := Import(1, GLOBAL, {});
    State(map[1 := if k < 2 then GLOBAL else DEMO_SCOPE],
          if k < 4 then map[] else map[5 := Record(Some(1), GLOBAL)],
          if k == 0 || k == 4 then map[] else map[1 := if k < 3 then reading else reading.(written := {5})],
          map[])
  }

  lemma DemoImportStep(k: nat)
    requires k < 4
    ensures Next(DemoImportState(k), DEMO_IMPORT[k]) == DemoImportState(k + 1)
  {
    var s' := Next(DemoImportState(k), DEMO_IMPORT[k]);
    assert {} + {5} == {5};
    assert s'.imports == DemoImportState(k + 1).imports;
    assert s'.connectors == DemoImportState(k + 1).connectors;
    assert s'.records == DemoImportState(k + 1).records;
  }

  lemma {:induction false} DemoImportRun(k: nat)
    requires k <= 4
    ensures Execute(DemoImportState(k), DEMO_IMPORT[k..]) == DemoImportState(4)
    decreases 4 - k
  {
    if k < 4 {
      assert DEMO_IMPORT[k..][1..] == DEMO_IMPORT[k + 1..];
      DemoImportStep(k);
      DemoImportRun(k + 1);
    }
  }

  /** An import reads a global scope, the connector is given to user 7, the import inserts a
      record and commits: the record stays global. */
  lemma ImportCanBeOvertaken()
    ensures Grounded(DemoImportState(0)) && Aligned(DemoImportState(0))
    ensures !Aligned(Execute(DemoImportState(0), DEMO_IMPORT))
  {
    DemoImportRun(0);
    assert DEMO_IMPORT[0..] == DEMO_IMPORT;
    var t := DemoImportState(4);
    assert 5 in t.records && !InLine(t.connectors, t.records[5]);
  }

  const DEMO_EDIT: seq<Step> := [ReadRecord(1, 5), ChangeScope(1, "user", DEMO_SCOPE), SaveRecord(1)]

  function DemoEditState(k: nat): State
    requires k <= 3
  {
    var found := Record(Some(1), GLOBAL);
    State(map[1 := if k < 2 then GLOBAL else DEMO_SCOPE],
          map[5 := if k == 2 then Record(Some(1), DEMO_SCOPE) else found],
          map[],
          if k == 1 || k == 2 then map[1 := Edit(5, found)] else map[])
  }

  lemma DemoEditStep(k: nat)
    requires k < 3
    ensures Next(DemoEditState(k), DEMO_EDIT[k]) == DemoEditState(k + 1)
  {
    var s' := Next(DemoEditState(k), DEMO_EDIT[k]);
    assert s'.connectors == DemoEditState(k + 1).connectors;
    assert s'.records == DemoEditState(k + 1).records;
    assert s'.edits == DemoEditState(k + 1).edits;
  }

  lemma {:induction false} DemoEditRun(k: nat)
    requires k <= 3
    ensures Execute(DemoEditState(k), DEMO_EDIT[k..]) == DemoEditState(3)
    decreases 3 - k
  {
    if k < 3 {
      assert DEMO_EDIT[k..][1..] == DEMO_EDIT[k + 1..];
      DemoEditStep(k);
      DemoEditRun(k + 1);
    }
  }

  /** An edit reads a record, the connector is given to user 7 and the record with it, the
      edit is saved: the record is global again. */
  lemma EditCanBeOvertaken()
    ensures Grounded(DemoEditState(0)) && Aligned(DemoEditState(0))
    ensures !Aligned(Execute(DemoEditState(0), DEMO_EDIT))
  {
    DemoEditRun(0);
    assert DEMO_EDIT[0..] == DEMO_EDIT;
    var t := DemoEditState(3);
    assert 5 in t.records && !InLine(t.connectors, t.records[5]);
  }
}
