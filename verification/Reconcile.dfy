/** Importing a snapshot: upsert every item, then archive what the snapshot lacks.

    The same three statements exist for work cards, notifications and calendar events; one
    table of records stands for each. A record keeps the columns reconciliation uses.
  */
module Reconcile {
  import opened Common
  import opened Json

  datatype Record = Record(
    source: string,
    externalId: Option<string>,
    connectorId: Option<int>,
    ownerUserId: Option<int>,
    maintainerId: Option<int>,
    lastSeenRunId: Option<int>,
    archivedAt: Option<Time>,
    content: Value)

  datatype Connector = Connector(id: int, source: string, ownerUserId: Option<int>, maintainerId: Option<int>)

  type Rows = map<int, Record>

  predicate SameKey(a: Record, b: Record) {
    a.source == b.source && a.externalId.Some? && a.externalId == b.externalId
  }

  /** (source, external_id) is unique wherever external_id is present. */
  predicate UniqueKeys(rows: Rows) {
    forall i, j :: i in rows && j in rows && SameKey(rows[i], rows[j]) ==> i == j
  }

  predicate Live(r: Record, connectorId: int) {
    r.connectorId == Some(connectorId) && r.archivedAt == None
  }

  function LiveIds(rows: Rows, connectorId: int): set<int> {
    set id | id in rows && Live(rows[id], connectorId)
  }

  /** The live records of the connector that run `runId` has not seen. */
  function Missing(rows: Rows, connectorId: int, runId: int): set<int> {
    set id | id in rows && Live(rows[id], connectorId) && rows[id].lastSeenRunId != Some(runId)
  }

  function Archive(rows: Rows, connectorId: int, runId: int, now: Time): Rows {
    map id | id in rows ::
      if id in Missing(rows, connectorId, runId) then rows[id].(archivedAt := Some(now)) else rows[id]
  }

  /** Archiving leaves exactly the records the run saw, and archiving again finds nothing. */
  lemma ArchiveLeavesSeen(rows: Rows, connectorId: int, runId: int, now: Time)
    ensures var rows' := Archive(rows, connectorId, runId, now);
            && LiveIds(rows', connectorId) == LiveIds(rows, connectorId) - Missing(rows, connectorId, runId)
            && Missing(rows', connectorId, runId) == {}
            && Archive(rows', connectorId, runId, now) == rows'
            && (UniqueKeys(rows) ==> UniqueKeys(rows'))
            && rows'.Keys == rows.Keys
            && (forall id :: id in rows && rows[id].connectorId != Some(connectorId) ==> rows'[id] == rows[id])
            && (forall id :: id in rows && rows[id].lastSeenRunId == Some(runId) ==> rows'[id] == rows[id])
            && (forall id :: id in rows && rows[id].connectorId == Some(connectorId) && rows[id].archivedAt == None
                             && rows[id].lastSeenRunId != Some(runId)
                  ==> rows'[id] == rows[id].(archivedAt := Some(now)))
  {
    var rows' := Archive(rows, connectorId, runId, now);
    forall id | id in rows
      ensures id in Missing(rows', connectorId, runId) <==> false
      ensures id in LiveIds(rows', connectorId) <==> id in LiveIds(rows, connectorId) && id !in Missing(rows, connectorId, runId)
    {
    }
    assert Missing(rows', connectorId, runId) == {};
  }

  /** What an import turns an item into. */
  function Imported(connector: Connector, runId: int, item: Value, externalId: string): Record {
    Record(connector.source, Some(externalId), Some(connector.id), connector.ownerUserId,
           connector.maintainerId, Some(runId), None, item)
  }

  /** The items of a payload, with the validation and naming the import applies to them. */
  datatype Payload = Payload(
    items: seq<Value>,
    valid: Value -> bool,
    externalId: Value -> string,
    snapshotComplete: Option<bool>)

  function ErrorCount(p: Payload, n: nat): nat
    requires n <= |p.items|
  {
    if n == 0 then 0 else ErrorCount(p, n - 1) + if p.valid(p.items[n - 1]) then 0 else 1
  }

  lemma {:induction false} NoErrorsMeansAllValid(p: Payload, n: nat)
    requires n <= |p.items|
    ensures ErrorCount(p, n) == 0 <==> forall i :: 0 <= i < n ==> p.valid(p.items[i])
  {
    if n > 0 {
      NoErrorsMeansAllValid(p, n - 1);
    }
  }

  predicate ShouldReconcile(snapshotComplete: Option<bool>, failures: nat) {
    snapshotComplete == Some(true) && failures == 0
  }

  /** `r` is what item `i` became, and no later valid item has the same name. */
  predicate FromItem(p: Payload, n: nat, connector: Connector, runId: int, r: Record, i: nat)
    requires n <= |p.items|
  {
    && i < n && p.valid(p.items[i])
    && r.source == connector.source && r.externalId == Some(p.externalId(p.items[i])) && r.content == p.items[i]
    && r.connectorId == Some(connector.id) && r.ownerUserId == connector.ownerUserId
    && r.maintainerId == connector.maintainerId && r.lastSeenRunId == Some(runId) && r.archivedAt == None
    && forall j :: i < j < n && p.valid(p.items[j]) ==> p.externalId(p.items[j]) != p.externalId(p.items[i])
  }

  /** What an import wrote: for each row it touched the item it holds, and for each name
      the row it went to. */
  datatype Log = Log(itemOf: map<int, nat>, rowOf: map<string, int>)

  /** Touched rows hold the last item of their name; every other row is as before. */
  predicate RowsStand(p: Payload, n: nat, connector: Connector, runId: int,
                      before: Rows, rows: Rows, log: Log)
    requires n <= |p.items|
  {
    && rows.Keys == before.Keys + log.itemOf.Keys
    && (forall id :: id in log.itemOf ==> FromItem(p, n, connector, runId, rows[id], log.itemOf[id]))
    && (forall id :: id in before && id !in log.itemOf ==> rows[id] == before[id])
  }

  /** Every valid item's name has a touched row. */
  predicate NamesStand(p: Payload, n: nat, rows: Rows, log: Log)
    requires n <= |p.items|
  {
    && (forall i :: 0 <= i < n && p.valid(p.items[i]) ==> p.externalId(p.items[i]) in log.rowOf)
    && (forall name :: name in log.rowOf ==>
          && log.rowOf[name] in log.itemOf && log.rowOf[name] in rows
          && rows[log.rowOf[name]].externalId == Some(name))
  }

  /** `rows` is `before` after importing `n` items. */
  predicate Upserted(p: Payload, n: nat, connector: Connector, runId: int,
                     before: Rows, rows: Rows, log: Log)
    requires n <= |p.items|
  {
    UniqueKeys(rows) && RowsStand(p, n, connector, runId, before, rows, log) && NamesStand(p, n, rows, log)
  }

  function Logged(log: Log, id: int, item: nat, name: string): Log {
    Log(log.itemOf[id := item], log.rowOf[name := id])
  }

  lemma StillTheLast(p: Payload, n: nat, connector: Connector, runId: int, r: Record, i: nat)
    requires n < |p.items| && FromItem(p, n, connector, runId, r, i)
    requires r.externalId != Some(p.externalId(p.items[n]))
    ensures FromItem(p, n + 1, connector, runId, r, i)
  {
  }

  lemma OtherRowKeeps(p: Payload, n: nat, connector: Connector, runId: int, r: Record, i: nat, record: Record)
    requires n < |p.items| && FromItem(p, n, connector, runId, r, i) && !SameKey(r, record)
    requires record == Imported(connector, runId, p.items[n], p.externalId(p.items[n]))
    ensures FromItem(p, n + 1, connector, runId, r, i)
  {
    StillTheLast(p, n, connector, runId, r, i);
  }

  lemma RowsStandAfter(p: Payload, n: nat, connector: Connector, runId: int,
                       before: Rows, rows: Rows, log: Log, id: int, rows': Rows)
    requires n < |p.items| && RowsStand(p, n, connector, runId, before, rows, log)
    requires p.valid(p.items[n]) && UniqueKeys(rows')
    requires rows' == rows[id := Imported(connector, runId, p.items[n], p.externalId(p.items[n]))]
    ensures RowsStand(p, n + 1, connector, runId, before, rows', Logged(log, id, n, p.externalId(p.items[n])))
  {
    var record := rows'[id];
    assert FromItem(p, n + 1, connector, runId, record, n);
    forall t | t in log.itemOf && t != id ensures FromItem(p, n + 1, connector, runId, rows'[t], log.itemOf[t]) {
      assert rows'[t] == rows[t] && FromItem(p, n, connector, runId, rows[t], log.itemOf[t]);
      OtherRowKeeps(p, n, connector, runId, rows[t], log.itemOf[t], record);
    }
    var log' := Logged(log, id, n, p.externalId(p.items[n]));
    assert rows'.Keys == before.Keys + log'.itemOf.Keys;
  }

  lemma NamesStandAfter(p: Payload, n: nat, rows: Rows, log: Log, id: int, record: Record)
    requires n < |p.items| && NamesStand(p, n, rows, log)
    requires record.externalId == Some(p.externalId(p.items[n]))
    requires id in rows ==> SameKey(rows[id], record)
    ensures NamesStand(p, n + 1, rows[id := record], Logged(log, id, n, p.externalId(p.items[n])))
  {
  }

  /** One more valid item. */
  lemma UpsertOne(p: Payload, n: nat, connector: Connector, runId: int,
                  before: Rows, rows: Rows, log: Log, id: int, rows': Rows)
    requires n < |p.items| && Upserted(p, n, connector, runId, before, rows, log)
    requires p.valid(p.items[n]) && UniqueKeys(rows')
    requires var record := Imported(connector, runId, p.items[n], p.externalId(p.items[n]));
             && rows' == rows[id := record]
             && (id in rows ==> SameKey(rows[id], record))
    ensures Upserted(p, n + 1, connector, runId, before, rows', Logged(log, id, n, p.externalId(p.items[n])))
  {
    RowsStandAfter(p, n, connector, runId, before, rows, log, id, rows');
    NamesStandAfter(p, n, rows, log, id, rows'[id]);
  }

  lemma SkipOne(p: Payload, n: nat, connector: Connector, runId: int, before: Rows, rows: Rows, log: Log)
    requires n < |p.items| && Upserted(p, n, connector, runId, before, rows, log)
    requires !p.valid(p.items[n])
    ensures Upserted(p, n + 1, connector, runId, before, rows, log)
  {
  }

  /** After a complete import by a run no record has been seen by before, the connector's
      live records are exactly the imported ones, previously archived ones revived among
      them; what got archived is what was live and not imported; and no row outside the
      connector changed unless it was imported. */
  lemma CompleteImportIsExact(p: Payload, connector: Connector, runId: int,
                              before: Rows, rows: Rows, log: Log, now: Time)
    requires Upserted(p, |p.items|, connector, runId, before, rows, log)
    requires forall id :: id in before ==> before[id].lastSeenRunId != Some(runId)
    ensures var after := Archive(rows, connector.id, runId, now);
            && UniqueKeys(after)
            && LiveIds(after, connector.id) == log.itemOf.Keys
            && Missing(rows, connector.id, runId) == LiveIds(before, connector.id) - log.itemOf.Keys
            && (forall id :: id in before && id !in log.itemOf && before[id].connectorId != Some(connector.id) ==>
                  after[id] == before[id])
  {
    ArchiveLeavesSeen(rows, connector.id, runId, now);
    var live, was := LiveIds(rows, connector.id), LiveIds(before, connector.id);
    forall id | id in rows
      ensures id in live <==> id in was || id in log.itemOf.Keys
      ensures id in Missing(rows, connector.id, runId) <==> id in was && id !in log.itemOf.Keys
    {
      if id in log.itemOf {
        assert FromItem(p, |p.items|, connector, runId, rows[id], log.itemOf[id]);
      }
    }
    assert live == was + log.itemOf.Keys;
    assert Missing(rows, connector.id, runId) == was - log.itemOf.Keys;
  }

  class RecordTable {
    var rows: Rows
    var nextId: int

    ghost predicate Valid()
      reads this
    {
      UniqueKeys(rows) && forall id :: id in rows ==> id < nextId
    }

    constructor ()
      ensures Valid() && rows == map[]
    {
      rows := map[];
      nextId := 1;
    }

    /** Updates the row with the record's (source, external_id), or inserts a new one. */
    method UpsertFromConnector(record: Record) returns (id: int)
      requires Valid()
      modifies this
      ensures Valid()
      ensures rows == old(rows)[id := record]
      ensures id in old(rows) ==> SameKey(old(rows)[id], record)
      ensures (exists i :: i in old(rows) && SameKey(old(rows)[i], record)) ==> id in old(rows)
      ensures id !in old(rows) ==> id == old(nextId)
    {
      if i :| i in rows && SameKey(rows[i], record) {
        id := i;
      } else {
        id := nextId;
        nextId := nextId + 1;
      }
      rows := rows[id := record];
    }

    method ArchiveMissing(connectorId: int, runId: int, now: Time) returns (count: nat)
      requires Valid()
      modifies this`rows
      ensures Valid()
      ensures rows == Archive(old(rows), connectorId, runId, now)
      ensures count == |Missing(old(rows), connectorId, runId)|
    {
      ArchiveLeavesSeen(rows, connectorId, runId, now);
      var missing := set id | id in rows && rows[id].connectorId == Some(connectorId)
                              && rows[id].archivedAt == None && rows[id].lastSeenRunId != Some(runId);
      assert forall id :: id in missing <==> id in Missing(rows, connectorId, runId);
      assert missing == Missing(rows, connectorId, runId);
      count := |missing|;
      rows := map id | id in rows ::
        if id in missing then rows[id].(archivedAt := Some(now)) else rows[id];
    }

    /** The loop body: upsert one item if it is valid. */
    method ImportItem(connector: Connector, runId: int, p: Payload, n: nat, ghost before: Rows, ghost log: Log)
      returns (valid: bool, ghost log': Log)
      requires Valid() && n < |p.items| && Upserted(p, n, connector, runId, before, rows, log)
      modifies this
      ensures Valid() && valid == p.valid(p.items[n])
      ensures Upserted(p, n + 1, connector, runId, before, rows, log')
    {
      var item := p.items[n];
      valid := p.valid(item);
      if valid {
        ghost var current := rows;
        var id := UpsertFromConnector(Imported(connector, runId, item, p.externalId(item)));
        UpsertOne(p, n, connector, runId, before, current, log, id, rows);
        log' := Logged(log, id, n, p.externalId(item));
      } else {
        SkipOne(p, n, connector, runId, before, rows, log);
        log' := log;
      }
    }

    /** One connector run: upsert the valid items, count the others, and archive what is
        missing only after a complete snapshot without errors. `imported` and `log`
        are the table between the two phases and what the first one wrote. */
    method Import(connector: Connector, runId: int, p: Payload, now: Time)
      returns (errors: nat, archived: nat, ghost imported: Rows, ghost log: Log)
      requires Valid()
      modifies this
      ensures Valid()
      ensures errors == ErrorCount(p, |p.items|)
      ensures Upserted(p, |p.items|, connector, runId, old(rows), imported, log)
      ensures ShouldReconcile(p.snapshotComplete, errors) ==>
        && rows == Archive(imported, connector.id, runId, now)
        && archived == |Missing(imported, connector.id, runId)|
      ensures !ShouldReconcile(p.snapshotComplete, errors) ==> rows == imported && archived == 0
      ensures ShouldReconcile(p.snapshotComplete, errors) <==>
                p.snapshotComplete == Some(true) && forall i :: 0 <= i < |p.items| ==> p.valid(p.items[i])
    {
      errors, log := 0, Log(map[], map[]);
      ghost var before := rows;
      for n := 0 to |p.items|
        invariant Valid()
        invariant errors == ErrorCount(p, n)
        invariant Upserted(p, n, connector, runId, before, rows, log)
      {
        var valid;
        valid, log := ImportItem(connector, runId, p, n, before, log);
        if !valid {
          errors := errors + 1;
        }
      }
      imported := rows;
      archived := 0;
      NoErrorsMeansAllValid(p, |p.items|);
      if ShouldReconcile(p.snapshotComplete, errors) {
        archived := ArchiveMissing(connector.id, runId, now);
      }
    }
  }
}
