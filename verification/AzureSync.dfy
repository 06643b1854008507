/** A whole connector run for Azure DevOps: fetch, import, reconcile. */
module AzureSync {
  import opened Common
  import opened Json
  import opened AzureFetch
  import opened Reconcile

  /** The external id of an item is the printed form of its work item id. */
  function NameOf(azure: Azure, render: int -> string): Value -> string {
    (item: Value) => if azure.idOf(item).Some? then render(azure.idOf(item).value) else ""
  }

  function QueriedIds(azure: Azure): seq<int>
    requires Answer(azure.wiql, "workItems").Ok? && AllHaveIds(azure, Answer(azure.wiql, "workItems").value)
  {
    IdsOf(azure, Answer(azure.wiql, "workItems").value)
  }

  /** The rows that stood for a queried work item before the run. */
  predicate Keyed(r: Record, connector: Connector, name: string) {
    r.source == connector.source && r.externalId == Some(name)
  }

  /** A row keyed by an imported name is the row the import touched, hence seen. */
  lemma ImportedRowIsSeen(p: Payload, connector: Connector, runId: int,
                          before: Rows, rows: Rows, log: Log, i: nat, id: int)
    requires Upserted(p, |p.items|, connector, runId, before, rows, log)
    requires i < |p.items| && p.valid(p.items[i]) && id in before
    requires Keyed(before[id], connector, p.externalId(p.items[i]))
    ensures id in log.itemOf
    ensures Live(rows[id], connector.id) && rows[id].lastSeenRunId == Some(runId)
  {
    var name := p.externalId(p.items[i]);
    var t := log.rowOf[name];
    assert FromItem(p, |p.items|, connector, runId, rows[t], log.itemOf[t]);
    if id !in log.itemOf {
      assert SameKey(rows[id], rows[t]);
    } else {
      assert FromItem(p, |p.items|, connector, runId, rows[id], log.itemOf[id]);
    }
  }

  /** One run. A failed fetch changes nothing. A work item the query still returns never
      has its card archived by the run, whatever the limits, the batch replies and the
      validation of single items do. */
  method SyncWorkCards(table: RecordTable, azure: Azure, maxItems: nat, connector: Connector, runId: int,
                       valid: Value -> bool, render: int -> string, now: Time)
    returns (r: Result<(nat, nat), AzureError>)
    requires table.Valid()
    modifies table
    ensures table.Valid()
    ensures r.Ok? <==> ServiceAnswers(azure, maxItems)
    ensures r.Err? ==> table.rows == old(table.rows)
    ensures r.Ok? ==>
      forall id, k :: id in old(table.rows) && 0 <= k < |QueriedIds(azure)|
        && Keyed(old(table.rows)[id], connector, render(QueriedIds(azure)[k]))
        && Live(old(table.rows)[id], connector.id)
        ==> id in table.rows && Live(table.rows[id], connector.id)
  {
    var fetched := FetchWorkItems(azure, maxItems);
    if fetched.Err? {
      return Err(fetched.error);
    }
    FetchedIdsAreTheQueried(azure, maxItems, fetched.value.items);
    var p := Payload(fetched.value.items, valid, NameOf(azure, render), Some(fetched.value.snapshotComplete));
    var errors, archived, imported, log := table.Import(connector, runId, p, now);
    forall id, k | id in old(table.rows) && 0 <= k < |QueriedIds(azure)|
        && Keyed(old(table.rows)[id], connector, render(QueriedIds(azure)[k]))
        && Live(old(table.rows)[id], connector.id)
      ensures id in table.rows && Live(table.rows[id], connector.id)
    {
      StillLive(p, connector, runId, old(table.rows), imported, log, now, id);
      if ShouldReconcile(p.snapshotComplete, errors) {
        NoErrorsMeansAllValid(p, |p.items|);
        var i := QueriedItemIsFetched(azure, maxItems, p.items, render, k);
        assert Keyed(old(table.rows)[id], connector, p.externalId(p.items[i]));
      }
    }
    return Ok((errors, archived));
  }

  /** In a complete answer every queried id is there under its name. */
  lemma QueriedItemIsFetched(azure: Azure, maxItems: nat, items: seq<Value>, render: int -> string, k: nat)
    returns (i: nat)
    requires ServiceAnswers(azure, maxItems) && k < |QueriedIds(azure)| < maxItems
    requires var ids := WantedIds(azure, Answer(azure.wiql, "workItems").value, maxItems);
             |items| == |ids| && InQueryOrder(azure, ids, items)
    ensures i < |items| && NameOf(azure, render)(items[i]) == render(QueriedIds(azure)[k])
  {
    FetchedIdsAreTheQueried(azure, maxItems, items);
    var ids := IdsOf(azure, items);
    var queried := QueriedIds(azure);
    assert queried[k] in ids;
    i :| i < |ids| && ids[i] == QueriedIds(azure)[k];
  }

  /** A row that was live stays live through the first phase, and through the second if an
      imported item has its name. */
  lemma StillLive(p: Payload, connector: Connector, runId: int,
                  before: Rows, imported: Rows, log: Log, now: Time, id: int)
    requires Upserted(p, |p.items|, connector, runId, before, imported, log)
    requires id in before && Live(before[id], connector.id)
    ensures id in imported && Live(imported[id], connector.id)
    ensures (exists i: nat :: i < |p.items| && p.valid(p.items[i])
                              && Keyed(before[id], connector, p.externalId(p.items[i]))) ==>
              Live(Archive(imported, connector.id, runId, now)[id], connector.id)
  {
    if id in log.itemOf {
      assert FromItem(p, |p.items|, connector, runId, imported[id], log.itemOf[id]);
    }
    if i: nat :| i < |p.items| && p.valid(p.items[i]) && Keyed(before[id], connector, p.externalId(p.items[i])) {
      ImportedRowIsSeen(p, connector, runId, before, imported, log, i, id);
    }
  }
}
