/** Fetching Azure DevOps work items: a WIQL query names the ids, batches of at most 200
    ids fetch the items, and the answer is put back in query order.

    The service is a pair of replies: one to the query, one to each batch of ids. Reading a
    numeric `id` out of an item is left to the JSON library. Normalising an item's fields is
    not modelled; the items are the raw ones.
  */
module AzureFetch {
  import opened Common
  import opened Json

  const BATCH_SIZE: nat := 200
  const DEFAULT_MAX_ITEMS: nat := 1_000
  const MAX_ALLOWED_ITEMS: nat := 10_000

  datatype Azure = Azure(
    wiql: Result<Value, string>,
    batch: seq<int> -> Result<Value, string>,
    idOf: Value -> Option<int>)

  datatype AzureError =
    | BadMaxItems
    | RequestFailed(message: string)
    | MissingArray(field: string)
    | NotAnArray(field: string)
    | ItemWithoutId(index: nat)
    | ItemNotReturned(id: int)

  datatype Fetched = Fetched(items: seq<Value>, snapshotComplete: bool)

  function MaxItems(configured: Option<nat>): (r: Result<nat, AzureError>)
    ensures r.Err? <==> configured.Some? && !(1 <= configured.value <= 10_000)
    ensures r.Ok? ==> if configured.Some? then r.value == configured.value else r.value == 1_000
  {
    var value := if configured.Some? then configured.value else DEFAULT_MAX_ITEMS;
    if 1 <= value <= MAX_ALLOWED_ITEMS then Ok(value) else Err(BadMaxItems)
  }

  function ArrayField(reply: Value, field: string): Result<seq<Value>, AzureError> {
    match Get(reply, field)
    case None => Err(MissingArray(field))
    case Some(v) => if v.Array? then Ok(v.items) else Err(NotAnArray(field))
  }

  function Answer(reply: Result<Value, string>, field: string): Result<seq<Value>, AzureError> {
    match reply
    case Err(message) => Err(RequestFailed(message))
    case Ok(v) => ArrayField(v, field)
  }

  predicate AllHaveIds(azure: Azure, items: seq<Value>) {
    forall i :: 0 <= i < |items| ==> azure.idOf(items[i]).Some?
  }

  function IdsOf(azure: Azure, items: seq<Value>): seq<int>
    requires AllHaveIds(azure, items)
  {
    seq(|items|, i requires 0 <= i < |items| => azure.idOf(items[i]).value)
  }

  // ---------------------------------------------------------------- first occurrences

  /** Each id once, where it first occurs. */
  function Dedupe(ids: seq<int>): seq<int> {
    if ids == [] then []
    else
      var n := |ids| - 1;
      if ids[n] in ids[..n] then Dedupe(ids[..n]) else Dedupe(ids[..n]) + [ids[n]]
  }

  predicate Distinct(ids: seq<int>) {
    forall i, j :: 0 <= i < j < |ids| ==> ids[i] != ids[j]
  }

  predicate FirstAt(ids: seq<int>, id: int, k: nat) {
    k < |ids| && ids[k] == id && id !in ids[..k]
  }

  lemma FirstWithin(ids: seq<int>, n: nat, id: int, k: nat)
    requires n <= |ids| && FirstAt(ids, id, k) && id in ids[..n]
    ensures k < n && FirstAt(ids[..n], id, k)
  {
    var p :| 0 <= p < n && ids[..n][p] == id;
    forall q | 0 <= q < k ensures ids[q] != id {
      assert ids[..k][q] == ids[q];
    }
    assert k < n ==> ids[..n][..k] == ids[..k];
  }

  /** Dedupe is characterised by having the same ids, once each, in the order of their
      first occurrences. */
  lemma {:induction false} DedupeKeepsFirstOccurrences(ids: seq<int>)
    ensures Distinct(Dedupe(ids)) && |Dedupe(ids)| <= |ids|
    ensures forall k :: 0 <= k < |ids| ==> ids[k] in Dedupe(ids)
    ensures forall k :: 0 <= k < |Dedupe(ids)| ==> Dedupe(ids)[k] in ids
    ensures forall i, j, k: nat, m: nat ::
      (0 <= i < j < |Dedupe(ids)| && FirstAt(ids, Dedupe(ids)[i], k) && FirstAt(ids, Dedupe(ids)[j], m))
      ==> k < m
  {
    if ids != [] {
      var n := |ids| - 1;
      DedupeKeepsFirstOccurrences(ids[..n]);
      assert ids == ids[..n] + [ids[n]];
      var d := Dedupe(ids);
      forall i, j, k: nat, m: nat | 0 <= i < j < |d| && FirstAt(ids, d[i], k) && FirstAt(ids, d[j], m)
        ensures k < m
      {
        FirstWithin(ids, n, d[i], k);
        if j < |Dedupe(ids[..n])| {
          FirstWithin(ids, n, d[j], m);
        }
      }
    }
  }

  function Capped(ids: seq<int>, n: nat): (capped: seq<int>)
    ensures capped <= ids && |capped| == Min(n, |ids|)
  {
    ids[..if n < |ids| then n else |ids|]
  }

  lemma CappedAppend(ids: seq<int>, id: int, n: nat)
    ensures Capped(ids + [id], n) == if |Capped(ids, n)| < n then Capped(ids, n) + [id] else Capped(ids, n)
  {
  }

  // ---------------------------------------------------------------- batches

  /** The batch that starts at position `start`. */
  function BatchAt(ids: seq<int>, start: nat): seq<int>
    requires start <= |ids|
  {
    ids[start..Min(start + BATCH_SIZE, |ids|)]
  }

  /** The last item with this id: later duplicates in a reply win. */
  function LastWithId(azure: Azure, items: seq<Value>, id: int): Option<Value> {
    if items == [] then None
    else if azure.idOf(items[|items| - 1]) == Some(id) then Some(items[|items| - 1])
    else LastWithId(azure, items[..|items| - 1], id)
  }

  /** The reply to a batch can be used: every item has an id, every requested id is there. */
  predicate BatchAnswers(azure: Azure, batch: seq<int>) {
    var items := Answer(azure.batch(batch), "value");
    && items.Ok?
    && AllHaveIds(azure, items.value)
    && forall k :: 0 <= k < |batch| ==> LastWithId(azure, items.value, batch[k]).Some?
  }

  function ItemFor(azure: Azure, batch: seq<int>, id: int): Option<Value>
    requires Answer(azure.batch(batch), "value").Ok?
  {
    LastWithId(azure, Answer(azure.batch(batch), "value").value, id)
  }

  lemma {:induction false} LastWithIdIsOne(azure: Azure, items: seq<Value>, id: int)
    ensures LastWithId(azure, items, id).Some? ==>
              azure.idOf(LastWithId(azure, items, id).value) == Some(id) && LastWithId(azure, items, id).value in items
    ensures LastWithId(azure, items, id).Some? <==> exists i :: 0 <= i < |items| && azure.idOf(items[i]) == Some(id)
  {
    if items != [] {
      var n := |items| - 1;
      LastWithIdIsOne(azure, items[..n], id);
      assert items == items[..n] + [items[n]];
    }
  }

  predicate BatchStart(ids: seq<int>, start: nat) {
    start < |ids| && start % BATCH_SIZE == 0
  }

  // ---------------------------------------------------------------- the loops

  method ReadIds(azure: Azure, workItems: seq<Value>, maxItems: nat) returns (r: Result<seq<int>, AzureError>)
    ensures r.Ok? <==> AllHaveIds(azure, workItems)
    ensures r.Ok? ==> r.value == Capped(Dedupe(IdsOf(azure, workItems)), maxItems)
  {
    var seen: set<int> := {};
    var ids: seq<int> := [];
    for index := 0 to |workItems|
      invariant AllHaveIds(azure, workItems[..index])
      invariant forall id :: id in seen <==> id in IdsOf(azure, workItems[..index])
      invariant ids == Capped(Dedupe(IdsOf(azure, workItems[..index])), maxItems)
    {
      var id := azure.idOf(workItems[index]);
      if id.None? {
        return Err(ItemWithoutId(index));
      }
      assert workItems[..index + 1] == workItems[..index] + [workItems[index]];
      ghost var before := IdsOf(azure, workItems[..index]);
      assert IdsOf(azure, workItems[..index + 1]) == before + [id.value];
      assert (before + [id.value])[..index] == before;
      CappedAppend(Dedupe(before), id.value, maxItems);
      if id.value !in seen && |ids| < maxItems {
        ids := ids + [id.value];
      }
      seen := seen + {id.value};
    }
    assert workItems[..|workItems|] == workItems;
    return Ok(ids);
  }

  method IndexById(azure: Azure, items: seq<Value>) returns (r: Result<map<int, Value>, AzureError>)
    ensures r.Ok? <==> AllHaveIds(azure, items)
    ensures r.Ok? ==> forall id :: LastWithId(azure, items, id) == if id in r.value then Some(r.value[id]) else None
  {
    var byId: map<int, Value> := map[];
    for index := 0 to |items|
      invariant AllHaveIds(azure, items[..index])
      invariant forall id :: LastWithId(azure, items[..index], id) == if id in byId then Some(byId[id]) else None
    {
      var id := azure.idOf(items[index]);
      if id.None? {
        return Err(ItemWithoutId(index));
      }
      assert items[..index + 1][..index] == items[..index];
      byId := byId[id.value := items[index]];
    }
    assert items[..|items|] == items;
    return Ok(byId);
  }

  /** One batch: its items in the order of the requested ids, or nothing. */
  method FetchBatch(azure: Azure, batch: seq<int>) returns (r: Result<seq<Value>, AzureError>)
    requires Distinct(batch)
    ensures r.Ok? <==> BatchAnswers(azure, batch)
    ensures r.Ok? ==>
      && |r.value| == |batch|
      && forall k :: 0 <= k < |batch| ==> ItemFor(azure, batch, batch[k]) == Some(r.value[k])
  {
    var values := Answer(azure.batch(batch), "value");
    if values.Err? {
      return Err(values.error);
    }
    var byId := IndexById(azure, values.value);
    if byId.Err? {
      return Err(byId.error);
    }
    var remaining := byId.value;
    var items: seq<Value> := [];
    for k := 0 to |batch|
      invariant |items| == k
      invariant forall m :: 0 <= m < k ==> ItemFor(azure, batch, batch[m]) == Some(items[m])
      invariant forall m :: k <= m < |batch| ==>
        ItemFor(azure, batch, batch[m]) == if batch[m] in remaining then Some(remaining[batch[m]]) else None
    {
      if batch[k] !in remaining {
        return Err(ItemNotReturned(batch[k]));
      }
      items := items + [remaining[batch[k]]];
      remaining := remaining - {batch[k]};
    }
    return Ok(items);
  }

  /** The ids a successful fetch answers for. */
  function WantedIds(azure: Azure, workItems: seq<Value>, maxItems: nat): seq<int>
    requires AllHaveIds(azure, workItems)
  {
    Capped(Dedupe(IdsOf(azure, workItems)), maxItems)
  }

  ghost predicate AllBatchesAnswer(azure: Azure, ids: seq<int>) {
    forall start: nat :: BatchStart(ids, start) ==> BatchAnswers(azure, BatchAt(ids, start))
  }

  ghost predicate ServiceAnswers(azure: Azure, maxItems: nat) {
    var workItems := Answer(azure.wiql, "workItems");
    && workItems.Ok?
    && AllHaveIds(azure, workItems.value)
    && AllBatchesAnswer(azure, WantedIds(azure, workItems.value, maxItems))
  }

  /** Position `i` belongs to the batch that starts here. */
  function StartOf(i: nat): nat {
    i - i % BATCH_SIZE
  }

  lemma StartOfWithin(start: nat, i: nat)
    requires start % BATCH_SIZE == 0 && start <= i < start + BATCH_SIZE
    ensures StartOf(i) == start
  {
  }

  /** Each item is what the reply to its own batch holds for its id. */
  predicate InQueryOrder(azure: Azure, ids: seq<int>, items: seq<Value>)
    requires |items| <= |ids|
  {
    forall i :: 0 <= i < |items| ==>
      && BatchAnswers(azure, BatchAt(ids, StartOf(i)))
      && ItemFor(azure, BatchAt(ids, StartOf(i)), ids[i]) == Some(items[i])
  }

  lemma AppendBatch(azure: Azure, ids: seq<int>, items: seq<Value>, more: seq<Value>)
    requires |items| < |ids| && |items| % BATCH_SIZE == 0 && InQueryOrder(azure, ids, items)
    requires var batch := BatchAt(ids, |items|);
             && BatchAnswers(azure, batch) && |more| == |batch|
             && forall k :: 0 <= k < |batch| ==> ItemFor(azure, batch, batch[k]) == Some(more[k])
    ensures |items + more| <= |ids| && InQueryOrder(azure, ids, items + more)
  {
    var batch := BatchAt(ids, |items|);
    forall i | |items| <= i < |items| + |more|
      ensures StartOf(i) == |items| && ids[i] == batch[i - |items|]
    {
      StartOfWithin(|items|, i);
    }
  }

  method FetchBatches(azure: Azure, ids: seq<int>) returns (r: Result<seq<Value>, AzureError>)
    requires Distinct(ids)
    ensures r.Ok? <==> AllBatchesAnswer(azure, ids)
    ensures r.Ok? ==> |r.value| == |ids| && InQueryOrder(azure, ids, r.value)
  {
    var items: seq<Value> := [];
    while |items| < |ids|
      invariant |items| <= |ids| && (|items| < |ids| ==> |items| % BATCH_SIZE == 0)
      invariant forall s: nat :: BatchStart(ids, s) && s < |items| ==> BatchAnswers(azure, BatchAt(ids, s))
      invariant InQueryOrder(azure, ids, items)
    {
      var answered := FetchBatch(azure, BatchAt(ids, |items|));
      if answered.Err? {
        assert BatchStart(ids, |items|);
        return Err(answered.error);
      }
      AppendBatch(azure, ids, items, answered.value);
      forall s: nat | BatchStart(ids, s) && |items| < s < |items| + |answered.value| ensures false {
        StartOfWithin(|items|, s);
      }
      items := items + answered.value;
    }
    return Ok(items);
  }

  /** Succeeds exactly when the query and every batch can be used in full. The answer has
      one item per wanted id, in query order, each taken from the reply to its own batch. */
  method FetchWorkItems(azure: Azure, maxItems: nat) returns (r: Result<Fetched, AzureError>)
    ensures r.Ok? <==> ServiceAnswers(azure, maxItems)
    ensures r.Ok? ==>
      var workItems := Answer(azure.wiql, "workItems").value;
      var ids := WantedIds(azure, workItems, maxItems);
      && |r.value.items| == |ids| && InQueryOrder(azure, ids, r.value.items)
      && (r.value.snapshotComplete <==> |workItems| < maxItems)
  {
    var workItems := Answer(azure.wiql, "workItems");
    if workItems.Err? {
      return Err(workItems.error);
    }
    var snapshotComplete := |workItems.value| < maxItems;
    var ids := ReadIds(azure, workItems.value, maxItems);
    if ids.Err? {
      return Err(ids.error);
    }
    DedupeKeepsFirstOccurrences(IdsOf(azure, workItems.value));
    if ids.value == [] {
      return Ok(Fetched([], snapshotComplete));
    }
    var items := FetchBatches(azure, ids.value);
    if items.Err? {
      return Err(items.error);
    }
    return Ok(Fetched(items.value, snapshotComplete));
  }

  /** What a caller of FetchWorkItems may conclude: the items carry the wanted ids in
      order, one each; and when the snapshot is complete no queried id is missing. */
  lemma FetchedIdsAreTheQueried(azure: Azure, maxItems: nat, items: seq<Value>)
    requires ServiceAnswers(azure, maxItems)
    requires var ids := WantedIds(azure, Answer(azure.wiql, "workItems").value, maxItems);
             |items| == |ids| && InQueryOrder(azure, ids, items)
    ensures var workItems := Answer(azure.wiql, "workItems").value;
            var ids := WantedIds(azure, workItems, maxItems);
            && AllHaveIds(azure, items) && IdsOf(azure, items) == ids && Distinct(ids)
            && (|workItems| < maxItems ==>
                  && ids == Dedupe(IdsOf(azure, workItems))
                  && forall k :: 0 <= k < |workItems| ==> IdsOf(azure, workItems)[k] in ids)
  {
    var workItems := Answer(azure.wiql, "workItems").value;
    var ids := WantedIds(azure, workItems, maxItems);
    DedupeKeepsFirstOccurrences(IdsOf(azure, workItems));
    assert |workItems| < maxItems ==> ids == Dedupe(IdsOf(azure, workItems));
    forall i | 0 <= i < |items| ensures azure.idOf(items[i]) == Some(ids[i]) {
      var batch := BatchAt(ids, StartOf(i));
      LastWithIdIsOne(azure, Answer(azure.batch(batch), "value").value, ids[i]);
    }
  }

  // ---------------------------------------------------------------- what the service has to say

  /** The reply is an object whose `field` is this array. */
  predicate Holds(reply: Result<Value, string>, field: string, items: seq<Value>) {
    reply.Ok? && Get(reply.value, field) == Some(Array(items))
  }

  /** `item` is the last of `items` with this id. */
  ghost predicate LastMatch(azure: Azure, items: seq<Value>, id: int, item: Value) {
    exists m :: 0 <= m < |items| && items[m] == item && azure.idOf(item) == Some(id)
                && forall j :: m < j < |items| ==> azure.idOf(items[j]) != Some(id)
  }

  lemma {:induction false} LastWithIdIsLast(azure: Azure, items: seq<Value>, id: int, item: Value)
    ensures LastWithId(azure, items, id) == Some(item) <==> LastMatch(azure, items, id, item)
  {
    if items != [] {
      var n := |items| - 1;
      var front := items[..n];
      LastWithIdIsLast(azure, front, id, item);
      assert forall j :: 0 <= j < n ==> front[j] == items[j];
      if azure.idOf(items[n]) != Some(id) {
        if m :| 0 <= m < |front| && front[m] == item && azure.idOf(item) == Some(id)
                && forall j :: m < j < |front| ==> azure.idOf(front[j]) != Some(id) {
          assert items[m] == item;
          assert LastMatch(azure, items, id, item);
        }
        if m :| 0 <= m < |items| && items[m] == item && azure.idOf(item) == Some(id)
                && forall j :: m < j < |items| ==> azure.idOf(items[j]) != Some(id) {
          assert front[m] == item;
          assert LastMatch(azure, front, id, item);
        }
      } else if m :| 0 <= m < |items| && items[m] == item && azure.idOf(item) == Some(id)
                     && forall j :: m < j < |items| ==> azure.idOf(items[j]) != Some(id) {
        assert m == n;
      } else {
        assert items[n] == item ==> LastMatch(azure, items, id, item);
      }
    }
  }

  /** The reply to these ids holds an array of items with ids, one for each of them at least. */
  ghost predicate Covers(azure: Azure, ids: seq<int>) {
    exists items :: Holds(azure.batch(ids), "value", items) && AllHaveIds(azure, items)
                    && forall k :: 0 <= k < |ids| ==> exists m :: 0 <= m < |items| && azure.idOf(items[m]) == Some(ids[k])
  }

  lemma BatchAnswersExactly(azure: Azure, batch: seq<int>)
    ensures BatchAnswers(azure, batch) <==> Covers(azure, batch)
  {
    var items := Answer(azure.batch(batch), "value");
    if items.Ok? {
      assert Holds(azure.batch(batch), "value", items.value);
      forall k | 0 <= k < |batch|
        ensures LastWithId(azure, items.value, batch[k]).Some? <==>
                  exists m :: 0 <= m < |items.value| && azure.idOf(items.value[m]) == Some(batch[k])
      {
        LastWithIdIsOne(azure, items.value, batch[k]);
      }
    }
  }

  /** Run `k` of 200 ids, counted from the first. */
  function RunOf(ids: seq<int>, k: nat): seq<int>
    requires 200 * k <= |ids|
  {
    ids[200 * k..Min(200 * k + 200, |ids|)]
  }

  ghost predicate RunsCovered(azure: Azure, ids: seq<int>) {
    forall k: nat :: 200 * k < |ids| ==> Covers(azure, RunOf(ids, k))
  }

  lemma BatchesAreRuns(azure: Azure, ids: seq<int>)
    ensures AllBatchesAnswer(azure, ids) <==> RunsCovered(azure, ids)
  {
    if AllBatchesAnswer(azure, ids) {
      forall k: nat | 200 * k < |ids| ensures Covers(azure, RunOf(ids, k)) {
        assert BatchStart(ids, 200 * k);
        BatchAnswersExactly(azure, BatchAt(ids, 200 * k));
      }
    }
    if RunsCovered(azure, ids) {
      forall start: nat | BatchStart(ids, start) ensures BatchAnswers(azure, BatchAt(ids, start)) {
        var k := start / 200;
        assert start == 200 * k;
        assert Covers(azure, RunOf(ids, k)) && RunOf(ids, k) == BatchAt(ids, start);
        BatchAnswersExactly(azure, BatchAt(ids, start));
      }
    }
  }

  /** The fetch succeeds exactly when the query is answered by an array of items with ids and
      each run of 200 of the wanted ids is covered by its own reply. */
  lemma ServiceAnswersExactly(azure: Azure, maxItems: nat)
    ensures ServiceAnswers(azure, maxItems) <==>
              exists queried :: Holds(azure.wiql, "workItems", queried) && AllHaveIds(azure, queried)
                                && RunsCovered(azure, WantedIds(azure, queried, maxItems))
  {
    var queried := Answer(azure.wiql, "workItems");
    if queried.Ok? && AllHaveIds(azure, queried.value) {
      assert Holds(azure.wiql, "workItems", queried.value);
      BatchesAreRuns(azure, WantedIds(azure, queried.value, maxItems));
    }
  }
}
