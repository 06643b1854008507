/** The `connector_runs` table: the repository methods that change it in place, and what
    holds of the whole table along every sequence of their statements.

    SELECT ... FOR UPDATE SKIP LOCKED sees only rows no other transaction has locked; the
    set `locked` stands for those rows and is arbitrary.
  */
module RunTable {
  import opened Common
  import opened RunLease
  import opened QueryOrder

  type Table = map<int, Run>

  datatype RecoveryStats = RecoveryStats(requeued: nat, failed: nat, cancelled: nat)

  ghost function CandidatesToClaim(t: Table, now: Time, locked: set<int>): set<int> {
    set id | id in t && id !in locked && Claimable(t[id], now)
  }

  ghost function CandidatesToRecover(t: Table, now: Time, locked: set<int>): set<int> {
    set id | id in t && id !in locked && Expired(t[id], now)
  }

  function ClaimKey(t: Table): int -> SortKey {
    (id: int) => if id in t then SortKey(t[id].nextAttemptAt, t[id].startedAt, id) else SortKey(0, 0, id)
  }

  function RecoveryKey(t: Table): int -> SortKey {
    (id: int) =>
      if id in t && t[id].leaseExpiresAt.Some? then SortKey(t[id].leaseExpiresAt.value, 0, id)
      else SortKey(0, 0, id)
  }

  /** ORDER BY key LIMIT limit over `ids`: distinct, ordered, as many as allowed, and
      nothing left out that comes before something taken. */
  ghost predicate IsOrderedPrefix(ids: set<int>, key: int -> SortKey, limit: nat, taken: seq<int>) {
    && (forall k :: 0 <= k < |taken| ==> taken[k] in ids)
    && (forall k, m :: 0 <= k < m < |taken| ==> Precedes(key(taken[k]), key(taken[m])))
    && |taken| <= limit
    && (forall id :: id in ids && id !in taken ==> |taken| == limit)
    && (forall id, k :: id in ids && id !in taken && 0 <= k < |taken| ==> Precedes(key(taken[k]), key(id)))
  }

  function Counted(stats: RecoveryStats, r: Run): RecoveryStats {
    if r.cancelRequestedAt.Some? then stats.(cancelled := stats.cancelled + 1)
    else if r.attemptCount >= r.maxAttempts then stats.(failed := stats.failed + 1)
    else stats.(requeued := stats.requeued + 1)
  }

  /** The recovery loop's three counters over the rows it visited. */
  ghost function StatsOf(t: Table, ids: seq<int>): (stats: RecoveryStats)
    requires forall k :: 0 <= k < |ids| ==> ids[k] in t
    ensures stats.requeued + stats.failed + stats.cancelled == |ids|
  {
    if ids == [] then RecoveryStats(0, 0, 0)
    else Counted(StatsOf(t, ids[..|ids| - 1]), t[ids[|ids| - 1]])
  }

  function RecoverRows(t: Table, ids: set<int>, retryBase: int, retryMax: int, now: Time): Table {
    map id | id in t :: if id in ids then Apply(t[id], Recover(retryBase, retryMax), now) else t[id]
  }

  function DeleteFinished(t: Table, before: Time): Table {
    map id | id in t && !(t[id].finishedAt.Some? && t[id].finishedAt.value < before) :: t[id]
  }

  /** One more turn of the recovery loop. */
  lemma RecoverNext(t: Table, ids: seq<int>, k: nat, retryBase: int, retryMax: int, now: Time)
    requires k < |ids|
    requires forall i :: 0 <= i < |ids| ==> ids[i] in t && Expired(t[ids[i]], now)
    requires forall i, j :: 0 <= i < j < |ids| ==> ids[i] != ids[j]
    ensures var done := RecoverRows(t, Elements(ids[..k]), retryBase, retryMax, now);
            && ids[k] in done && done[ids[k]] == t[ids[k]]
            && RecoverRows(t, Elements(ids[..k + 1]), retryBase, retryMax, now)
                 == done[ids[k] := Recovered(t[ids[k]], now, retryBase, retryMax)]
    ensures StatsOf(t, ids[..k + 1]) == Counted(StatsOf(t, ids[..k]), t[ids[k]])
  {
    assert Elements(ids[..k + 1]) == Elements(ids[..k]) + {ids[k]};
    assert ids[..k + 1][..k] == ids[..k];
    assert ids[k] !in Elements(ids[..k]);
    var done := RecoverRows(t, Elements(ids[..k]), retryBase, retryMax, now);
    var next := RecoverRows(t, Elements(ids[..k + 1]), retryBase, retryMax, now);
    assert next.Keys == done.Keys;
    assert forall id :: id in next && id != ids[k] ==> next[id] == done[id];
    assert next == done[ids[k] := Recovered(t[ids[k]], now, retryBase, retryMax)];
  }

  /** Nobody can claim the run, renew it or deliver a result for it any more. */
  ghost predicate Closed(r: Run) {
    && (forall t: Time :: !Claimable(r, t))
    && (forall owner: Option<string>, t: Time :: !ActiveFor(r, owner, t))
  }

  lemma IsClosed(r: Run)
    requires !r.status.Active() || (r.status == Running && r.cancelRequestedAt.Some?)
    ensures Closed(r)
  {
  }

  datatype Connector = Connector(status: string, lastRunAt: Option<Time>)

  type Connectors = map<string, Connector>

  /** Recovery gives this run up. */
  predicate GivenUp(r: Run) {
    r.cancelRequestedAt.None? && r.attemptCount >= r.maxAttempts
  }

  /** Some of the runs `ids` of this source is given up. */
  ghost predicate FailsFor(t: Table, ids: seq<int>, source: string) {
    exists k :: 0 <= k < |ids| && ids[k] in t && t[ids[k]].source == source && GivenUp(t[ids[k]])
  }

  ghost function ConnectorsAfter(c: Connectors, t: Table, ids: seq<int>, now: Time): Connectors {
    map source | source in c :: if FailsFor(t, ids, source) then Connector("error", Some(now)) else c[source]
  }

  lemma FailsForOne(t: Table, id: int, source: string)
    ensures FailsFor(t, [id], source) <==> id in t && t[id].source == source && GivenUp(t[id])
  {
    assert [id][0] == id;
  }

  /** Exactly the connectors with a run that failed among `ids` show the error. */
  ghost predicate ErrorsShown(c: Connectors, c': Connectors, t': Table, ids: seq<int>, now: Time) {
    && c'.Keys == c.Keys
    && forall source :: source in c ==>
         if exists k :: 0 <= k < |ids| && ids[k] in t' && t'[ids[k]].status == Failed && t'[ids[k]].source == source
         then c'[source] == Connector("error", Some(now))
         else c'[source] == c[source]
  }

  lemma FailuresShow(c: Connectors, t: Table, t': Table, ids: seq<int>, now: Time, retryBase: int, retryMax: int)
    requires RowsRecovered(t, t', ids, now, retryBase, retryMax)
    ensures ErrorsShown(c, ConnectorsAfter(c, t, ids, now), t', ids, now)
  {
    assert forall k :: 0 <= k < |ids| ==>
        (GivenUp(t[ids[k]]) <==> t'[ids[k]].status == Failed) && t'[ids[k]].source == t[ids[k]].source;
  }

  lemma RowsAreRecovered(t: Table, ids: seq<int>, retryBase: int, retryMax: int, now: Time)
    requires forall i :: 0 <= i < |ids| ==> ids[i] in t && Expired(t[ids[i]], now)
    ensures RowsRecovered(t, RecoverRows(t, Elements(ids), retryBase, retryMax, now), ids, now, retryBase, retryMax)
  {
    var t' := RecoverRows(t, Elements(ids), retryBase, retryMax, now);
    forall i | 0 <= i < |ids|
      ensures ids[i] in t' && t'[ids[i]] == Recovered(t[ids[i]], now, retryBase, retryMax)
    {
      assert ids[i] in Elements(ids);
      assert t'[ids[i]] == Apply(t[ids[i]], Recover(retryBase, retryMax), now);
    }
  }

  lemma ConnectorsNext(c: Connectors, t: Table, current: Table, ids: seq<int>, k: nat, now: Time)
    requires k < |ids| && ids[k] in t && ids[k] in current && current[ids[k]] == t[ids[k]]
    ensures ConnectorsAfter(c, t, ids[..k + 1], now)
         == ConnectorsAfter(ConnectorsAfter(c, t, ids[..k], now), current, [ids[k]], now)
  {
    forall source
      ensures FailsFor(t, ids[..k + 1], source) <==> FailsFor(t, ids[..k], source) || FailsFor(current, [ids[k]], source)
    {
      if FailsFor(t, ids[..k], source) {
        var i :| 0 <= i < k && ids[..k][i] in t && t[ids[..k][i]].source == source && GivenUp(t[ids[..k][i]]);
        assert ids[..k + 1][i] == ids[..k][i];
      }
      if FailsFor(t, ids[..k + 1], source) && !FailsFor(current, [ids[k]], source) {
        var i :| 0 <= i < k + 1 && ids[..k + 1][i] in t && t[ids[..k + 1][i]].source == source && GivenUp(t[ids[..k + 1][i]]);
        assert i == k ==> [ids[k]][0] == ids[..k + 1][i];
        assert i < k ==> ids[..k][i] == ids[..k + 1][i];
      }
      if FailsFor(current, [ids[k]], source) {
        assert ids[..k + 1][k] == ids[k];
      }
    }
  }

  /** Earlier expiry first, then the smaller id. */
  predicate SoonerExpired(a: Run, i: int, b: Run, j: int) {
    a.leaseExpiresAt.Some? && b.leaseExpiresAt.Some?
    && (a.leaseExpiresAt.value < b.leaseExpiresAt.value || (a.leaseExpiresAt.value == b.leaseExpiresAt.value && i < j))
  }

  /** The rows a recovery pass takes: expired and not locked, in that order, and all that
      come before one it leaves out. */
  ghost predicate FirstToExpire(t: Table, now: Time, locked: set<int>, limit: nat, taken: seq<int>) {
    && |taken| <= limit
    && (forall k :: 0 <= k < |taken| ==> taken[k] in t && taken[k] !in locked && Expired(t[taken[k]], now))
    && (forall k, m :: 0 <= k < m < |taken| ==> SoonerExpired(t[taken[k]], taken[k], t[taken[m]], taken[m]))
    && (forall id :: id in t && id !in locked && Expired(t[id], now) && id !in taken ==>
          |taken| == limit && forall k :: 0 <= k < |taken| ==> SoonerExpired(t[taken[k]], taken[k], t[id], id))
  }

  lemma PrefixIsFirstToExpire(t: Table, now: Time, locked: set<int>, limit: nat, taken: seq<int>)
    requires IsOrderedPrefix(CandidatesToRecover(t, now, locked), RecoveryKey(t), limit, taken)
    ensures FirstToExpire(t, now, locked, limit, taken)
  {
    var ids, key := CandidatesToRecover(t, now, locked), RecoveryKey(t);
    forall id | id in t && id !in locked && Expired(t[id], now) && id !in taken
      ensures |taken| == limit && forall k :: 0 <= k < |taken| ==> SoonerExpired(t[taken[k]], taken[k], t[id], id)
    {
      assert id in ids;
      assert forall k :: 0 <= k < |taken| ==> Precedes(key(taken[k]), key(id));
    }
  }

  /** How many of the rows `ids` have this status. */
  function CountHaving(t: Table, ids: seq<int>, status: Status): nat {
    if ids == [] then 0
    else
      var n := |ids| - 1;
      CountHaving(t, ids[..n], status) + if ids[n] in t && t[ids[n]].status == status then 1 else 0
  }

  /** Every row of `ids` went from `t` to `t'` by recovery. */
  predicate RowsRecovered(t: Table, t': Table, ids: seq<int>, now: Time, retryBase: int, retryMax: int) {
    forall i :: 0 <= i < |ids| ==>
      ids[i] in t && ids[i] in t' && t'[ids[i]] == Recovered(t[ids[i]], now, retryBase, retryMax)
  }

  /** The counters of a recovery are the numbers of rows it left queued, failed, cancelled. */
  lemma {:induction false} StatsAreCounts(t: Table, t': Table, ids: seq<int>, now: Time, retryBase: int, retryMax: int)
    requires RowsRecovered(t, t', ids, now, retryBase, retryMax)
    ensures StatsOf(t, ids) == RecoveryStats(CountHaving(t', ids, Queued), CountHaving(t', ids, Failed), CountHaving(t', ids, Cancelled))
  {
    if ids != [] {
      StatsAreCounts(t, t', ids[..|ids| - 1], now, retryBase, retryMax);
    }
  }

  class ConnectorRuns {
    var runs: Table
    var connectors: Connectors

    constructor ()
      ensures runs == map[] && connectors == map[]
    {
      runs, connectors := map[], map[];
    }

    method ClaimNextQueued(worker: string, leaseSeconds: int, now: Time, locked: set<int>)
      returns (claimed: Option<int>)
      modifies this`runs
      ensures claimed.None? <==> CandidatesToClaim(old(runs), now, locked) == {}
      ensures claimed.None? ==> runs == old(runs)
      ensures claimed.Some? ==>
        && IsFirst(CandidatesToClaim(old(runs), now, locked), ClaimKey(old(runs)), claimed.value)
        && runs == old(runs)[claimed.value :=
                     Apply(old(runs)[claimed.value], Claim(worker, leaseSeconds), now)]
      ensures claimed.Some? ==>
        forall t :: now <= t < now + leaseSeconds * SECOND ==> ActiveFor(runs[claimed.value], Some(worker), t)
      ensures claimed.Some? ==>
        && claimed.value in old(runs) && claimed.value !in locked && Claimable(old(runs)[claimed.value], now)
        && forall j :: j in old(runs) && j !in locked && Claimable(old(runs)[j], now) && j != claimed.value ==>
             var a, b := old(runs)[claimed.value], old(runs)[j];
             a.nextAttemptAt < b.nextAttemptAt
             || (a.nextAttemptAt == b.nextAttemptAt
                 && (a.startedAt < b.startedAt || (a.startedAt == b.startedAt && claimed.value < j)))
      ensures claimed.None? ==> forall j :: j in old(runs) && j !in locked ==> !Claimable(old(runs)[j], now)
    {
      var candidates := set id | id in runs && id !in locked && Claimable(runs[id], now);
      assert forall j :: j in runs && j !in locked && Claimable(runs[j], now) ==> j in candidates;
      if candidates == {} {
        return None;
      }
      var key := ClaimKey(runs);
      var id := PickFirst(candidates, key);
      var queued := runs[id];
      runs := runs[id := queued.(
        status := Running,
        claimedAt := Some(now),
        workerId := Some(worker),
        attemptCount := queued.attemptCount + 1,
        leaseExpiresAt := Some(now + leaseSeconds * SECOND),
        heartbeatAt := Some(now),
        finishedAt := None,
        cancelledAt := None)];
      return Some(id);
    }

    method RenewLease(id: int, worker: string, leaseSeconds: int, now: Time) returns (renewed: bool)
      modifies this`runs
      ensures renewed <==> id in old(runs) && ActiveFor(old(runs)[id], Some(worker), now)
      ensures runs == if id in old(runs)
                      then old(runs)[id := Apply(old(runs)[id], Renew(worker, leaseSeconds), now)]
                      else old(runs)
      ensures !renewed ==> runs == old(runs)
      ensures renewed ==>
        forall t :: now <= t < now + leaseSeconds * SECOND ==> ActiveFor(runs[id], Some(worker), t)
    {
      if id in runs && ActiveFor(runs[id], Some(worker), now) {
        runs := runs[id := runs[id].(heartbeatAt := Some(now),
                                     leaseExpiresAt := Some(now + leaseSeconds * SECOND))];
        return true;
      }
      return false;
    }

    method FinalizeIfActive(id: int, owner: Option<string>, outcome: Outcome, finished: Time, now: Time)
      returns (updated: Option<Run>)
      modifies this`runs
      ensures updated.Some? <==> id in old(runs) && ActiveFor(old(runs)[id], owner, now)
      ensures updated.Some? ==> id in runs && runs[id] == updated.value
      ensures runs == if id in old(runs)
                      then old(runs)[id := Apply(old(runs)[id], Finalize(owner, outcome, finished), now)]
                      else old(runs)
      ensures updated.None? ==> runs == old(runs)
      ensures updated.Some? ==> Closed(runs[id])
    {
      if id in runs && ActiveFor(runs[id], owner, now) {
        var run := runs[id].(status := outcome.ToStatus(), finishedAt := Some(finished),
                             leaseExpiresAt := None, heartbeatAt := Some(now));
        runs := runs[id := run];
        IsClosed(run);
        return Some(run);
      }
      return None;
    }

    /** A missing row is an error, an ended run is None. */
    method RequestCancelOf(id: int, now: Time) returns (result: Result<Option<Run>, ()>)
      modifies this`runs
      ensures result.Err? <==> id !in old(runs)
      ensures result.Err? ==> runs == old(runs)
      ensures result.Ok? ==> runs == old(runs)[id := Apply(old(runs)[id], RequestCancel, now)]
      ensures result.Ok? ==>
        result.value == if old(runs)[id].status.Active() then Some(runs[id]) else None
      ensures result.Ok? ==> Closed(runs[id])
    {
      if id !in runs {
        return Err(());
      }
      var run := runs[id];
      if run.status == Queued {
        run := run.(status := Cancelled, cancelRequestedAt := Some(now), cancelledAt := Some(now),
                    finishedAt := Some(now), leaseExpiresAt := None);
      } else if run.status == Running {
        run := run.(cancelRequestedAt := Some(now));
      } else {
        IsClosed(run);
        return Ok(None);
      }
      runs := runs[id := run];
      IsClosed(run);
      return Ok(Some(run));
    }

    method MarkCancelledIfRequested(id: int, owner: Option<string>, now: Time) returns (updated: Option<Run>)
      modifies this`runs
      ensures updated.Some? <==>
        id in old(runs) && old(runs)[id].status == Running && old(runs)[id].workerId == owner
        && old(runs)[id].cancelRequestedAt.Some?
      ensures updated.Some? ==> id in runs && runs[id] == updated.value && runs[id].status == Cancelled && Closed(runs[id])
      ensures updated.None? ==> runs == old(runs)
      ensures runs == if id in old(runs)
                      then old(runs)[id := Apply(old(runs)[id], MarkCancelled(owner), now)]
                      else old(runs)
    {
      if id in runs && runs[id].status == Running && runs[id].workerId == owner
         && runs[id].cancelRequestedAt.Some?
      {
        var run := runs[id].(status := Cancelled, cancelledAt := Some(now), finishedAt := Some(now),
                             leaseExpiresAt := None, heartbeatAt := Some(now));
        runs := runs[id := run];
        IsClosed(run);
        return Some(run);
      }
      return None;
    }

    /** The rows a recovery pass locks: the `limit` oldest expired leases not locked by others. */
    method SelectExpired(now: Time, limit: nat, locked: set<int>) returns (expired: seq<int>)
      ensures IsOrderedPrefix(CandidatesToRecover(runs, now, locked), RecoveryKey(runs), limit, expired)
      ensures FirstToExpire(runs, now, locked, limit, expired)
    {
      var rest := set id | id in runs && id !in locked && Expired(runs[id], now);
      ghost var all := rest;
      var key := RecoveryKey(runs);
      expired := [];
      while |expired| < limit && rest != {}
        invariant rest <= all && |expired| <= limit
        invariant forall id :: id in all ==> id in rest || id in expired
        invariant forall k :: 0 <= k < |expired| ==> expired[k] in all && expired[k] !in rest
        invariant forall k, m :: 0 <= k < m < |expired| ==> Precedes(key(expired[k]), key(expired[m]))
        invariant forall id, k :: id in rest && 0 <= k < |expired| ==> Precedes(key(expired[k]), key(id))
        decreases rest
      {
        var id := PickFirst(rest, key);
        expired, rest := expired + [id], rest - {id};
      }
      PrefixIsFirstToExpire(runs, now, locked, limit, expired);
    }

    /** The loop body: one expired row is cancelled, failed or put back in the queue. */
    method RecoverRow(id: int, retryBase: int, retryMax: int, now: Time, stats: RecoveryStats)
      returns (stats': RecoveryStats)
      requires id in runs
      modifies this
      ensures runs == old(runs)[id := Recovered(old(runs)[id], now, retryBase, retryMax)]
      ensures connectors == ConnectorsAfter(old(connectors), old(runs), [id], now)
      ensures stats' == Counted(stats, old(runs)[id])
    {
      var run := runs[id];
      forall source ensures FailsFor(runs, [id], source) <==> run.source == source && GivenUp(run) {
        FailsForOne(runs, id, source);
      }
      if run.cancelRequestedAt.Some? {
        run := run.(status := Cancelled, cancelledAt := Some(now), finishedAt := Some(now),
                    leaseExpiresAt := None);
        stats' := stats.(cancelled := stats.cancelled + 1);
      } else if run.attemptCount >= run.maxAttempts {
        run := run.(status := Failed, finishedAt := Some(now), leaseExpiresAt := None);
        if run.source in connectors {
          connectors := connectors[run.source := Connector("error", Some(now))];
        }
        stats' := stats.(failed := stats.failed + 1);
      } else {
        var backoffSeconds := Backoff(run.attemptCount, retryBase, retryMax);
        run := run.(status := Queued, nextAttemptAt := now + backoffSeconds * SECOND,
                    claimedAt := None, workerId := None, leaseExpiresAt := None, heartbeatAt := None);
        stats' := stats.(requeued := stats.requeued + 1);
      }
      runs := runs[id := run];
    }

    /** Each selected row is cancelled, failed or requeued; the counters say how many of
        each, no other row changes, and the connectors of the failed rows show the error. */
    method RecoverExpiredLeases(retryBase: int, retryMax: int, limit: nat, now: Time, locked: set<int>)
      returns (stats: RecoveryStats, expired: seq<int>)
      modifies this
      ensures IsOrderedPrefix(CandidatesToRecover(old(runs), now, locked), RecoveryKey(old(runs)), limit, expired)
      ensures runs == RecoverRows(old(runs), Elements(expired), retryBase, retryMax, now)
      ensures connectors == ConnectorsAfter(old(connectors), old(runs), expired, now)
      ensures stats == StatsOf(old(runs), expired)
      ensures FirstToExpire(old(runs), now, locked, limit, expired)
      ensures stats == RecoveryStats(CountHaving(runs, expired, Queued), CountHaving(runs, expired, Failed),
                                     CountHaving(runs, expired, Cancelled))
      ensures ErrorsShown(old(connectors), connectors, runs, expired, now)
    {
      expired := SelectExpired(now, limit, locked);
      stats := RecoveryStats(0, 0, 0);
      ghost var before, shown := runs, connectors;
      var k := 0;
      while k < |expired|
        invariant 0 <= k <= |expired|
        invariant runs == RecoverRows(before, Elements(expired[..k]), retryBase, retryMax, now)
        invariant connectors == ConnectorsAfter(shown, before, expired[..k], now)
        invariant stats == StatsOf(before, expired[..k])
      {
        RecoverNext(before, expired, k, retryBase, retryMax, now);
        ConnectorsNext(shown, before, runs, expired, k, now);
        stats := RecoverRow(expired[k], retryBase, retryMax, now, stats);
        k := k + 1;
      }
      assert expired[..k] == expired;
      RowsAreRecovered(before, expired, retryBase, retryMax, now);
      StatsAreCounts(before, runs, expired, now, retryBase, retryMax);
      FailuresShow(shown, before, runs, expired, now, retryBase, retryMax);
    }

    method DeleteFinishedOlderThan(before: Time) returns (deleted: nat)
      modifies this`runs
      ensures runs == DeleteFinished(old(runs), before)
      ensures deleted == |old(runs)| - |runs|
      ensures forall id :: id in runs <==>
                id in old(runs) && !(old(runs)[id].finishedAt.Some? && old(runs)[id].finishedAt.value < before)
      ensures forall id :: id in runs ==> runs[id] == old(runs)[id]
    {
      var kept := map id | id in runs && !(runs[id].finishedAt.Some? && runs[id].finishedAt.value < before)
                      :: runs[id];
      assert kept.Keys <= runs.Keys;
      SubsetSize(kept.Keys, runs.Keys);
      deleted := |runs| - |kept|;
      runs := kept;
    }
  }

  // ---------------------------------------------------------------- whole-table runs

  datatype TableOp =
    | OnRow(id: int, op: Op)
    | RecoverSome(ids: set<int>, retryBase: int, retryMax: int)
    | DeleteBefore(before: Time)
    | Insert(id: int, run: Run)

  datatype TableEvent = TableEvent(op: TableOp, at: Time)

  function TableApply(t: Table, op: TableOp, now: Time): Table {
    match op
    case OnRow(id, rowOp) => if id in t then t[id := Apply(t[id], rowOp, now)] else t
    case RecoverSome(ids, retryBase, retryMax) => RecoverRows(t, ids, retryBase, retryMax, now)
    case DeleteBefore(before) => DeleteFinished(t, before)
    case Insert(id, run) => if id in t then t else t[id := run]
  }

  function TablePlay(t: Table, trace: seq<TableEvent>): Table
    decreases |trace|
  {
    if trace == [] then t else TablePlay(TableApply(t, trace[0].op, trace[0].at), trace[1..])
  }

  predicate TableInv(t: Table) {
    forall id :: id in t ==> RowInv(t[id])
  }

  predicate InsertsFresh(trace: seq<TableEvent>) {
    forall e :: e in trace && e.op.Insert? ==> Fresh(e.op.run)
  }

  predicate NeverInserts(trace: seq<TableEvent>, id: int) {
    forall e :: e in trace && e.op.Insert? ==> e.op.id != id
  }

  /** The operations of a table run that reach row `id`. */
  function RowTrace(trace: seq<TableEvent>, id: int): seq<Event>
    decreases |trace|
  {
    if trace == [] then []
    else
      var rest := RowTrace(trace[1..], id);
      match trace[0].op
      case OnRow(i, rowOp) => if i == id then [Event(rowOp, trace[0].at)] + rest else rest
      case RecoverSome(ids, retryBase, retryMax) =>
        if id in ids then [Event(Recover(retryBase, retryMax), trace[0].at)] + rest else rest
      case _ => rest
  }

  lemma StepKeepsTableInv(t: Table, e: TableEvent)
    requires TableInv(t) && (e.op.Insert? ==> Fresh(e.op.run))
    ensures TableInv(TableApply(t, e.op, e.at))
  {
    forall id | id in t
      ensures e.op.OnRow? ==> RowInv(Apply(t[id], e.op.op, e.at))
      ensures e.op.RecoverSome? ==> RowInv(Apply(t[id], Recover(e.op.retryBase, e.op.retryMax), e.at))
    {
      if e.op.OnRow? {
        RowInvKept(t[id], e.op.op, e.at);
      } else if e.op.RecoverSome? {
        RowInvKept(t[id], Recover(e.op.retryBase, e.op.retryMax), e.at);
      }
    }
  }

  /** Retention never removes a queued or running run, at any point of any table run. */
  lemma {:induction false} RetentionSparesActiveRuns(t: Table, trace: seq<TableEvent>, before: Time)
    requires TableInv(t) && InsertsFresh(trace)
    ensures var t' := TablePlay(t, trace);
            && TableInv(t')
            && forall id :: id in t' && t'[id].status.Active() ==> id in DeleteFinished(t', before)
    decreases |trace|
  {
    if trace != [] {
      assert trace[0] in trace;
      assert forall e :: e in trace[1..] ==> e in trace;
      StepKeepsTableInv(t, trace[0]);
      RetentionSparesActiveRuns(TableApply(t, trace[0].op, trace[0].at), trace[1..], before);
    }
  }

  /** What one table event does to the history of row `id`. */
  function AfterEvent(h: History, e: TableEvent, id: int): History {
    match e.op
    case OnRow(i, rowOp) => if i == id then Record(h, rowOp, e.at) else h
    case RecoverSome(ids, retryBase, retryMax) =>
      if id in ids then Record(h, Recover(retryBase, retryMax), e.at) else h
    case _ => h
  }

  lemma RowTraceFirst(h: History, e: TableEvent, rest: seq<TableEvent>, id: int)
    ensures Play(h, RowTrace([e] + rest, id)) == Play(AfterEvent(h, e, id), RowTrace(rest, id))
  {
    assert ([e] + rest)[1..] == rest;
    var own := RowTrace([e] + rest, id);
    if |own| == |RowTrace(rest, id)| + 1 {
      assert own[1..] == RowTrace(rest, id);
    }
  }

  /** Whatever happens to the other rows, a row still in the table went through exactly
      its own operations, and a row that left it had ended. */
  lemma {:induction false} RowsEvolveIndependently(t: Table, trace: seq<TableEvent>, id: int, h: History)
    requires id in t && t[id] == h.run && NeverInserts(trace, id)
    requires TableInv(t) && InsertsFresh(trace)
    ensures id in TablePlay(t, trace) ==> TablePlay(t, trace)[id] == Play(h, RowTrace(trace, id)).run
    ensures id !in TablePlay(t, trace) ==> EndedBy(h, trace, id)
    decreases |trace|
  {
    if trace != [] {
      var e, rest := trace[0], trace[1..];
      assert e in trace && forall x :: x in rest ==> x in trace;
      var t1 := TableApply(t, e.op, e.at);
      StepKeepsTableInv(t, e);
      if id in t1 {
        var h1 := AfterEvent(h, e, id);
        RowTraceFirst(h, e, rest, id);
        assert trace == [e] + rest;
        RowsEvolveIndependently(t1, rest, id, h1);
        EndedLater(h, trace, id);
      } else {
        assert RowTrace(trace[..0], id) == [];
        StaysGone(t1, rest, id);
      }
    }
  }

  lemma EndedLater(h: History, trace: seq<TableEvent>, id: int)
    requires trace != []
    ensures EndedBy(AfterEvent(h, trace[0], id), trace[1..], id) ==> EndedBy(h, trace, id)
  {
    var e, rest := trace[0], trace[1..];
    var h1 := AfterEvent(h, e, id);
    if EndedBy(h1, rest, id) {
      var k :| 0 <= k <= |rest| && !Play(h1, RowTrace(rest[..k], id)).run.status.Active();
      RowTraceFirst(h, e, rest[..k], id);
      assert trace[..k + 1] == [e] + rest[..k];
    }
  }

  ghost predicate EndedBy(h: History, trace: seq<TableEvent>, id: int) {
    exists k :: 0 <= k <= |trace| && !Play(h, RowTrace(trace[..k], id)).run.status.Active()
  }

  lemma {:induction false} StaysGone(t: Table, trace: seq<TableEvent>, id: int)
    requires id !in t && NeverInserts(trace, id)
    ensures id !in TablePlay(t, trace)
    decreases |trace|
  {
    if trace != [] {
      assert trace[0] in trace && forall x :: x in trace[1..] ==> x in trace;
      StaysGone(TableApply(t, trace[0].op, trace[0].at), trace[1..], id);
    }
  }

  /** One clock for the whole table, starting no earlier than `from`. */
  predicate TableTimed(trace: seq<TableEvent>, from: Time) {
    trace == [] || (from <= trace[0].at && TableTimed(trace[1..], trace[0].at))
  }

  lemma TimedEarlier(trace: seq<Event>, later: Time, earlier: Time)
    requires Timed(trace, later) && earlier <= later
    ensures Timed(trace, earlier)
  {
  }

  /** The clock of the table is the clock of each row. */
  lemma {:induction false} RowTraceTimed(trace: seq<TableEvent>, from: Time, id: int)
    requires TableTimed(trace, from)
    ensures Timed(RowTrace(trace, id), from)
    decreases |trace|
  {
    if trace != [] {
      RowTraceTimed(trace[1..], trace[0].at, id);
      TimedEarlier(RowTrace(trace[1..], id), trace[0].at, from);
      var own, rest := RowTrace(trace, id), RowTrace(trace[1..], id);
      if |own| == |rest| + 1 {
        assert own[1..] == rest;
      }
    }
  }

  /** What a history that began fresh guarantees: separated leases, one accepted result
      from the latest of them, bounded life. */
  ghost predicate WellLived(h: History, maxAttempts: int) {
    && LeasesSeparated(h.grants) && AtMostOneValid(h.grants) && AcceptedOnce(h)
    && h.changes <= 2 * maxAttempts && h.run.attemptCount <= maxAttempts
    && (h.run.finishedAt.Some? <==> !h.run.status.Active())
    && (h.run.status == Queued ==> h.run.cancelRequestedAt == None)
  }

  /** In every run of the whole table under one clock, the history of every row that starts
      fresh is safe and bounded, and the row in the table is where that history ends. */
  lemma EveryRowIsSafe(t: Table, trace: seq<TableEvent>, from: Time, id: int)
    requires id in t && Fresh(t[id]) && NeverInserts(trace, id)
    requires TableInv(t) && InsertsFresh(trace) && TableTimed(trace, from)
    ensures var h := Play(Start(t[id]), RowTrace(trace, id));
            && WellLived(h, t[id].maxAttempts)
            && (id in TablePlay(t, trace) ==> TablePlay(t, trace)[id] == h.run)
            && (id !in TablePlay(t, trace) ==> EndedBy(Start(t[id]), trace, id))
  {
    RowTraceTimed(trace, from, id);
    LeaseSafety(t[id], RowTrace(trace, id), from);
    BoundedLife(t[id], RowTrace(trace, id), from);
    RowsEvolveIndependently(t, trace, id, Start(t[id]));
  }

  lemma {:induction false} PlayInTwo(t: Table, trace: seq<TableEvent>, k: nat)
    requires k <= |trace|
    ensures TablePlay(t, trace) == TablePlay(TablePlay(t, trace[..k]), trace[k..])
    decreases k
  {
    if k == 0 {
      assert trace[0..] == trace && trace[..0] == [];
    } else {
      PlayInTwo(TableApply(t, trace[0].op, trace[0].at), trace[1..], k - 1);
      assert trace[..k][1..] == trace[1..][..k - 1] && trace[1..][k - 1..] == trace[k..];
    }
  }

  lemma {:induction false} TimedFrom(trace: seq<TableEvent>, from: Time, k: nat) returns (later: Time)
    requires TableTimed(trace, from) && k <= |trace|
    ensures from <= later && TableTimed(trace[k..], later)
    decreases k
  {
    if k == 0 {
      assert trace[0..] == trace;
      later := from;
    } else {
      later := TimedFrom(trace[1..], trace[0].at, k - 1);
      assert trace[1..][k - 1..] == trace[k..];
    }
  }

  /** The same for a run inserted in the middle: its history starts at its insertion. */
  lemma EveryInsertedRowIsSafe(t: Table, trace: seq<TableEvent>, from: Time, k: nat)
    requires TableInv(t) && InsertsFresh(trace) && TableTimed(trace, from)
    requires k < |trace| && trace[k].op.Insert? && trace[k].op.id !in TablePlay(t, trace[..k])
    requires NeverInserts(trace[k + 1..], trace[k].op.id)
    ensures var id, run, rest := trace[k].op.id, trace[k].op.run, trace[k + 1..];
            var h := Play(Start(run), RowTrace(rest, id));
            && WellLived(h, run.maxAttempts)
            && (id in TablePlay(t, trace) ==> TablePlay(t, trace)[id] == h.run)
            && (id !in TablePlay(t, trace) ==> EndedBy(Start(run), rest, id))
  {
    var id, run, rest := trace[k].op.id, trace[k].op.run, trace[k + 1..];
    var before := TablePlay(t, trace[..k]);
    assert trace[k] in trace && forall e :: e in rest || e in trace[..k] ==> e in trace;
    RetentionSparesActiveRuns(t, trace[..k], from);
    StepKeepsTableInv(before, trace[k]);
    var after := TableApply(before, trace[k].op, trace[k].at);
    PlayInTwo(t, trace, k);
    assert trace[k..][1..] == rest;
    var later := TimedFrom(trace, from, k + 1);
    EveryRowIsSafe(after, rest, later, id);
  }
}
