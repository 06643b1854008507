/** Login sessions: at most a given number per user, the oldest evicted first.

    SessionTable.Create is one call run alone. The second half interleaves the statements
    of any number of concurrent calls, which only the per-user advisory lock orders, with
    the unlocked deletes (logout, revocation, expiry). What an open transaction deletes or
    inserts is invisible to the others until it commits, and another delete that meets a
    row it has deleted waits. created_at is the start of the transaction, before the wait
    for the lock.
  */
module Sessions {
  import opened Common
  import opened QueryOrder

  datatype Session = Session(user: int, token: string, expiresAt: Time, createdAt: Time)

  type Table = map<int, Session>

  datatype Refusal = LimitOutOfRange | TokenTaken

  function RowsOf(t: Table, user: int): set<int> {
    set id | id in t && t[id].user == user
  }

  function LiveOf(t: Table, user: int, now: Time): set<int> {
    set id | id in t && t[id].user == user && t[id].expiresAt > now
  }

  function ExpiredOf(t: Table, user: int, now: Time): set<int> {
    set id | id in t && t[id].user == user && t[id].expiresAt <= now
  }

  function AgeKey(t: Table): int -> SortKey {
    id => SortKey(if id in t then t[id].createdAt else 0, 0, id)
  }

  predicate Older(t: Table, i: int, j: int) {
    Precedes(AgeKey(t)(i), AgeKey(t)(j))
  }

  /** `chosen` is ORDER BY created_at, id LIMIT count over `ids`. */
  predicate Oldest(t: Table, ids: set<int>, chosen: set<int>, count: nat) {
    && chosen <= ids && |chosen| == Min(count, |ids|)
    && forall i, j :: i in chosen && j in ids - chosen ==> Older(t, i, j)
  }

  method SelectOldest(t: Table, ids: set<int>, count: nat) returns (chosen: set<int>)
    ensures Oldest(t, ids, chosen, count)
  {
    chosen := {};
    while |chosen| < count && ids - chosen != {}
      invariant chosen <= ids && |chosen| <= count
      invariant forall i, j :: i in chosen && j in ids - chosen ==> Older(t, i, j)
      decreases ids - chosen
    {
      var next := PickFirst(ids - chosen, AgeKey(t));
      chosen := chosen + {next};
    }
    SubsetSize(chosen, ids);
    assert ids - chosen == {} ==> ids == chosen;
  }

  lemma OldestTakesOlder(t: Table, ids: set<int>, a: set<int>, b: set<int>, m: nat, n: nat, i: int, j: int)
    requires Oldest(t, ids, a, m) && Oldest(t, ids, b, n)
    requires i in a && j in b && j !in a
    ensures i in b
  {
    assert j in ids - a;
    assert i in ids - b ==> Older(t, j, i);
  }

  /** The order decides which rows are oldest. */
  lemma OldestIsUnique(t: Table, ids: set<int>, a: set<int>, b: set<int>, count: nat)
    requires Oldest(t, ids, a, count) && Oldest(t, ids, b, count)
    ensures a == b
  {
    SomeMember(b - a);
    if b - a == {} {
      assert b == b - (b - a) && b <= a;
      SubsetSize(b, a);
      assert a - b == {};
    } else {
      var j :| j in b - a;
      forall i | i in a ensures i in b {
        OldestTakesOlder(t, ids, a, b, count, count, i, j);
      }
      SubsetSize(a, b);
    }
  }

  predicate WithinRange(limit: int) {
    1 <= limit <= 100
  }

  predicate TokensDistinct(t: Table) {
    forall i, j :: i in t && j in t && t[i].token == t[j].token ==> i == j
  }

  /** Exactly the user's expired rows and, if there is no room, its oldest live rows are gone. */
  predicate MadeRoom(t: Table, t': Table, user: int, limit: int, now: Time) {
    var kept, live := RowsOf(t', user), LiveOf(t, user, now);
    && (forall id :: id in t' ==> id in t && t'[id] == t[id])
    && (forall id :: id in t && t[id].user != user ==> id in t')
    && kept <= live && |kept| == Min(|live|, limit - 1)
    && (forall i, j :: i in live - kept && j in kept ==> Older(t, i, j))
  }

  /** No expired row of the user is left, and of its live rows those that went were created
      before those that stayed, by id where the times are equal. */
  predicate OldestWent(t: Table, t': Table, user: int, now: Time) {
    && (forall id :: id in t' && t'[id].user == user ==> t'[id].expiresAt > now)
    && (forall i, j :: i in t && i !in t' && t[i].expiresAt > now && j in t' && t'[j].user == user ==>
          t[i].createdAt < t'[j].createdAt || (t[i].createdAt == t'[j].createdAt && i < j))
  }

  lemma RoomMeansOldestWent(t: Table, t': Table, user: int, limit: int, now: Time)
    requires MadeRoom(t, t', user, limit, now)
    ensures OldestWent(t, t', user, now)
  {
    var kept, live := RowsOf(t', user), LiveOf(t, user, now);
    forall id | id in t' && t'[id].user == user ensures id in kept && id in live && t'[id] == t[id] {
    }
    forall i, j | i in t && i !in t' && t[i].expiresAt > now && j in t' && t'[j].user == user ensures Older(t, i, j) {
      assert i in live - kept && j in kept;
    }
  }

  lemma RoomMade(t: Table, user: int, limit: int, now: Time, oldest: set<int>)
    requires WithinRange(limit)
    requires var live := LiveOf(t, user, now);
             if |live| < limit then oldest == {}
             else Oldest(t - ExpiredOf(t, user, now), live, oldest, |live| - limit + 1)
    ensures MadeRoom(t, t - ExpiredOf(t, user, now) - oldest, user, limit, now)
  {
    var pruned, live := t - ExpiredOf(t, user, now), LiveOf(t, user, now);
    var kept := RowsOf(pruned - oldest, user);
    forall id ensures id in kept <==> id in live - oldest {
    }
    assert kept == live - oldest;
    SubsetSize(oldest, live);
    forall i, j | i in live - kept && j in kept ensures Older(t, i, j) {
      assert Older(pruned, i, j);
    }
  }

  class SessionTable {
    var rows: Table
    var nextId: int

    ghost predicate Valid()
      reads this
    {
      TokensDistinct(rows) && forall id :: id in rows ==> id < nextId
    }

    constructor ()
      ensures Valid() && rows == map[]
    {
      rows := map[];
      nextId := 1;
    }

    /** Expired rows of the user go, then the oldest live ones until there is room. */
    method MakeRoom(user: int, limit: int, now: Time)
      requires Valid() && WithinRange(limit)
      modifies this`rows
      ensures Valid() && MadeRoom(old(rows), rows, user, limit, now)
    {
      ghost var before := rows;
      var expired := ExpiredOf(rows, user, now);
      rows := rows - expired;
      var live := LiveOf(rows, user, now);
      forall id ensures id in live <==> id in LiveOf(before, user, now) {
      }
      assert live == LiveOf(before, user, now);
      var evictions := Max(|live| - limit + 1, 0);
      var oldest := {};
      if evictions > 0 {
        oldest := SelectOldest(rows, live, evictions);
        rows := rows - oldest;
      }
      RoomMade(before, user, limit, now, oldest);
      assert rows == before - ExpiredOf(before, user, now) - oldest;
    }

    /** `room` is the table once room is made; the token must be new to what is left of it. */
    method Create(session: Session, limit: int, now: Time) returns (created: Result<int, Refusal>, ghost room: Table)
      requires Valid()
      modifies this
      ensures Valid()
      ensures !WithinRange(limit) <==> created == Err(LimitOutOfRange)
      ensures created.Err? ==> rows == old(rows)
      ensures WithinRange(limit) ==> MadeRoom(old(rows), room, session.user, limit, now)
      ensures created == Err(TokenTaken) <==>
                WithinRange(limit) && exists id :: id in room && room[id].token == session.token
      ensures created.Ok? ==>
                && created.value !in old(rows) && rows == room[created.value := session]
                && |RowsOf(rows, session.user)| <= limit
      ensures WithinRange(limit) ==> OldestWent(old(rows), room, session.user, now)
    {
      if !(1 <= limit <= 100) {
        return Err(LimitOutOfRange), rows;
      }
      var before := rows;
      MakeRoom(session.user, limit, now);
      room := rows;
      RoomMeansOldestWent(before, room, session.user, limit, now);
      if exists id :: id in rows && rows[id].token == session.token {
        rows := before;
        return Err(TokenTaken), room;
      }
      ghost var kept := RowsOf(rows, session.user);
      rows := rows[nextId := session];
      assert RowsOf(rows, session.user) == kept + {nextId};
      assert forall id :: id in room ==> id < nextId;
      created := Ok(nextId);
      nextId := nextId + 1;
    }
  }

  // ---------------------------------------------------------------- interleaved calls

  datatype Phase =
    | Locked
    | Pruned(now: Time)
    | Counted(now: Time, evictions: nat)
    | Selected(now: Time, oldest: set<int>)
    | Evicted(now: Time)
    | Inserted(now: Time, id: int)

  datatype Login = Login(session: Session, limit: int, phase: Phase, removed: set<int>)

  /** `limits` remembers the limit of each user's latest committed creation. */
  datatype State = State(
    rows: Table,
    locks: map<int, int>,
    open: map<int, Login>,
    nextId: int,
    limits: map<int, int>)

  datatype Step =
    | Lock(tx: int, session: Session, limit: int)
    | Prune(tx: int, now: Time)
    | Count(tx: int)
    | Select(tx: int, oldest: set<int>)
    | Evict(tx: int)
    | Insert(tx: int)
    | Commit(tx: int)
    | Rollback(tx: int)
    | DeleteByToken(token: string)
    | DeleteByUser(user: int)
    | DeleteExpired(now: Time)

  /** The table as the transaction sees it, its own deletions applied. */
  function View(s: State, c: Login): Table {
    s.rows - c.removed
  }

  function Advance(s: State, tx: int, phase: Phase, removed: set<int>): State
    requires tx in s.open
  {
    s.(open := s.open[tx := s.open[tx].(phase := phase, removed := s.open[tx].removed + removed)])
  }

  function Close(s: State, tx: int): State
    requires tx in s.open
  {
    s.(open := s.open - {tx}, locks := s.locks - {s.open[tx].session.user})
  }

  /** An unlocked delete; it waits while an open transaction has deleted one of its rows. */
  function Delete(s: State, ids: set<int>): State {
    if exists tx :: tx in s.open && !(s.open[tx].removed !! ids) then s
    else s.(rows := s.rows - ids)
  }

  /** One statement; a statement that is not the transaction's next, or that must wait,
      leaves the state as it is. */
  function Next(s: State, step: Step): State {
    match step
    case Lock(tx, session, limit) =>
      if WithinRange(limit) && tx !in s.open && session.user !in s.locks
      then s.(locks := s.locks[session.user := tx],
              open := s.open[tx := Login(session, limit, Locked, {})])
      else s
    case Prune(tx, now) =>
      if tx in s.open && s.open[tx].phase == Locked
      then Advance(s, tx, Pruned(now), ExpiredOf(s.rows, s.open[tx].session.user, now))
      else s
    case Count(tx) =>
      if tx in s.open && s.open[tx].phase.Pruned? then
        var c := s.open[tx];
        var live := LiveOf(View(s, c), c.session.user, c.phase.now);
        var evictions := Max(|live| - c.limit + 1, 0);
        Advance(s, tx, if evictions > 0 then Counted(c.phase.now, evictions) else Evicted(c.phase.now), {})
      else s
    case Select(tx, oldest) =>
      if tx in s.open && s.open[tx].phase.Counted? then
        var c := s.open[tx];
        if Oldest(View(s, c), LiveOf(View(s, c), c.session.user, c.phase.now), oldest, c.phase.evictions)
        then Advance(s, tx, Selected(c.phase.now, oldest), {})
        else s
      else s
    case Evict(tx) =>
      if tx in s.open && s.open[tx].phase.Selected? then
        var c := s.open[tx];
        Advance(s, tx, Evicted(c.phase.now), c.phase.oldest * RowsOf(View(s, c), c.session.user))
      else s
    case Insert(tx) =>
      if tx in s.open && s.open[tx].phase.Evicted?
      then Advance(s, tx, Inserted(s.open[tx].phase.now, s.nextId), {}).(nextId := s.nextId + 1)
      else s
    case Commit(tx) =>
      if tx in s.open && s.open[tx].phase.Inserted? then
        var c := s.open[tx];
        Close(s, tx).(rows := View(s, c)[c.phase.id := c.session], limits := s.limits[c.session.user := c.limit])
      else s
    case Rollback(tx) => if tx in s.open then Close(s, tx) else s
    case DeleteByToken(token) => Delete(s, set id | id in s.rows && s.rows[id].token == token)
    case DeleteByUser(user) => Delete(s, RowsOf(s.rows, user))
    case DeleteExpired(now) => Delete(s, set id | id in s.rows && s.rows[id].expiresAt <= now)
  }

  function Execute(s: State, steps: seq<Step>): State
    decreases |steps|
  {
    if steps == [] then s else Execute(Next(s, steps[0]), steps[1..])
  }

  // ---------------------------------------------------------------- the invariant

  /** The user's rows that the transaction still sees. */
  function Held(s: State, c: Login): set<int> {
    RowsOf(s.rows, c.session.user) - c.removed
  }

  /** Deleted so far: the user's own rows, expired or older than every row kept. */
  predicate RemovedOk(s: State, c: Login, now: Time) {
    && c.removed <= RowsOf(s.rows, c.session.user)
    && forall i, j :: i in c.removed && j in Held(s, c) ==> s.rows[i].expiresAt <= now || Older(s.rows, i, j)
  }

  predicate AllLive(s: State, c: Login, now: Time) {
    forall id :: id in Held(s, c) ==> s.rows[id].expiresAt > now
  }

  /** Without the selected rows there is room, and those still there are the oldest. */
  predicate SelectedOk(s: State, c: Login, oldest: set<int>) {
    && |Held(s, c) - oldest| <= c.limit - 1
    && forall i, j :: i in Held(s, c) * oldest && j in Held(s, c) - oldest ==> Older(s.rows, i, j)
  }

  /** The new id is above every id of the user. */
  predicate IdOk(s: State, c: Login, id: int) {
    id < s.nextId && id !in s.rows && forall j :: j in RowsOf(s.rows, c.session.user) ==> j < id
  }

  predicate PhaseOk(s: State, c: Login) {
    match c.phase
    case Locked => c.removed == {}
    case Pruned(now) => RemovedOk(s, c, now) && AllLive(s, c, now)
    case Counted(now, evictions) =>
      RemovedOk(s, c, now) && AllLive(s, c, now) && |Held(s, c)| <= evictions + c.limit - 1
    case Selected(now, oldest) => RemovedOk(s, c, now) && SelectedOk(s, c, oldest)
    case Evicted(now) => RemovedOk(s, c, now) && |Held(s, c)| <= c.limit - 1
    case Inserted(now, id) => RemovedOk(s, c, now) && |Held(s, c)| <= c.limit - 1 && IdOk(s, c, id)
  }

  predicate LoginOk(s: State, tx: int)
    requires tx in s.open
  {
    var c := s.open[tx];
    && WithinRange(c.limit)
    && c.session.user in s.locks && s.locks[c.session.user] == tx
    && PhaseOk(s, c)
  }

  function LimitOf(s: State, user: int): int {
    if user in s.limits then s.limits[user] else 0
  }

  ghost predicate Bounded(s: State) {
    forall user :: |RowsOf(s.rows, user)| <= LimitOf(s, user) <= 100
  }

  predicate DistinctIds(s: State) {
    && (forall id :: id in s.rows ==> id < s.nextId)
    && (forall tx, ty :: tx in s.open && ty in s.open && tx != ty
                         && s.open[tx].phase.Inserted? && s.open[ty].phase.Inserted?
          ==> s.open[tx].phase.id != s.open[ty].phase.id)
  }

  ghost predicate Inv(s: State) {
    && Bounded(s)
    && DistinctIds(s)
    && forall tx :: tx in s.open ==> LoginOk(s, tx)
  }

  lemma ViewShowsHeld(s: State, c: Login)
    ensures RowsOf(View(s, c), c.session.user) == Held(s, c)
  {
    forall id ensures id in RowsOf(View(s, c), c.session.user) <==> id in Held(s, c) {
    }
  }

  /** Seen from a transaction: rows of its user may vanish, but none it has deleted itself,
      and none is added or changed. */
  predicate OnlyLoses(s: State, s': State, c: Login) {
    var mine, mine' := RowsOf(s.rows, c.session.user), RowsOf(s'.rows, c.session.user);
    && mine' <= mine && c.removed * mine <= mine'
    && (forall id :: id in mine' ==> s'.rows[id] == s.rows[id])
    && s.nextId <= s'.nextId && (c.phase.Inserted? ==> c.phase.id !in s'.rows)
  }

  lemma LosingKeepsOrder(s: State, s': State, c: Login, i: int, j: int)
    requires OnlyLoses(s, s', c) && i in RowsOf(s'.rows, c.session.user) && j in RowsOf(s'.rows, c.session.user)
    ensures Older(s.rows, i, j) <==> Older(s'.rows, i, j)
  {
  }

  lemma LosingKeepsRemoved(s: State, s': State, c: Login, now: Time)
    requires RemovedOk(s, c, now) && OnlyLoses(s, s', c)
    ensures RemovedOk(s', c, now)
  {
    forall i, j | i in c.removed && j in Held(s', c) ensures s'.rows[i].expiresAt <= now || Older(s'.rows, i, j) {
      assert j in Held(s, c);
      LosingKeepsOrder(s, s', c, i, j);
    }
  }

  lemma LosingKeepsSelected(s: State, s': State, c: Login, oldest: set<int>)
    requires SelectedOk(s, c, oldest) && OnlyLoses(s, s', c)
    ensures SelectedOk(s', c, oldest)
  {
    SubsetSize(Held(s', c) - oldest, Held(s, c) - oldest);
    forall i, j | i in Held(s', c) * oldest && j in Held(s', c) - oldest ensures Older(s'.rows, i, j) {
      assert i in Held(s, c) * oldest && j in Held(s, c) - oldest;
      LosingKeepsOrder(s, s', c, i, j);
    }
  }

  lemma LosingKeepsId(s: State, s': State, c: Login, id: int)
    requires IdOk(s, c, id) && OnlyLoses(s, s', c) && id !in s'.rows
    ensures IdOk(s', c, id)
  {
    forall j | j in RowsOf(s'.rows, c.session.user) ensures j < id {
      assert j in RowsOf(s.rows, c.session.user);
    }
  }

  lemma LosingKeepsPhase(s: State, s': State, c: Login)
    requires PhaseOk(s, c) && OnlyLoses(s, s', c)
    ensures PhaseOk(s', c)
  {
    SubsetSize(Held(s', c), Held(s, c));
    if !c.phase.Locked? {
      LosingKeepsRemoved(s, s', c, c.phase.now);
      assert AllLive(s, c, c.phase.now) ==> AllLive(s', c, c.phase.now);
    }
    if c.phase.Selected? {
      LosingKeepsSelected(s, s', c, c.phase.oldest);
    }
    if c.phase.Inserted? {
      LosingKeepsId(s, s', c, c.phase.id);
    }
  }

  lemma OthersKeepLogin(s: State, s': State, tx: int)
    requires tx in s.open && LoginOk(s, tx) && tx in s'.open && s'.open[tx] == s.open[tx]
    requires s.open[tx].session.user in s'.locks && s'.locks[s.open[tx].session.user] == tx
    requires OnlyLoses(s, s', s.open[tx])
    ensures LoginOk(s', tx)
  {
    LosingKeepsPhase(s, s', s.open[tx]);
  }

  lemma DeleteKeepsInv(s: State, ids: set<int>)
    requires Inv(s)
    ensures Inv(Delete(s, ids))
  {
    var s' := Delete(s, ids);
    if s' != s {
      forall user ensures |RowsOf(s'.rows, user)| <= LimitOf(s', user) <= 100 {
        SubsetSize(RowsOf(s'.rows, user), RowsOf(s.rows, user));
      }
      forall tx | tx in s'.open ensures LoginOk(s', tx) {
        assert LoginOk(s, tx) && s.open[tx].removed !! ids;
        OthersKeepLogin(s, s', tx);
      }
    }
  }

  lemma LockKeepsInv(s: State, step: Step)
    requires Inv(s) && step.Lock?
    ensures Inv(Next(s, step))
  {
    var s' := Next(s, step);
    if s' != s {
      forall tx | tx in s.open ensures LoginOk(s', tx) {
        assert LoginOk(s, tx);
        OthersKeepLogin(s, s', tx);
      }
      assert LoginOk(s', step.tx) && Bounded(s') && DistinctIds(s');
    }
  }

  lemma CloseKeepsInv(s: State, tx: int)
    requires Inv(s) && tx in s.open
    ensures Inv(Close(s, tx))
  {
    var s' := Close(s, tx);
    assert LoginOk(s, tx) && Bounded(s');
    forall ty | ty in s'.open ensures LoginOk(s', ty) {
      assert LoginOk(s, ty);
      OthersKeepLogin(s, s', ty);
    }
  }

  /** A transaction's own statements keep the invariant if they establish its next phase. */
  lemma AdvanceKeepsInv(s: State, s': State, tx: int)
    requires Inv(s) && tx in s.open
    requires s'.rows == s.rows && s'.locks == s.locks && s'.limits == s.limits && s.nextId <= s'.nextId
    requires s'.open.Keys == s.open.Keys
    requires forall ty :: ty in s.open && ty != tx ==> s'.open[ty] == s.open[ty]
    requires s'.open[tx].session == s.open[tx].session && s'.open[tx].limit == s.open[tx].limit
    requires PhaseOk(s', s'.open[tx])
    requires s'.open[tx].phase.Inserted? ==> s'.open[tx].phase.id >= s.nextId
    ensures Inv(s')
  {
    assert Bounded(s');
    forall ty | ty in s'.open
      ensures LoginOk(s', ty)
      ensures ty != tx && s'.open[ty].phase.Inserted? ==> s'.open[ty].phase.id < s.nextId
    {
      assert LoginOk(s, ty);
      if ty != tx {
        OthersKeepLogin(s, s', ty);
      }
    }
  }

  lemma PruneKeepsInv(s: State, tx: int, now: Time)
    requires Inv(s)
    ensures Inv(Next(s, Prune(tx, now)))
  {
    var s' := Next(s, Prune(tx, now));
    if s' != s {
      assert LoginOk(s, tx);
      AdvanceKeepsInv(s, s', tx);
    }
  }

  lemma LiveAreAll(s: State, c: Login, now: Time)
    requires AllLive(s, c, now)
    ensures LiveOf(View(s, c), c.session.user, now) == Held(s, c)
  {
    forall id ensures id in LiveOf(View(s, c), c.session.user, now) <==> id in Held(s, c) {
      assert id in Held(s, c) ==> s.rows[id].expiresAt > now;
    }
  }

  lemma CountKeepsInv(s: State, tx: int)
    requires Inv(s)
    ensures Inv(Next(s, Count(tx)))
  {
    var s' := Next(s, Count(tx));
    if s' != s {
      assert LoginOk(s, tx);
      LiveAreAll(s, s.open[tx], s.open[tx].phase.now);
      assert s'.open[tx].removed == s.open[tx].removed;
      AdvanceKeepsInv(s, s', tx);
    }
  }

  lemma SelectKeepsInv(s: State, tx: int, oldest: set<int>)
    requires Inv(s)
    ensures Inv(Next(s, Select(tx, oldest)))
  {
    var s' := Next(s, Select(tx, oldest));
    if s' != s {
      assert LoginOk(s, tx);
      var c, c' := s.open[tx], s'.open[tx];
      LiveAreAll(s, c, c.phase.now);
      assert c'.removed == c.removed && Held(s', c') == Held(s, c);
      SelectedAreOldest(s, c, oldest);
      AdvanceKeepsInv(s, s', tx);
    }
  }

  lemma SelectedAreOldest(s: State, c: Login, oldest: set<int>)
    requires c.phase.Counted? && |Held(s, c)| <= c.phase.evictions + c.limit - 1 && c.limit >= 1
    requires Oldest(View(s, c), Held(s, c), oldest, c.phase.evictions)
    ensures SelectedOk(s, c, oldest)
  {
    SubsetSize(oldest, Held(s, c));
    forall i, j | i in Held(s, c) * oldest && j in Held(s, c) - oldest ensures Older(s.rows, i, j) {
      assert Older(View(s, c), i, j);
    }
  }

  lemma EvictKeepsInv(s: State, tx: int)
    requires Inv(s)
    ensures Inv(Next(s, Evict(tx)))
  {
    var s' := Next(s, Evict(tx));
    if s' != s {
      assert LoginOk(s, tx);
      var c, c' := s.open[tx], s'.open[tx];
      ViewShowsHeld(s, c);
      assert Held(s', c') == Held(s, c) - c.phase.oldest;
      assert RemovedOk(s', c', c.phase.now);
      AdvanceKeepsInv(s, s', tx);
    }
  }

  lemma InsertKeepsInv(s: State, tx: int)
    requires Inv(s)
    ensures Inv(Next(s, Insert(tx)))
  {
    var s' := Next(s, Insert(tx));
    if s' != s {
      assert LoginOk(s, tx);
      assert s'.open[tx].removed == s.open[tx].removed;
      assert RemovedOk(s', s'.open[tx], s.open[tx].phase.now) && IdOk(s', s'.open[tx], s.nextId);
      AdvanceKeepsInv(s, s', tx);
    }
  }

  /** What one committed creation does to the table, from any reachable state. */
  lemma CommitEvictsOldest(s: State, tx: int)
    requires Inv(s) && tx in s.open && s.open[tx].phase.Inserted?
    ensures var c, rows' := s.open[tx], Next(s, Commit(tx)).rows;
            var user, id := c.session.user, c.phase.id;
            && id !in s.rows && id in rows' && rows'[id] == c.session
            && |RowsOf(rows', user)| <= c.limit
            && (forall i :: i in s.rows && i !in rows' ==> s.rows[i].user == user)
            && (forall i :: i in rows' && i != id ==> i in s.rows && rows'[i] == s.rows[i])
            && (forall i, j :: i in RowsOf(s.rows, user) && i !in rows' && j in RowsOf(rows', user) && j != id
                  ==> s.rows[i].expiresAt <= c.phase.now || Older(s.rows, i, j))
  {
    assert LoginOk(s, tx);
    var c := s.open[tx];
    var rows' := Next(s, Commit(tx)).rows;
    ViewShowsHeld(s, c);
    assert RowsOf(rows', c.session.user) == Held(s, c) + {c.phase.id};
  }

  /** Another user's commit leaves a login's rows as they are. */
  lemma CommitSparesOthers(s: State, tx: int, other: int)
    requires Inv(s) && tx in s.open && s.open[tx].phase.Inserted? && other in s.open && other != tx
    ensures s.open[other].session.user != s.open[tx].session.user
    ensures OnlyLoses(s, Next(s, Commit(tx)), s.open[other])
  {
    assert LoginOk(s, tx) && LoginOk(s, other);
    CommitEvictsOldest(s, tx);
  }

  lemma CommitKeepsBounds(s: State, tx: int)
    requires Inv(s) && tx in s.open && s.open[tx].phase.Inserted?
    ensures Bounded(Next(s, Commit(tx))) && DistinctIds(Next(s, Commit(tx)))
  {
    assert LoginOk(s, tx);
    CommitEvictsOldest(s, tx);
    var s', c := Next(s, Commit(tx)), s.open[tx];
    forall user ensures |RowsOf(s'.rows, user)| <= LimitOf(s', user) <= 100 {
      assert |RowsOf(s.rows, user)| <= LimitOf(s, user) <= 100;
      if user != c.session.user {
        SubsetSize(RowsOf(s'.rows, user), RowsOf(s.rows, user));
      }
    }
  }

  lemma CommitKeepsInv(s: State, tx: int)
    requires Inv(s)
    ensures Inv(Next(s, Commit(tx)))
  {
    var s' := Next(s, Commit(tx));
    if tx in s.open && s.open[tx].phase.Inserted? {
      CommitKeepsBounds(s, tx);
      assert LoginOk(s, tx);
      forall other | other in s'.open ensures LoginOk(s', other) {
        CommitSparesOthers(s, tx, other);
        assert LoginOk(s, other);
        OthersKeepLogin(s, s', other);
      }
    }
  }

  lemma StepKeepsInv(s: State, step: Step)
    requires Inv(s)
    ensures Inv(Next(s, step))
  {
    match step
    case Lock(_, _, _) => LockKeepsInv(s, step);
    case Prune(tx, now) => PruneKeepsInv(s, tx, now);
    case Count(tx) => CountKeepsInv(s, tx);
    case Select(tx, oldest) => SelectKeepsInv(s, tx, oldest);
    case Evict(tx) => EvictKeepsInv(s, tx);
    case Insert(tx) => InsertKeepsInv(s, tx);
    case Commit(tx) => CommitKeepsInv(s, tx);
    case Rollback(tx) => if tx in s.open { CloseKeepsInv(s, tx); }
    case DeleteByToken(token) => DeleteKeepsInv(s, set id | id in s.rows && s.rows[id].token == token);
    case DeleteByUser(user) => DeleteKeepsInv(s, RowsOf(s.rows, user));
    case DeleteExpired(now) => DeleteKeepsInv(s, set id | id in s.rows && s.rows[id].expiresAt <= now);
  }

  predicate Initial(s: State) {
    s.rows == map[] && s.open == map[] && s.locks == map[] && s.limits == map[]
  }

  lemma InitialInv(s: State)
    requires Initial(s)
    ensures Inv(s)
  {
    forall user ensures |RowsOf(s.rows, user)| == 0 {
      assert RowsOf(s.rows, user) == {};
    }
  }

  /** In every interleaving, at every moment, each user has at most as many sessions as the
      limit of that user's latest committed login allowed, even one just lowered. */
  lemma {:induction false} SessionsStayBounded(s: State, steps: seq<Step>)
    requires Initial(s) || Inv(s)
    ensures Inv(Execute(s, steps))
    ensures Bounded(Execute(s, steps))
    decreases |steps|
  {
    if Initial(s) {
      InitialInv(s);
    }
    if steps != [] {
      StepKeepsInv(s, steps[0]);
      SessionsStayBounded(Next(s, steps[0]), steps[1..]);
    }
  }

  // ---------------------------------------------------------------- is the new session the newest?

  /** Every row of the user, kept or evicted, precedes the session about to be committed. */
  predicate Newest(s: State, c: Login)
    requires c.phase.Inserted?
  {
    forall i :: i in RowsOf(s.rows, c.session.user) ==> Older(s.rows[c.phase.id := c.session], i, c.phase.id)
  }

  /** No row of the user was created by a transaction that started later. */
  predicate StartedLast(s: State, session: Session) {
    forall i :: i in RowsOf(s.rows, session.user) ==> s.rows[i].createdAt <= session.createdAt
  }

  /** The new session is the newest exactly when no earlier row started later: equal start
      times are decided by the id, which is drawn under the lock. */
  lemma NewestExactly(s: State, tx: int)
    requires Inv(s) && tx in s.open && s.open[tx].phase.Inserted?
    ensures Newest(s, s.open[tx]) <==> StartedLast(s, s.open[tx].session)
  {
    assert LoginOk(s, tx);
    var c := s.open[tx];
    var all := s.rows[c.phase.id := c.session];
    forall i | i in RowsOf(s.rows, c.session.user)
      ensures Older(all, i, c.phase.id) <==> s.rows[i].createdAt <= c.session.createdAt
    {
      assert i < c.phase.id && all[i] == s.rows[i];
    }
  }

  predicate EndsLogin(step: Step, tx: int) {
    (step.Commit? || step.Rollback?) && step.tx == tx
  }

  lemma SessionStays(s: State, step: Step, tx: int)
    requires tx in s.open && !EndsLogin(step, tx)
    ensures tx in Next(s, step).open && Next(s, step).open[tx].session == s.open[tx].session
  {
    match step
    case DeleteByToken(token) => DeleteLeavesLogins(s, set id | id in s.rows && s.rows[id].token == token);
    case DeleteByUser(user) => DeleteLeavesLogins(s, RowsOf(s.rows, user));
    case DeleteExpired(now) => DeleteLeavesLogins(s, set id | id in s.rows && s.rows[id].expiresAt <= now);
    case Lock(_, _, _) =>
    case Commit(_) =>
    case Rollback(_) =>
    case _ => OwnStepKeepsSession(s, step, tx);
  }

  lemma OwnStepKeepsSession(s: State, step: Step, tx: int)
    requires tx in s.open && (step.Prune? || step.Count? || step.Select? || step.Evict? || step.Insert?)
    ensures tx in Next(s, step).open && Next(s, step).open[tx].session == s.open[tx].session
  {
    if step.tx != tx {
      assert tx in Next(s, step).open && Next(s, step).open[tx] == s.open[tx];
    }
  }

  lemma DeleteLeavesLogins(s: State, ids: set<int>)
    ensures Delete(s, ids).open == s.open
  {
  }

  lemma OnlyCommitsAdd(s: State, step: Step)
    requires !step.Commit?
    ensures forall i :: i in Next(s, step).rows ==> i in s.rows && Next(s, step).rows[i] == s.rows[i]
  {
  }

  /** While its transaction holds the lock no row of the user is added. */
  lemma LockHoldsRows(s: State, step: Step, tx: int)
    requires Inv(s) && tx in s.open && !EndsLogin(step, tx)
    ensures forall i :: i in RowsOf(Next(s, step).rows, s.open[tx].session.user) ==>
              i in RowsOf(s.rows, s.open[tx].session.user) && Next(s, step).rows[i] == s.rows[i]
  {
    if !step.Commit? {
      OnlyCommitsAdd(s, step);
    } else if step.tx in s.open && s.open[step.tx].phase.Inserted? {
      CommitSparesOthers(s, step.tx, tx);
    }
  }

  /** What a login finds when it gets the lock decides: if no row of the user started later
      then, its session is the newest when it commits, whatever is interleaved. */
  lemma {:induction false} NewestIfStartedLast(s: State, steps: seq<Step>, tx: int)
    requires Inv(s) && tx in s.open && StartedLast(s, s.open[tx].session)
    requires forall i :: 0 <= i < |steps| ==> !EndsLogin(steps[i], tx)
    ensures var t := Execute(s, steps);
            && tx in t.open && t.open[tx].session == s.open[tx].session
            && (t.open[tx].phase.Inserted? ==> Newest(t, t.open[tx]))
    decreases |steps|
  {
    if steps == [] {
      if s.open[tx].phase.Inserted? {
        NewestExactly(s, tx);
      }
    } else {
      LockHoldsRows(s, steps[0], tx);
      SessionStays(s, steps[0], tx);
      StepKeepsInv(s, steps[0]);
      NewestIfStartedLast(Next(s, steps[0]), steps[1..], tx);
    }
  }

  const DEMO_EARLY: Session := Session(1, "early", 100, 5)
  const DEMO_LATE: Session := Session(1, "late", 100, 6)

  /** The login that began at 5 gets the lock after the one that began at 6 has committed. */
  const DEMO_STEPS: seq<Step> := [Lock(1, DEMO_EARLY, 1), Prune(1, 7), Count(1), Select(1, {1}), Evict(1), Insert(1)]

  function DemoState(k: nat): State
    requires k <= 6
  {
    var c := Login(DEMO_EARLY, 1, Locked, {});
    var open :=
      match k
      case 0 => map[]
      case 1 => map[1 := c]
      case 2 => map[1 := c.(phase := Pruned(7))]
      case 3 => map[1 := c.(phase := Counted(7, 1))]
      case 4 => map[1 := c.(phase := Selected(7, {1}))]
      case 5 => map[1 := c.(phase := Evicted(7), removed := {1})]
      case _ => map[1 := c.(phase := Inserted(7, 2), removed := {1})];
    State(map[1 := DEMO_LATE], if k == 0 then map[] else map[1 := 1], open, if k < 6 then 2 else 3, map[1 := 1])
  }

  lemma DemoInv()
    ensures Inv(DemoState(0))
  {
    var s := DemoState(0);
    forall user ensures |RowsOf(s.rows, user)| <= LimitOf(s, user) <= 100 {
      assert RowsOf(s.rows, user) == if user == 1 then {1} else {};
    }
  }

  lemma DemoStep(k: nat)
    requires k < 6
    ensures Next(DemoState(k), DEMO_STEPS[k]) == DemoState(k + 1)
  {
    var s := DemoState(k);
    assert ExpiredOf(s.rows, 1, 7) == {} && LiveOf(s.rows, 1, 7) == {1} && RowsOf(s.rows, 1) == {1};
    assert s.rows - {} == s.rows && {1} - {1} == {};
    var none: set<int> := {};
    assert none + none == none && none + {1} == {1} && {1} + none == {1} && {1} * {1} == {1};
    assert Next(s, DEMO_STEPS[k]).open == DemoState(k + 1).open;
  }

  lemma {:induction false} DemoRun(k: nat)
    requires k <= 6
    ensures Execute(DemoState(k), DEMO_STEPS[k..]) == DemoState(6)
    decreases 6 - k
  {
    if k < 6 {
      assert DEMO_STEPS[k..][1..] == DEMO_STEPS[k + 1..];
      DemoStep(k);
      DemoRun(k + 1);
    }
  }

  /** A login that waited for the lock evicts a session created after its own. */
  lemma WaitingLoginEvictsNewer()
    ensures Inv(DemoState(0))
    ensures var s := Execute(DemoState(0), DEMO_STEPS);
            var rows' := Next(s, Commit(1)).rows;
            && 1 in s.rows && 1 !in rows' && 2 in rows' && rows'[2] == DEMO_EARLY
            && DEMO_EARLY.createdAt < s.rows[1].createdAt
  {
    DemoInv();
    DemoRun(0);
    assert DEMO_STEPS[0..] == DEMO_STEPS;
  }

  // ---------------------------------------------------------------- a login run alone

  /** Older is: created earlier, or at the same time with the smaller id. */
  lemma OlderMeans(t: Table, i: int, j: int)
    requires i in t && j in t
    ensures Older(t, i, j) <==> t[i].createdAt < t[j].createdAt || (t[i].createdAt == t[j].createdAt && i < j)
  {
  }

  predicate CanStart(s: State, tx: int, session: Session) {
    tx !in s.open && session.user !in s.locks
  }

  function UnderWay(s: State, tx: int, c: Login): State {
    s.(locks := s.locks[c.session.user := tx], open := s.open[tx := c])
  }

  lemma AdvanceUnderWay(s: State, tx: int, c: Login, phase: Phase, removed: set<int>)
    ensures Advance(UnderWay(s, tx, c), tx, phase, removed)
         == UnderWay(s, tx, c.(phase := phase, removed := c.removed + removed))
  {
    var c' := c.(phase := phase, removed := c.removed + removed);
    assert s.open[tx := c][tx := c'] == s.open[tx := c'];
  }

  /** From the lock to the count: the user's expired rows are gone from the login's view. */
  lemma StartsAlone(s: State, tx: int, session: Session, limit: int, now: Time)
    requires CanStart(s, tx, session) && WithinRange(limit)
    ensures var expired, live := ExpiredOf(s.rows, session.user, now), LiveOf(s.rows, session.user, now);
            var phase := if |live| < limit then Evicted(now) else Counted(now, |live| - limit + 1);
            Next(Next(Next(s, Lock(tx, session, limit)), Prune(tx, now)), Count(tx))
            == UnderWay(s, tx, Login(session, limit, phase, expired))
  {
    var expired, live := ExpiredOf(s.rows, session.user, now), LiveOf(s.rows, session.user, now);
    var c := Login(session, limit, Locked, {});
    AdvanceUnderWay(s, tx, c, Pruned(now), expired);
    var none: set<int> := {};
    assert none + expired == expired && expired + none == expired;
    var pruned := Login(session, limit, Pruned(now), expired);
    assert Next(Next(s, Lock(tx, session, limit)), Prune(tx, now)) == UnderWay(s, tx, pruned);
    forall id ensures id in LiveOf(s.rows - expired, session.user, now) <==> id in live {
    }
    assert LiveOf(s.rows - expired, session.user, now) == live;
    AdvanceUnderWay(s, tx, pruned, if |live| < limit then Evicted(now) else Counted(now, |live| - limit + 1), {});
  }

  lemma EndsAlone(s: State, tx: int, c: Login)
    requires CanStart(s, tx, c.session) && c.phase.Evicted?
    ensures var t := Next(Next(UnderWay(s, tx, c), Insert(tx)), Commit(tx));
            t.rows == (s.rows - c.removed)[s.nextId := c.session] && t.open == s.open && t.locks == s.locks
  {
    AdvanceUnderWay(s, tx, c, Inserted(c.phase.now, s.nextId), {});
    var none: set<int> := {};
    assert c.removed + none == c.removed;
    var later := s.(nextId := s.nextId + 1);
    var inserted := c.(phase := Inserted(c.phase.now, s.nextId));
    assert Next(UnderWay(s, tx, c), Insert(tx)) == UnderWay(later, tx, inserted);
    assert UnderWay(later, tx, inserted).open - {tx} == s.open;
    assert UnderWay(later, tx, inserted).locks - {c.session.user} == s.locks;
  }

  /** With the user's lock free a login ends with its session stored and room made exactly
      as for a call run alone; with room to spare no live row goes. */
  lemma RoomyLoginAlone(s: State, tx: int, session: Session, limit: int, now: Time)
    requires CanStart(s, tx, session) && WithinRange(limit) && |LiveOf(s.rows, session.user, now)| < limit
    ensures var t := Next(Next(Next(Next(Next(s, Lock(tx, session, limit)), Prune(tx, now)), Count(tx)), Insert(tx)), Commit(tx));
            && t.rows == (s.rows - ExpiredOf(s.rows, session.user, now))[s.nextId := session]
            && MadeRoom(s.rows, s.rows - ExpiredOf(s.rows, session.user, now), session.user, limit, now)
  {
    StartsAlone(s, tx, session, limit, now);
    EndsAlone(s, tx, Login(session, limit, Evicted(now), ExpiredOf(s.rows, session.user, now)));
    RoomMade(s.rows, session.user, limit, now, {});
    var none: set<int> := {};
    assert s.rows - ExpiredOf(s.rows, session.user, now) - none == s.rows - ExpiredOf(s.rows, session.user, now);
  }

  lemma EvictsAlone(s: State, tx: int, session: Session, limit: int, now: Time, oldest: set<int>)
    requires CanStart(s, tx, session) && WithinRange(limit)
    requires var expired, live := ExpiredOf(s.rows, session.user, now), LiveOf(s.rows, session.user, now);
             |live| >= limit && Oldest(s.rows - expired, live, oldest, |live| - limit + 1)
    ensures var expired, live := ExpiredOf(s.rows, session.user, now), LiveOf(s.rows, session.user, now);
            Next(Next(UnderWay(s, tx, Login(session, limit, Counted(now, |live| - limit + 1), expired)), Select(tx, oldest)), Evict(tx))
            == UnderWay(s, tx, Login(session, limit, Evicted(now), expired + oldest))
  {
    var expired, live := ExpiredOf(s.rows, session.user, now), LiveOf(s.rows, session.user, now);
    var counted := Login(session, limit, Counted(now, |live| - limit + 1), expired);
    var selected := counted.(phase := Selected(now, oldest));
    forall id ensures id in LiveOf(s.rows - expired, session.user, now) <==> id in live {
    }
    assert LiveOf(s.rows - expired, session.user, now) == live;
    var none: set<int> := {};
    assert expired + none == expired;
    AdvanceUnderWay(s, tx, counted, selected.phase, {});
    forall id ensures id in RowsOf(s.rows - expired, session.user) <==> id in live {
    }
    assert oldest * RowsOf(s.rows - expired, session.user) == oldest;
    AdvanceUnderWay(s, tx, selected, Evicted(now), oldest);
  }

  lemma FullLoginAlone(s: State, tx: int, session: Session, limit: int, now: Time, oldest: set<int>)
    requires CanStart(s, tx, session) && WithinRange(limit)
    requires var expired, live := ExpiredOf(s.rows, session.user, now), LiveOf(s.rows, session.user, now);
             |live| >= limit && Oldest(s.rows - expired, live, oldest, |live| - limit + 1)
    ensures var counted := Next(Next(Next(s, Lock(tx, session, limit)), Prune(tx, now)), Count(tx));
            var t := Next(Next(Next(Next(counted, Select(tx, oldest)), Evict(tx)), Insert(tx)), Commit(tx));
            var room := s.rows - ExpiredOf(s.rows, session.user, now) - oldest;
            t.rows == room[s.nextId := session] && MadeRoom(s.rows, room, session.user, limit, now)
  {
    var expired := ExpiredOf(s.rows, session.user, now);
    StartsAlone(s, tx, session, limit, now);
    EvictsAlone(s, tx, session, limit, now, oldest);
    EndsAlone(s, tx, Login(session, limit, Evicted(now), expired + oldest));
    RoomMade(s.rows, session.user, limit, now, oldest);
    assert s.rows - (expired + oldest) == s.rows - expired - oldest;
  }

  /** With no login under way, each delete removes exactly the rows it names. */
  lemma DeletesAlone(s: State, token: string, user: int, now: Time, id: int)
    requires s.open == map[] && id in s.rows
    ensures id !in Next(s, DeleteByToken(token)).rows <==> s.rows[id].token == token
    ensures id !in Next(s, DeleteByUser(user)).rows <==> s.rows[id].user == user
    ensures id !in Next(s, DeleteExpired(now)).rows <==> s.rows[id].expiresAt <= now
  {
  }
}
