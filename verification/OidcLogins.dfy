/** Pending OIDC logins: a bounded store whose entries are consumed at most once.

    create_bounded is a transaction that takes one global advisory lock, deletes expired
    rows, counts, and inserts or refuses; its statements interleave with consume and
    delete_expired, which take no lock. What the lock holder deletes stays visible to the
    others until it commits, and a delete that meets such a row waits. The times the
    callers pass need not be ordered.

    `log` records what was committed, in order; PendingAfter reads the store back from it.
  */
module OidcLogins {
  import opened Common

  datatype Row = Row(state: string, browser: string, expiresAt: Time)

  type Table = map<string, Row>

  datatype Phase = Locked | Pruned | Counted(room: bool) | Inserted

  datatype Creation = Creation(row: Row, now: Time, maxPending: int, phase: Phase)

  datatype Event =
    | Created(row: Row, prunedAt: Time)
    | Consumed(row: Row, browser: string, at: Time)
    | Expired(at: Time)

  /** `holder` is the transaction that holds the capacity lock. */
  datatype State = State(rows: Table, holder: Option<Creation>, log: seq<Event>)

  datatype Step =
    | Lock(row: Row, now: Time, maxPending: int)
    | Prune
    | Count
    | Insert
    | Commit
    | Rollback
    | Consume(state: string, browser: string, now: Time)
    | DeleteExpired(now: Time)

  function Without(t: Table, now: Time): Table {
    map h | h in t && t[h].expiresAt > now :: t[h]
  }

  function PendingAt(t: Table, now: Time): set<string> {
    set h | h in t && t[h].expiresAt > now
  }

  /** The table as the lock holder sees it. */
  function View(s: State, c: Creation): Table {
    if c.phase.Locked? then s.rows else Without(s.rows, c.now)
  }

  /** The lock holder has deleted this row and not yet committed. */
  predicate Held(s: State, state: string)
    requires state in s.rows
  {
    s.holder.Some? && state !in View(s, s.holder.value)
  }

  function CommitPrune(s: State, c: Creation): State {
    s.(rows := Without(s.rows, c.now), holder := None, log := s.log + [Expired(c.now)])
  }

  function Next(s: State, step: Step): State {
    match step
    case Lock(row, now, maxPending) =>
      if s.holder.None? then s.(holder := Some(Creation(row, now, maxPending, Locked))) else s
    case Prune =>
      if s.holder.Some? && s.holder.value.phase.Locked?
      then s.(holder := Some(s.holder.value.(phase := Pruned)))
      else s
    case Count =>
      if s.holder.Some? && s.holder.value.phase.Pruned? then
        var c := s.holder.value;
        s.(holder := Some(c.(phase := Counted(|PendingAt(View(s, c), c.now)| < c.maxPending))))
      else s
    case Insert =>
      if s.holder.Some? && s.holder.value.phase == Counted(true) then
        var c := s.holder.value;
        if c.row.state in View(s, c) then s.(holder := None)
        else s.(holder := Some(c.(phase := Inserted)))
      else s
    case Commit =>
      if s.holder.Some? && s.holder.value.phase == Inserted then
        var c := s.holder.value;
        State(Without(s.rows, c.now)[c.row.state := c.row], None, s.log + [Created(c.row, c.now)])
      else if s.holder.Some? && s.holder.value.phase == Counted(false) then CommitPrune(s, s.holder.value)
      else s
    case Rollback => s.(holder := None)
    case Consume(state, browser, now) =>
      if state in s.rows && s.rows[state].browser == browser && s.rows[state].expiresAt > now && !Held(s, state)
      then s.(rows := s.rows - {state}, log := s.log + [Consumed(s.rows[state], browser, now)])
      else s
    case DeleteExpired(now) =>
      if exists h :: h in s.rows && s.rows[h].expiresAt <= now && Held(s, h) then s
      else s.(rows := Without(s.rows, now), log := s.log + [Expired(now)])
  }

  function Execute(s: State, steps: seq<Step>): State
    decreases |steps|
  {
    if steps == [] then s else Execute(Next(s, steps[0]), steps[1..])
  }

  // ---------------------------------------------------------------- capacity

  lemma FewerRows(a: Table, b: Table)
    requires a.Keys <= b.Keys
    ensures |a| <= |b|
  {
    assert b.Keys == a.Keys + (b.Keys - a.Keys);
    assert |a| == |a.Keys| && |b| == |b.Keys|;
  }

  /** Once the holder has counted room, its view is below the limit until it commits. */
  predicate CapacityInv(s: State, capacity: nat) {
    && |s.rows| <= capacity
    && (s.holder.Some? ==>
          var c := s.holder.value;
          && c.maxPending <= capacity
          && (c.phase == Counted(true) || c.phase == Inserted ==> |View(s, c)| < c.maxPending)
          && (c.phase == Inserted ==> c.row.state !in View(s, c)))
  }

  predicate Offers(steps: seq<Step>, capacity: nat) {
    forall i :: 0 <= i < |steps| && steps[i].Lock? ==> steps[i].maxPending <= capacity
  }

  lemma ShrinkKeepsCapacity(s: State, rows: Table, capacity: nat)
    requires CapacityInv(s, capacity)
    requires forall h :: h in rows ==> h in s.rows && rows[h] == s.rows[h]
    ensures CapacityInv(s.(rows := rows), capacity)
    ensures CapacityInv(s.(rows := rows, holder := None), capacity)
  {
    FewerRows(rows, s.rows);
    if s.holder.Some? {
      var c := s.holder.value;
      FewerRows(View(s.(rows := rows), c), View(s, c));
    }
  }

  lemma CountKeepsCapacity(s: State, capacity: nat)
    requires CapacityInv(s, capacity)
    ensures CapacityInv(Next(s, Count), capacity)
  {
    if s.holder.Some? && s.holder.value.phase.Pruned? {
      var c := s.holder.value;
      var view := View(s, c);
      assert view.Keys == PendingAt(view, c.now);
      assert |view| == |view.Keys|;
    }
  }

  lemma CommitKeepsCapacity(s: State, capacity: nat)
    requires CapacityInv(s, capacity)
    ensures CapacityInv(Next(s, Commit), capacity)
    ensures (s.holder.Some? && s.holder.value.phase == Inserted) ==>
              |Next(s, Commit).rows| <= s.holder.value.maxPending
  {
    if s.holder.Some? && s.holder.value.phase == Inserted {
      var c := s.holder.value;
      var view := View(s, c);
      var rows' := Next(s, Commit).rows;
      assert rows'.Keys == view.Keys + {c.row.state};
      assert |rows'| == |rows'.Keys| && |view| == |view.Keys|;
    } else if s.holder.Some? {
      ShrinkKeepsCapacity(s, Without(s.rows, s.holder.value.now), capacity);
    }
  }

  lemma StepKeepsCapacity(s: State, step: Step, capacity: nat)
    requires CapacityInv(s, capacity) && (step.Lock? ==> step.maxPending <= capacity)
    ensures CapacityInv(Next(s, step), capacity)
  {
    match step
    case Count => CountKeepsCapacity(s, capacity);
    case Commit => CommitKeepsCapacity(s, capacity);
    case Consume(state, _, _) => ShrinkKeepsCapacity(s, s.rows - {state}, capacity);
    case DeleteExpired(now) => ShrinkKeepsCapacity(s, Without(s.rows, now), capacity);
    case _ =>
  }

  predicate Initial(s: State) {
    s.rows == map[] && s.holder.None? && s.log == []
  }

  lemma InitialInv(s: State, capacity: nat)
    requires Initial(s)
    ensures CapacityInv(s, capacity) && Logged(s)
  {
  }

  /** From an empty table no interleaving takes the row count over the limit, expired rows
      included. */
  lemma {:induction false} NeverOverCapacity(s: State, steps: seq<Step>, capacity: nat)
    requires (Initial(s) || CapacityInv(s, capacity)) && Offers(steps, capacity)
    ensures |Execute(s, steps).rows| <= capacity
    decreases |steps|
  {
    if Initial(s) {
      InitialInv(s, capacity);
    }
    if steps != [] {
      StepKeepsCapacity(s, steps[0], capacity);
      assert forall i :: 0 <= i < |steps[1..]| ==> steps[1..][i] == steps[i + 1];
      NeverOverCapacity(Next(s, steps[0]), steps[1..], capacity);
    }
  }

  /** A call run alone: refused exactly when the limit is reached by rows that have not
      expired, failed exactly when its state is taken by one of them, and otherwise stored. */
  lemma CreateAlone(s: State, row: Row, now: Time, maxPending: int)
    requires s.holder.None?
    ensures var live := Without(s.rows, now);
            var t := Next(Next(Next(Next(Next(s, Lock(row, now, maxPending)), Prune), Count), Insert), Commit);
            && t.holder.None?
            && t.rows == (if |live| >= maxPending then live
                          else if row.state in live then s.rows
                          else live[row.state := row])
  {
    var live := Without(s.rows, now);
    var c := Creation(row, now, maxPending, Locked);
    var pruned := Next(Next(s, Lock(row, now, maxPending)), Prune);
    assert pruned == s.(holder := Some(c.(phase := Pruned)));
    assert live.Keys == PendingAt(live, now);
    assert |live| == |live.Keys|;
    var counted := Next(pruned, Count);
    assert counted == s.(holder := Some(c.(phase := Counted(|live| < maxPending))));
  }

  /** Consuming takes the row exactly when it is there, comes with its browser hash, has not
      expired, and is not being pruned; otherwise nothing changes. */
  lemma ConsumeExactly(s: State, state: string, browser: string, now: Time)
    ensures var t := Next(s, Consume(state, browser, now));
            if state in s.rows && s.rows[state].browser == browser && now < s.rows[state].expiresAt
               && (s.holder.Some? && !s.holder.value.phase.Locked? ==> s.holder.value.now < s.rows[state].expiresAt)
            then t.rows == s.rows - {state} && t.log == s.log + [Consumed(s.rows[state], browser, now)]
            else t == s
  {
  }

  /** A login that is created can be completed by its own browser until it expires, once. */
  lemma LoginCompletesOnce(s: State, row: Row, now: Time, maxPending: int, at: Time)
    requires s.holder.None? && row.state !in Without(s.rows, now) && |Without(s.rows, now)| < maxPending
    requires at < row.expiresAt
    ensures var t := Next(Next(Next(Next(Next(s, Lock(row, now, maxPending)), Prune), Count), Insert), Commit);
            var u := Next(t, Consume(row.state, row.browser, at));
            && row.state in t.rows && t.rows[row.state] == row
            && u.rows == t.rows - {row.state}
            && (forall browser, later :: Next(u, Consume(row.state, browser, later)) == u)
  {
    CreateAlone(s, row, now, maxPending);
  }

  // ---------------------------------------------------------------- exactly once

  /** What one committed action leaves pending under `state`. */
  function Effect(pending: Option<Row>, e: Event, state: string): Option<Row> {
    match e
    case Created(row, prunedAt) =>
      if row.state == state then Some(row)
      else if pending.Some? && pending.value.expiresAt <= prunedAt then None else pending
    case Consumed(row, _, _) => if row.state == state then None else pending
    case Expired(at) => if pending.Some? && pending.value.expiresAt <= at then None else pending
  }

  function PendingAfter(log: seq<Event>, state: string): Option<Row> {
    if log == [] then None
    else Effect(PendingAfter(log[..|log| - 1], state), log[|log| - 1], state)
  }

  /** An entry that may follow `log`: a consumed row was pending, came with its own browser
      hash and had not expired; a created row was not pending. */
  predicate Justified(log: seq<Event>, e: Event) {
    match e
    case Consumed(row, browser, at) =>
      PendingAfter(log, row.state) == Some(row) && browser == row.browser && at < row.expiresAt
    case Created(row, prunedAt) => Effect(PendingAfter(log, row.state), Expired(prunedAt), row.state) == None
    case Expired(_) => true
  }

  predicate LogOk(log: seq<Event>) {
    forall i :: 0 <= i < |log| ==> Justified(log[..i], log[i])
  }

  function Find(t: Table, state: string): Option<Row> {
    if state in t then Some(t[state]) else None
  }

  /** The table is what the log says, every row under its own state. */
  ghost predicate Logged(s: State) {
    && LogOk(s.log)
    && (forall h :: Find(s.rows, h) == PendingAfter(s.log, h))
    && (forall h :: h in s.rows ==> s.rows[h].state == h)
    && (s.holder.Some? && s.holder.value.phase == Inserted ==> s.holder.value.row.state !in View(s, s.holder.value))
  }

  lemma AppendPending(log: seq<Event>, e: Event, state: string)
    ensures PendingAfter(log + [e], state) == Effect(PendingAfter(log, state), e, state)
  {
    assert (log + [e])[..|log + [e]| - 1] == log;
  }

  lemma AppendOk(log: seq<Event>, e: Event)
    requires LogOk(log) && Justified(log, e)
    ensures LogOk(log + [e])
  {
    forall i | 0 <= i < |log + [e]| ensures Justified((log + [e])[..i], (log + [e])[i]) {
      assert (log + [e])[..i] == log[..i];
      assert i == |log| ==> log[..i] == log;
    }
  }

  lemma AppendLogged(s: State, s': State, e: Event)
    requires Logged(s) && s'.log == s.log + [e] && Justified(s.log, e)
    requires forall h :: Find(s'.rows, h) == Effect(Find(s.rows, h), e, h)
    requires s'.holder.None? || (s'.holder == s.holder && !e.Created?)
    ensures Logged(s')
  {
    AppendOk(s.log, e);
    forall h ensures Find(s'.rows, h) == PendingAfter(s'.log, h) {
      AppendPending(s.log, e, h);
      assert Find(s.rows, h) == PendingAfter(s.log, h);
    }
    forall h | h in s'.rows
      ensures s'.rows[h].state == h
      ensures s'.holder.Some? ==> h in s.rows && s'.rows[h] == s.rows[h]
    {
      assert Find(s'.rows, h) == Effect(Find(s.rows, h), e, h);
    }
  }

  lemma CommitLogged(s: State)
    requires Logged(s)
    ensures Logged(Next(s, Commit))
  {
    var s' := Next(s, Commit);
    if s.holder.Some? && s.holder.value.phase == Inserted {
      var c := s.holder.value;
      assert Find(s.rows, c.row.state) == PendingAfter(s.log, c.row.state);
      AppendLogged(s, s', Created(c.row, c.now));
    } else if s.holder.Some? && s.holder.value.phase == Counted(false) {
      AppendLogged(s, s', Expired(s.holder.value.now));
    }
  }

  lemma StepLogged(s: State, step: Step)
    requires Logged(s)
    ensures Logged(Next(s, step))
  {
    var s' := Next(s, step);
    match step
    case Commit => CommitLogged(s);
    case Consume(state, browser, now) =>
      if s' != s {
        assert Find(s.rows, state) == PendingAfter(s.log, state);
        AppendLogged(s, s', Consumed(s.rows[state], browser, now));
      }
    case DeleteExpired(now) =>
      if s' != s {
        AppendLogged(s, s', Expired(now));
      }
    case _ =>
      assert forall h :: Find(s'.rows, h) == Find(s.rows, h);
  }

  /** A row consumed at `j` was created at some earlier `k` and untouched in between. */
  lemma {:induction false} PendingWasCreated(log: seq<Event>, row: Row) returns (k: nat)
    requires PendingAfter(log, row.state) == Some(row)
    ensures k < |log| && log[k].Created? && log[k].row == row
    ensures forall i :: k < i < |log| ==> !(log[i].Consumed? && log[i].row.state == row.state)
    ensures forall i :: k < i < |log| && log[i].Expired? ==> log[i].at < row.expiresAt
    ensures forall i :: k < i < |log| && log[i].Created? ==>
              log[i].row.state != row.state && log[i].prunedAt < row.expiresAt
    decreases |log|
  {
    var last := |log| - 1;
    if log[last].Created? && log[last].row.state == row.state {
      k := last;
    } else {
      k := PendingWasCreated(log[..last], row);
    }
  }

  /** Entry k created the row that entry j consumes, and no entry in between took it. */
  predicate CreatedAndKept(log: seq<Event>, k: int, j: int)
    requires 0 <= k < j < |log| && log[j].Consumed?
  {
    && log[k].Created? && log[k].row == log[j].row
    && forall i :: k < i < j ==>
         && !(log[i].Consumed? && log[i].row.state == log[j].row.state)
         && (log[i].Expired? ==> log[i].at < log[j].row.expiresAt)
         && (log[i].Created? ==> log[i].row.state != log[j].row.state && log[i].prunedAt < log[j].row.expiresAt)
  }

  predicate ConsumptionsAreCreations(log: seq<Event>) {
    forall j :: 0 <= j < |log| && log[j].Consumed? ==>
      && log[j].browser == log[j].row.browser && log[j].at < log[j].row.expiresAt
      && exists k :: 0 <= k < j && CreatedAndKept(log, k, j)
  }

  /** Every committed consumption in every interleaving: its row was created before, with
      that browser hash and not yet expired, and nothing consumed it since; so a state
      created once is consumed at most once. */
  lemma {:induction false} ConsumedAtMostOnce(s: State, steps: seq<Step>)
    requires Initial(s) || Logged(s)
    ensures Logged(Execute(s, steps))
    ensures ConsumptionsAreCreations(Execute(s, steps).log)
    decreases |steps|
  {
    if Initial(s) {
      InitialInv(s, 0);
    }
    if steps != [] {
      StepLogged(s, steps[0]);
      ConsumedAtMostOnce(Next(s, steps[0]), steps[1..]);
    } else {
      forall j | 0 <= j < |s.log| && s.log[j].Consumed?
        ensures exists k :: 0 <= k < j && CreatedAndKept(s.log, k, j)
        ensures s.log[j].browser == s.log[j].row.browser && s.log[j].at < s.log[j].row.expiresAt
      {
        assert Justified(s.log[..j], s.log[j]);
        var k := PendingWasCreated(s.log[..j], s.log[j].row);
        assert CreatedAndKept(s.log, k, j);
      }
    }
  }

  lemma TwoConsumptionsNeedTwoCreations(log: seq<Event>, i: int, j: int)
    requires 0 <= i < j < |log| && log[i].Consumed? && log[j].Consumed? && log[i].row.state == log[j].row.state
    requires ConsumptionsAreCreations(log)
    ensures exists k :: i < k < j && log[k].Created? && log[k].row.state == log[j].row.state
  {
    var k :| 0 <= k < j && CreatedAndKept(log, k, j);
    assert i <= k;
  }
}
