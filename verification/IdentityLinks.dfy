/** Linking Entra identities to portal users: just-in-time provisioning at login, the CLI
    link command and the profile update at login, interleaved statement by statement.

    Provisioning and the CLI take one advisory lock per (tenant, object); the profile update
    takes none. Writes of an open transaction are invisible to the others until it commits;
    a write that meets another transaction's uncommitted one waits. The unique index on
    (tenant, object) is deliberately absent: the lock alone has to keep that pair unique.
    The unique index on (issuer, subject) is present. Any statement may fail, which is a
    rollback: a taken username, an unknown user, a lost connection.
  */
module IdentityLinks {
  import opened Common
  import QueryOrder

  datatype Key = Key(tenant: string, object: string)

  datatype Identity = Identity(key: Key, user: int, issuer: string, subject: Option<string>)

  type Identities = map<int, Identity>

  datatype Outcome = Created | SubjectAdded | AlreadyLinked

  datatype Call =
    | Provision(key: Key, issuer: string, subject: string)
    | Link(key: Key, issuer: string, user: int, requested: Option<string>)

  datatype Audit = Audit(action: Action, key: Key, user: int)

  datatype Action = JitProvisioned | Linked(outcome: Outcome)

  datatype Report = Report(call: Call, id: int, user: int, outcome: Outcome)

  datatype Phase =
    | Locked
    | Existing(id: int, row: Identity)
    | Absent
    | UserInserted(user: int)
    | MemberGranted(user: int)
    | SubjectFree(existing: Option<int>)
    | Conflicted
    | Written(outcome: Outcome, id: int, user: int)
    | Ready(outcome: Outcome, id: int, user: int, audit: Option<Audit>)

  /** What the transaction has written but not committed. */
  datatype Pending = Nothing | NewIdentity(id: int, row: Identity) | NewSubject(id: int, subject: string)

  datatype Tx = Tx(call: Call, phase: Phase, write: Pending)

  /** `origin` of a user is the identity it was provisioned for; None for other users. */
  datatype State = State(
    identities: Identities,
    users: map<int, Option<Key>>,
    members: multiset<int>,
    audits: seq<Audit>,
    reports: seq<Report>,
    locks: map<Key, int>,
    open: map<int, Tx>,
    nextIdentity: int,
    nextUser: int)

  datatype Step =
    | Lock(tx: int, call: Call)
    | Find(tx: int, found: Option<int>)
    | Statement(tx: int)
    | Commit(tx: int)
    | Rollback(tx: int)
    | UpdateProfile(id: int, issuer: string, subject: string)

  function IdsFor(ids: Identities, key: Key): set<int> {
    set id | id in ids && ids[id].key == key
  }

  predicate SubjectTaken(s: State, issuer: string, subject: Option<string>) {
    subject.Some? && exists id :: id in s.identities && s.identities[id].issuer == issuer && s.identities[id].subject == subject
  }

  /** The subject an uncommitted write gives to an identity of the call's issuer. */
  function Claim(c: Tx): Option<string> {
    match c.write
    case Nothing => None
    case NewIdentity(_, row) => row.subject
    case NewSubject(_, subject) => Some(subject)
  }

  /** An uncommitted write of another transaction that this one must wait for. */
  predicate SubjectPending(s: State, issuer: string, subject: Option<string>) {
    subject.Some? && exists tx :: tx in s.open && s.open[tx].call.issuer == issuer && Claim(s.open[tx]) == subject
  }

  predicate RowPending(s: State, id: int) {
    exists tx :: tx in s.open && s.open[tx].write.NewSubject? && s.open[tx].write.id == id
  }

  function Close(s: State, tx: int): State
    requires tx in s.open
  {
    s.(open := s.open - {tx}, locks := s.locks - {s.open[tx].call.key})
  }

  function Go(s: State, tx: int, phase: Phase, write: Pending): State
    requires tx in s.open
  {
    s.(open := s.open[tx := Tx(s.open[tx].call, phase, write)])
  }

  predicate MayTakeSubject(row: Identity, subject: string) {
    row.subject.None? || row.subject == Some(subject)
  }

  /** The next statement of a provisioning transaction. */
  function ProvisionStep(s: State, tx: int): State
    requires tx in s.open && s.open[tx].call.Provision?
  {
    var call := s.open[tx].call;
    match s.open[tx].phase
    case Existing(id, row) => Go(s, tx, Ready(AlreadyLinked, id, row.user, None), Nothing)
    case Absent => Go(s, tx, UserInserted(s.nextUser), Nothing).(nextUser := s.nextUser + 1)
    case UserInserted(user) => Go(s, tx, MemberGranted(user), Nothing)
    case MemberGranted(user) =>
      if SubjectPending(s, call.issuer, Some(call.subject)) then s
      else if SubjectTaken(s, call.issuer, Some(call.subject)) then Close(s, tx)
      else
        Go(s, tx, Written(Created, s.nextIdentity, user),
           NewIdentity(s.nextIdentity, Identity(call.key, user, call.issuer, Some(call.subject))))
        .(nextIdentity := s.nextIdentity + 1)
    case Written(outcome, id, user) =>
      Go(s, tx, Ready(outcome, id, user, Some(Audit(JitProvisioned, call.key, user))), s.open[tx].write)
    case _ => s
  }

  /** The next statement of a CLI link; a conflict aborts it. */
  function LinkStep(s: State, tx: int): State
    requires tx in s.open && s.open[tx].call.Link?
  {
    var call := s.open[tx].call;
    match s.open[tx].phase
    case Existing(id, row) =>
      if row.user != call.user || row.issuer != call.issuer then Close(s, tx)
      else if row.subject.Some? && call.requested.Some? && row.subject != call.requested then Close(s, tx)
      else if row.subject.None? && call.requested.Some? then
        if SubjectTaken(s, call.issuer, call.requested) then Close(s, tx)
        else Go(s, tx, SubjectFree(Some(id)), Nothing)
      else Go(s, tx, Ready(AlreadyLinked, id, row.user, None), Nothing)
    case Absent =>
      if SubjectTaken(s, call.issuer, call.requested) then Close(s, tx)
      else Go(s, tx, SubjectFree(None), Nothing)
    case SubjectFree(existing) =>
      if SubjectPending(s, call.issuer, call.requested) then s
      else if existing.None? then
        if SubjectTaken(s, call.issuer, call.requested) then Go(s, tx, Conflicted, Nothing)
        else
          Go(s, tx, Written(Created, s.nextIdentity, call.user),
             NewIdentity(s.nextIdentity, Identity(call.key, call.user, call.issuer, call.requested)))
          .(nextIdentity := s.nextIdentity + 1)
      else if existing.value in s.identities && call.requested.Some?
              && MayTakeSubject(s.identities[existing.value], call.requested.value)
              && (s.identities[existing.value].subject == call.requested || !SubjectTaken(s, call.issuer, call.requested)) then
        Go(s, tx, Written(SubjectAdded, existing.value, call.user), NewSubject(existing.value, call.requested.value))
      else Close(s, tx)
    case Written(outcome, id, user) =>
      Go(s, tx, Ready(outcome, id, user, Some(Audit(Linked(outcome), call.key, user))), s.open[tx].write)
    case _ => s
  }

  function WithWrite(ids: Identities, w: Pending): Identities {
    match w
    case Nothing => ids
    case NewIdentity(id, row) => ids[id := row]
    case NewSubject(id, subject) => if id in ids then ids[id := ids[id].(subject := Some(subject))] else ids
  }

  function Committed(s: State, tx: int): State
    requires tx in s.open && s.open[tx].phase.Ready?
  {
    var c := s.open[tx];
    var newUser := c.call.Provision? && c.phase.outcome == Created;
    Close(s, tx).(
      identities := WithWrite(s.identities, c.write),
      users := if newUser then s.users[c.phase.user := Some(c.call.key)] else s.users,
      members := if newUser then s.members + multiset{c.phase.user} else s.members,
      audits := if c.phase.audit.Some? then s.audits + [c.phase.audit.value] else s.audits,
      reports := s.reports + [Report(c.call, c.phase.id, c.phase.user, c.phase.outcome)])
  }

  function Next(s: State, step: Step): State {
    match step
    case Lock(tx, call) =>
      if tx in s.open || call.key in s.locks then s
      else s.(locks := s.locks[call.key := tx], open := s.open[tx := Tx(call, Locked, Nothing)])
    case Find(tx, found) =>
      if tx in s.open && (s.open[tx].phase.Locked? || s.open[tx].phase.Conflicted?) then
        if found.None? && IdsFor(s.identities, s.open[tx].call.key) == {} then
          if s.open[tx].phase.Locked? then Go(s, tx, Absent, Nothing) else Close(s, tx)
        else if found.Some? && found.value in IdsFor(s.identities, s.open[tx].call.key) then
          Go(s, tx, Existing(found.value, s.identities[found.value]), Nothing)
        else s
      else s
    case Statement(tx) =>
      if tx !in s.open then s
      else if s.open[tx].call.Provision? then ProvisionStep(s, tx)
      else LinkStep(s, tx)
    case Commit(tx) => if tx in s.open && s.open[tx].phase.Ready? then Committed(s, tx) else s
    case Rollback(tx) => if tx in s.open then Close(s, tx) else s
    case UpdateProfile(id, issuer, subject) =>
      if id in s.identities && s.identities[id].issuer == issuer && MayTakeSubject(s.identities[id], subject)
         && !RowPending(s, id) && !SubjectPending(s, issuer, Some(subject))
         && (s.identities[id].subject == Some(subject) || !SubjectTaken(s, issuer, Some(subject)))
      then s.(identities := s.identities[id := s.identities[id].(subject := Some(subject))])
      else s
  }

  function Execute(s: State, steps: seq<Step>): State
    decreases |steps|
  {
    if steps == [] then s else Execute(Next(s, steps[0]), steps[1..])
  }

  // ---------------------------------------------------------------- the invariant

  predicate OnePerKey(ids: Identities) {
    forall i, j :: i in ids && j in ids && ids[i].key == ids[j].key ==> i == j
  }

  predicate Has(ids: Identities, id: int, key: Key, user: int) {
    id in ids && ids[id].key == key && ids[id].user == user
  }

  predicate NoneFor(ids: Identities, key: Key) {
    forall id :: id in ids ==> ids[id].key != key
  }

  /** The user this transaction has inserted, if any. */
  function NewUser(c: Tx): Option<int> {
    match c.phase
    case UserInserted(user) => Some(user)
    case MemberGranted(user) => Some(user)
    case Written(outcome, _, user) => if c.call.Provision? && outcome == Created then Some(user) else None
    case Ready(outcome, _, user, _) => if c.call.Provision? && outcome == Created then Some(user) else None
    case _ => None
  }

  /** A result and the write behind it. */
  predicate ResultOk(s: State, c: Tx, outcome: Outcome, id: int, user: int) {
    match outcome
    case Created =>
      && NoneFor(s.identities, c.call.key)
      && c.write.NewIdentity? && c.write.id == id && c.write.row.key == c.call.key && c.write.row.user == user
      && id < s.nextIdentity && id !in s.identities
    case SubjectAdded =>
      && c.call.Link? && Has(s.identities, id, c.call.key, user)
      && c.write.NewSubject? && c.write.id == id && MayTakeSubject(s.identities[id], c.write.subject)
    case AlreadyLinked => c.write.Nothing? && Has(s.identities, id, c.call.key, user)
  }

  predicate AuditOk(c: Tx) {
    c.phase.Ready? ==>
      var p := c.phase;
      match p.outcome
      case AlreadyLinked => p.audit == None
      case _ => p.audit == Some(Audit(if c.call.Provision? then JitProvisioned else Linked(p.outcome), c.call.key, p.user))
  }

  predicate PhaseOk(s: State, c: Tx) {
    match c.phase
    case Locked => c.write.Nothing?
    case Existing(id, row) => c.write.Nothing? && row.key == c.call.key && Has(s.identities, id, c.call.key, row.user)
    case Absent => c.write.Nothing? && NoneFor(s.identities, c.call.key)
    case UserInserted(_) => c.write.Nothing? && c.call.Provision? && NoneFor(s.identities, c.call.key)
    case MemberGranted(_) => c.write.Nothing? && c.call.Provision? && NoneFor(s.identities, c.call.key)
    case SubjectFree(existing) =>
      && c.write.Nothing? && c.call.Link?
      && (if existing.Some? then Has(s.identities, existing.value, c.call.key, c.call.user)
          else NoneFor(s.identities, c.call.key))
    case Conflicted => c.write.Nothing? && c.call.Link? && NoneFor(s.identities, c.call.key)
    case Written(outcome, id, user) => outcome != AlreadyLinked && ResultOk(s, c, outcome, id, user)
    case Ready(outcome, id, user, _) => ResultOk(s, c, outcome, id, user)
  }

  predicate UserOk(s: State, c: Tx) {
    NewUser(c).Some? ==> NewUser(c).value < s.nextUser && NewUser(c).value !in s.users
  }

  predicate TxOk(s: State, tx: int)
    requires tx in s.open
  {
    var c := s.open[tx];
    && c.call.key in s.locks && s.locks[c.call.key] == tx
    && PhaseOk(s, c) && UserOk(s, c) && AuditOk(c)
  }

  predicate DistinctIds(s: State) {
    && (forall id :: id in s.identities ==> id < s.nextIdentity)
    && (forall u :: u in s.users ==> u < s.nextUser)
    && (forall u :: u in s.members ==> u in s.users)
    && (forall x, y :: x in s.open && y in s.open && x != y ==>
          && (s.open[x].write.NewIdentity? && s.open[y].write.NewIdentity? ==> s.open[x].write.id != s.open[y].write.id)
          && (NewUser(s.open[x]).Some? ==> NewUser(s.open[x]) != NewUser(s.open[y])))
  }

  /** Finished calls told the truth, and provisioned users hold the member role once. */
  predicate ReportsOk(s: State) {
    && (forall i :: 0 <= i < |s.reports| ==>
          Has(s.identities, s.reports[i].id, s.reports[i].call.key, s.reports[i].user))
    && (forall u :: u in s.users && s.users[u].Some? ==> s.members[u] == 1)
  }

  predicate Inv(s: State) {
    && OnePerKey(s.identities)
    && DistinctIds(s)
    && ReportsOk(s)
    && forall tx :: tx in s.open ==> TxOk(s, tx)
  }

  /** Rows stay, keep their key, user and issuer, and never lose or change a subject. */
  predicate Evolves(a: Identities, b: Identities) {
    forall id :: id in a ==>
      && id in b && b[id].key == a[id].key && b[id].user == a[id].user && b[id].issuer == a[id].issuer
      && (a[id].subject.Some? ==> b[id].subject == a[id].subject)
  }

  /** What other steps must leave alone for a transaction to stay in order. */
  lemma OthersKeepTx(s: State, s': State, tx: int)
    requires tx in s.open && TxOk(s, tx) && tx in s'.open && s'.open[tx] == s.open[tx]
    requires s.open[tx].call.key in s'.locks && s'.locks[s.open[tx].call.key] == tx
    requires Evolves(s.identities, s'.identities)
    requires forall id :: id in s'.identities && id !in s.identities ==>
               s'.identities[id].key != s.open[tx].call.key && !(s.open[tx].write.NewIdentity? && s.open[tx].write.id == id)
    requires var w := s.open[tx].write;
             w.NewSubject? && w.id in s.identities ==> s'.identities[w.id] == s.identities[w.id]
    requires s.nextIdentity <= s'.nextIdentity && s.nextUser <= s'.nextUser
    requires NewUser(s.open[tx]).Some? && NewUser(s.open[tx]).value in s'.users ==> NewUser(s.open[tx]).value in s.users
    ensures TxOk(s', tx)
  {
    var c := s.open[tx];
    assert NoneFor(s.identities, c.call.key) ==> NoneFor(s'.identities, c.call.key);
    assert PhaseOk(s', c);
  }

  /** A statement of tx that only moves tx forward; ids it takes are new. */
  predicate MovesOnly(s: State, s': State, tx: int)
    requires tx in s.open
  {
    && tx in s'.open && s'.open == s.open[tx := s'.open[tx]]
    && s' == s.(open := s'.open, nextIdentity := s'.nextIdentity, nextUser := s'.nextUser)
    && s.nextIdentity <= s'.nextIdentity && s.nextUser <= s'.nextUser
    && (s'.open[tx].write.NewIdentity? ==> s'.open[tx].write.id >= s.nextIdentity || s'.open[tx].write == s.open[tx].write)
    && (NewUser(s'.open[tx]).Some? ==>
          NewUser(s'.open[tx]).value >= s.nextUser || NewUser(s'.open[tx]) == NewUser(s.open[tx]))
  }

  lemma GoKeepsInv(s: State, s': State, tx: int)
    requires Inv(s) && tx in s.open && MovesOnly(s, s', tx) && TxOk(s', tx)
    ensures Inv(s')
  {
    forall ty | ty in s'.open && ty != tx
      ensures TxOk(s', ty) && TxOk(s, ty)
    {
      assert TxOk(s, ty);
      OthersKeepTx(s, s', ty);
    }
    assert TxOk(s, tx);
    forall ty | ty in s.open
      ensures s.open[ty].write.NewIdentity? ==> s.open[ty].write.id < s.nextIdentity
      ensures NewUser(s.open[ty]).Some? ==> NewUser(s.open[ty]).value < s.nextUser
    {
      assert TxOk(s, ty);
    }
    assert DistinctIds(s');
  }

  lemma CloseKeepsInv(s: State, tx: int)
    requires Inv(s) && tx in s.open
    ensures Inv(Close(s, tx))
  {
    var s' := Close(s, tx);
    assert TxOk(s, tx);
    forall ty | ty in s'.open ensures TxOk(s', ty) {
      assert TxOk(s, ty);
      OthersKeepTx(s, s', ty);
    }
  }

  lemma LockKeepsInv(s: State, tx: int, call: Call)
    requires Inv(s)
    ensures Inv(Next(s, Lock(tx, call)))
  {
    var s' := Next(s, Lock(tx, call));
    if s' != s {
      forall other | other in s.open ensures TxOk(s', other) {
        assert TxOk(s, other);
        OthersKeepTx(s, s', other);
      }
      assert TxOk(s', tx) && DistinctIds(s');
    }
  }

  lemma FindKeepsInv(s: State, tx: int, found: Option<int>)
    requires Inv(s)
    ensures Inv(Next(s, Find(tx, found)))
  {
    var s' := Next(s, Find(tx, found));
    if s' != s {
      assert TxOk(s, tx);
      var key := s.open[tx].call.key;
      CloseKeepsInv(s, tx);
      if tx in s'.open {
        forall id | id in s.identities && found.None? ensures s.identities[id].key != key {
          assert id !in IdsFor(s.identities, key);
        }
        GoKeepsInv(s, s', tx);
      }
    }
  }

  lemma ProvisionMovesOn(s: State, tx: int)
    requires Inv(s) && tx in s.open && s.open[tx].call.Provision?
    ensures var s' := ProvisionStep(s, tx);
            s' == Close(s, tx) || s' == s || (MovesOnly(s, s', tx) && TxOk(s', tx))
  {
    assert TxOk(s, tx);
  }

  lemma LinkReads(s: State, tx: int)
    requires Inv(s) && tx in s.open && s.open[tx].call.Link? && !s.open[tx].phase.SubjectFree?
    ensures var s' := LinkStep(s, tx);
            s' == Close(s, tx) || s' == s || (MovesOnly(s, s', tx) && TxOk(s', tx))
  {
    assert TxOk(s, tx);
  }

  lemma LinkWrites(s: State, tx: int)
    requires Inv(s) && tx in s.open && s.open[tx].call.Link? && s.open[tx].phase.SubjectFree?
    ensures var s' := LinkStep(s, tx);
            s' == Close(s, tx) || s' == s || (MovesOnly(s, s', tx) && TxOk(s', tx))
  {
    assert TxOk(s, tx);
  }

  lemma StatementKeepsInv(s: State, tx: int)
    requires Inv(s)
    ensures Inv(Next(s, Statement(tx)))
  {
    if tx in s.open {
      var s' := Next(s, Statement(tx));
      if s.open[tx].call.Provision? {
        ProvisionMovesOn(s, tx);
      } else if s.open[tx].phase.SubjectFree? {
        LinkWrites(s, tx);
      } else {
        LinkReads(s, tx);
      }
      if s' == Close(s, tx) {
        CloseKeepsInv(s, tx);
      } else if s' != s {
        GoKeepsInv(s, s', tx);
      }
    }
  }

  lemma CommitEvolves(s: State, tx: int)
    requires Inv(s) && tx in s.open && s.open[tx].phase.Ready?
    ensures var ids' := WithWrite(s.identities, s.open[tx].write);
            && Evolves(s.identities, ids') && OnePerKey(ids')
            && Has(ids', s.open[tx].phase.id, s.open[tx].call.key, s.open[tx].phase.user)
            && (forall id :: id in ids' && (id !in s.identities || ids'[id] != s.identities[id]) ==>
                  ids'[id].key == s.open[tx].call.key && id == s.open[tx].phase.id)
            && (s.open[tx].phase.outcome == Created <==> s.open[tx].phase.id !in s.identities)
  {
    assert TxOk(s, tx);
  }

  lemma CommitKeepsTx(s: State, tx: int, other: int)
    requires Inv(s) && tx in s.open && s.open[tx].phase.Ready?
    requires other in s.open && other != tx
    ensures TxOk(Committed(s, tx), other)
  {
    CommitEvolves(s, tx);
    assert TxOk(s, tx) && TxOk(s, other);
    OthersKeepTx(s, Committed(s, tx), other);
  }

  lemma CommitKeepsInv(s: State, tx: int)
    requires Inv(s)
    ensures Inv(Next(s, Commit(tx)))
  {
    if tx in s.open && s.open[tx].phase.Ready? {
      CommitEvolves(s, tx);
      CommitKeepsReports(s, tx);
      forall other | other in s.open && other != tx ensures TxOk(Committed(s, tx), other) {
        CommitKeepsTx(s, tx, other);
      }
      assert TxOk(s, tx);
      assert DistinctIds(Committed(s, tx));
    }
  }

  lemma CommitKeepsReports(s: State, tx: int)
    requires Inv(s) && tx in s.open && s.open[tx].phase.Ready?
    ensures ReportsOk(Committed(s, tx))
  {
    CommitEvolves(s, tx);
    assert TxOk(s, tx);
    var s', c := Committed(s, tx), s.open[tx];
    forall i | 0 <= i < |s'.reports|
      ensures Has(s'.identities, s'.reports[i].id, s'.reports[i].call.key, s'.reports[i].user)
    {
      assert i < |s.reports| ==> s'.reports[i] == s.reports[i];
    }
    assert NewUser(c).Some? ==> s.members[NewUser(c).value] == 0;
  }

  lemma ProfileKeepsInv(s: State, id: int, issuer: string, subject: string)
    requires Inv(s)
    ensures Inv(Next(s, UpdateProfile(id, issuer, subject)))
  {
    var s' := Next(s, UpdateProfile(id, issuer, subject));
    if s' != s {
      forall tx | tx in s'.open ensures TxOk(s', tx) {
        assert TxOk(s, tx);
        OthersKeepTx(s, s', tx);
      }
    }
  }

  lemma StepKeepsInv(s: State, step: Step)
    requires Inv(s)
    ensures Inv(Next(s, step))
  {
    match step
    case Lock(tx, call) => LockKeepsInv(s, tx, call);
    case Find(tx, found) => FindKeepsInv(s, tx, found);
    case Statement(tx) => StatementKeepsInv(s, tx);
    case Commit(tx) => CommitKeepsInv(s, tx);
    case Rollback(tx) => if tx in s.open { CloseKeepsInv(s, tx); }
    case UpdateProfile(id, issuer, subject) => ProfileKeepsInv(s, id, issuer, subject);
  }

  predicate SameTables(s: State, t: State) {
    t.identities == s.identities && t.users == s.users && t.audits == s.audits && t.reports == s.reports
  }

  /** Statements before the commit show in no table. */
  lemma ProvisionIsPrivate(s: State, tx: int)
    requires tx in s.open && s.open[tx].call.Provision?
    ensures SameTables(s, ProvisionStep(s, tx))
  {
  }

  lemma LinkIsPrivate(s: State, tx: int)
    requires tx in s.open && s.open[tx].call.Link?
    ensures SameTables(s, LinkStep(s, tx))
  {
  }

  lemma StatementIsPrivate(s: State, tx: int)
    ensures SameTables(s, Next(s, Statement(tx)))
  {
    if tx in s.open && s.open[tx].call.Provision? {
      ProvisionIsPrivate(s, tx);
    } else if tx in s.open {
      LinkIsPrivate(s, tx);
    }
  }

  lemma StepEvolves(s: State, step: Step)
    requires Inv(s)
    ensures Evolves(s.identities, Next(s, step).identities)
  {
    if step.Commit? && step.tx in s.open && s.open[step.tx].phase.Ready? {
      CommitEvolves(s, step.tx);
    } else if step.Statement? {
      StatementIsPrivate(s, step.tx);
    }
  }

  /** Every interleaving: one identity per key, and no identity ever changes its user or
      issuer, or its subject once it has one. */
  lemma {:induction false} LinksAreWriteOnce(s: State, steps: seq<Step>)
    requires Initial(s) || Inv(s)
    ensures Inv(Execute(s, steps))
    ensures OnePerKey(Execute(s, steps).identities)
    ensures Evolves(s.identities, Execute(s, steps).identities)
    decreases |steps|
  {
    if Initial(s) {
      InitialInv(s);
    }
    if steps != [] {
      StepKeepsInv(s, steps[0]);
      StepEvolves(s, steps[0]);
      LinksAreWriteOnce(Next(s, steps[0]), steps[1..]);
    }
  }

  // ---------------------------------------------------------------- subjects

  predicate SubjectsUnique(ids: Identities) {
    forall i, j :: i in ids && j in ids && ids[i].issuer == ids[j].issuer
                   && ids[i].subject.Some? && ids[i].subject == ids[j].subject
      ==> i == j
  }

  /** What a transaction relies on is under the issuer it was called with. */
  predicate IssuerOk(s: State, c: Tx) {
    && (c.phase.Existing? && c.phase.id in s.identities ==> s.identities[c.phase.id].issuer == c.phase.row.issuer)
    && (c.phase.SubjectFree? && c.phase.existing.Some? && c.phase.existing.value in s.identities ==>
          s.identities[c.phase.existing.value].issuer == c.call.issuer)
    && (c.write.NewIdentity? ==> c.write.row.issuer == c.call.issuer)
    && (c.write.NewSubject? && c.write.id in s.identities ==> s.identities[c.write.id].issuer == c.call.issuer)
  }

  /** No committed identity but the one being written has the subject claimed. */
  predicate ClaimFree(s: State, c: Tx) {
    Claim(c).Some? ==>
      forall id :: id in s.identities && s.identities[id].issuer == c.call.issuer && s.identities[id].subject == Claim(c)
        ==> c.write.NewSubject? && c.write.id == id
  }

  predicate SubjectInv(s: State) {
    && SubjectsUnique(s.identities)
    && (forall tx :: tx in s.open ==> IssuerOk(s, s.open[tx]) && ClaimFree(s, s.open[tx]))
    && (forall x, y :: x in s.open && y in s.open && s.open[x].call.issuer == s.open[y].call.issuer
                       && Claim(s.open[x]).Some? && Claim(s.open[x]) == Claim(s.open[y])
          ==> x == y)
  }

  /** A statement that claims nothing new, or a subject nobody has or claims. */
  lemma MoveKeepsSubjects(s: State, s': State, tx: int)
    requires SubjectInv(s) && tx in s.open && MovesOnly(s, s', tx)
    requires s'.open[tx].call == s.open[tx].call && IssuerOk(s', s'.open[tx])
    requires s'.open[tx].write == s.open[tx].write
             || (ClaimFree(s', s'.open[tx]) && !SubjectPending(s, s.open[tx].call.issuer, Claim(s'.open[tx])))
    ensures SubjectInv(s')
  {
    var c' := s'.open[tx];
    forall y | y in s'.open && y != tx && s'.open[y].call.issuer == c'.call.issuer && Claim(c').Some?
      ensures Claim(s'.open[y]) != Claim(c')
    {
      assert s'.open[y] == s.open[y];
    }
  }

  lemma ProvisionKeepsSubjects(s: State, tx: int)
    requires SubjectInv(s) && tx in s.open && TxOk(s, tx) && s.open[tx].call.Provision?
    ensures SubjectInv(ProvisionStep(s, tx))
  {
    var s' := ProvisionStep(s, tx);
    assert IssuerOk(s, s.open[tx]);
    if s' == Close(s, tx) {
      CloseKeepsSubjects(s, tx);
    } else if s' != s {
      MoveKeepsSubjects(s, s', tx);
    }
  }

  lemma LinkReadKeepsSubjects(s: State, tx: int)
    requires SubjectInv(s) && tx in s.open && TxOk(s, tx) && s.open[tx].call.Link? && !s.open[tx].phase.SubjectFree?
    ensures SubjectInv(LinkStep(s, tx))
  {
    var s' := LinkStep(s, tx);
    assert IssuerOk(s, s.open[tx]);
    if s' == Close(s, tx) {
      CloseKeepsSubjects(s, tx);
    } else if s' != s {
      MoveKeepsSubjects(s, s', tx);
    }
  }

  lemma LinkWriteKeepsSubjects(s: State, tx: int)
    requires SubjectInv(s) && tx in s.open && TxOk(s, tx) && s.open[tx].call.Link? && s.open[tx].phase.SubjectFree?
    ensures SubjectInv(LinkStep(s, tx))
  {
    var s' := LinkStep(s, tx);
    assert IssuerOk(s, s.open[tx]);
    if s' == Close(s, tx) {
      CloseKeepsSubjects(s, tx);
    } else if s' != s {
      MoveKeepsSubjects(s, s', tx);
    }
  }

  lemma CommitKeepsUnique(s: State, tx: int)
    requires Inv(s) && SubjectInv(s) && tx in s.open && s.open[tx].phase.Ready?
    ensures SubjectsUnique(Committed(s, tx).identities)
  {
    assert TxOk(s, tx) && IssuerOk(s, s.open[tx]) && ClaimFree(s, s.open[tx]);
  }

  lemma CommitKeepsClaim(s: State, tx: int, other: int)
    requires Inv(s) && SubjectInv(s) && tx in s.open && s.open[tx].phase.Ready?
    requires other in s.open && other != tx
    ensures IssuerOk(Committed(s, tx), s.open[other]) && ClaimFree(Committed(s, tx), s.open[other])
  {
    assert TxOk(s, tx) && IssuerOk(s, s.open[tx]);
    assert TxOk(s, other) && IssuerOk(s, s.open[other]) && ClaimFree(s, s.open[other]);
    CommitEvolves(s, tx);
  }

  lemma CommitKeepsSubjects(s: State, tx: int)
    requires Inv(s) && SubjectInv(s)
    ensures SubjectInv(Next(s, Commit(tx)))
  {
    if tx in s.open && s.open[tx].phase.Ready? {
      CommitKeepsUnique(s, tx);
      var s' := Committed(s, tx);
      assert s'.open == s.open - {tx};
      forall other | other in s'.open ensures IssuerOk(s', s'.open[other]) && ClaimFree(s', s'.open[other]) {
        CommitKeepsClaim(s, tx, other);
      }
    }
  }

  lemma ProfileKeepsSubjects(s: State, id: int, issuer: string, subject: string)
    requires Inv(s) && SubjectInv(s)
    ensures SubjectInv(Next(s, UpdateProfile(id, issuer, subject)))
  {
    var s' := Next(s, UpdateProfile(id, issuer, subject));
    forall tx | tx in s'.open ensures IssuerOk(s', s'.open[tx]) && ClaimFree(s', s'.open[tx]) {
      assert IssuerOk(s, s.open[tx]) && ClaimFree(s, s.open[tx]);
    }
  }

  lemma CloseKeepsSubjects(s: State, tx: int)
    requires SubjectInv(s) && tx in s.open
    ensures SubjectInv(Close(s, tx))
  {
  }

  lemma LockKeepsSubjects(s: State, tx: int, call: Call)
    requires SubjectInv(s)
    ensures SubjectInv(Next(s, Lock(tx, call)))
  {
  }

  lemma FindKeepsSubjects(s: State, tx: int, found: Option<int>)
    requires SubjectInv(s)
    ensures SubjectInv(Next(s, Find(tx, found)))
  {
    var s' := Next(s, Find(tx, found));
    if tx in s.open && s' == Close(s, tx) {
      CloseKeepsSubjects(s, tx);
    } else if s' != s {
      MoveKeepsSubjects(s, s', tx);
    }
  }

  lemma StepKeepsSubjects(s: State, step: Step)
    requires Inv(s) && SubjectInv(s)
    ensures SubjectInv(Next(s, step))
  {
    match step
    case Statement(tx) =>
      if tx in s.open && s.open[tx].call.Provision? {
        ProvisionKeepsSubjects(s, tx);
      } else if tx in s.open && s.open[tx].phase.SubjectFree? {
        LinkWriteKeepsSubjects(s, tx);
      } else if tx in s.open {
        LinkReadKeepsSubjects(s, tx);
      }
    case Commit(tx) => CommitKeepsSubjects(s, tx);
    case UpdateProfile(id, issuer, subject) => ProfileKeepsSubjects(s, id, issuer, subject);
    case Lock(tx, call) => LockKeepsSubjects(s, tx, call);
    case Find(tx, found) => FindKeepsSubjects(s, tx, found);
    case Rollback(tx) => if tx in s.open { CloseKeepsSubjects(s, tx); }
  }

  /** In every interleaving an issuer's subject names at most one identity. */
  lemma {:induction false} SubjectsStayUnique(s: State, steps: seq<Step>)
    requires Initial(s) || (Inv(s) && SubjectInv(s))
    ensures SubjectsUnique(Execute(s, steps).identities)
    decreases |steps|
  {
    if Initial(s) {
      InitialInv(s);
    }
    if steps != [] {
      StepKeepsInv(s, steps[0]);
      StepKeepsSubjects(s, steps[0]);
      SubjectsStayUnique(Next(s, steps[0]), steps[1..]);
    }
  }

  /** No identity, user, role, audit row or report yet, and no call under way. */
  predicate Initial(s: State) {
    && s.identities == map[] && s.users == map[] && s.members == multiset{}
    && s.audits == [] && s.reports == [] && s.locks == map[] && s.open == map[]
  }

  lemma InitialInv(s: State)
    requires Initial(s)
    ensures Inv(s) && SubjectInv(s)
  {
  }

  // ---------------------------------------------------------------- conservation

  predicate Counts(r: Report, key: Key, changed: Action) {
    && r.call.key == key
    && match changed
       case JitProvisioned => r.call.Provision? && r.outcome == Created
       case Linked(outcome) => r.call.Link? && r.outcome == outcome
  }

  function Reported(reports: seq<Report>, key: Key, changed: Action): nat {
    if reports == [] then 0
    else Reported(reports[..|reports| - 1], key, changed) + (if Counts(reports[|reports| - 1], key, changed) then 1 else 0)
  }

  function Audited(audits: seq<Audit>, key: Key, action: Action): nat {
    if audits == [] then 0
    else
      var last := audits[|audits| - 1];
      Audited(audits[..|audits| - 1], key, action) + (if last.key == key && last.action == action then 1 else 0)
  }

  function UsersFor(users: map<int, Option<Key>>, key: Key): set<int> {
    set u | u in users && users[u] == Some(key)
  }

  /** How many calls reported that they created the identity of `key`. */
  function CreatedReports(s: State, key: Key): nat {
    Reported(s.reports, key, JitProvisioned) + Reported(s.reports, key, Linked(Created))
  }

  /** From s to t, the tables grew by exactly what the calls reported. */
  ghost predicate Accounted(s: State, t: State, key: Key) {
    && |IdsFor(t.identities, key)| - |IdsFor(s.identities, key)| == CreatedReports(t, key) - CreatedReports(s, key)
    && |UsersFor(t.users, key)| - |UsersFor(s.users, key)|
       == Reported(t.reports, key, JitProvisioned) - Reported(s.reports, key, JitProvisioned)
    && (forall a: Action :: a != Linked(AlreadyLinked) ==>
          Audited(t.audits, key, a) - Audited(s.audits, key, a) == Reported(t.reports, key, a) - Reported(s.reports, key, a))
  }

  lemma AppendReport(reports: seq<Report>, r: Report, key: Key, a: Action)
    ensures Reported(reports + [r], key, a) == Reported(reports, key, a) + (if Counts(r, key, a) then 1 else 0)
  {
    assert (reports + [r])[..|reports|] == reports;
  }

  lemma AppendAudit(audits: seq<Audit>, entry: Audit, key: Key, a: Action)
    ensures Audited(audits + [entry], key, a)
         == Audited(audits, key, a) + (if entry.key == key && entry.action == a then 1 else 0)
  {
    assert (audits + [entry])[..|audits|] == audits;
  }

  lemma CommitAddsIdentity(s: State, tx: int, key: Key)
    requires Inv(s) && tx in s.open && s.open[tx].phase.Ready?
    ensures var c := s.open[tx];
            var added := if c.phase.outcome == Created && c.call.key == key then {c.phase.id} else {};
            && added !! IdsFor(s.identities, key)
            && IdsFor(Committed(s, tx).identities, key) == IdsFor(s.identities, key) + added
  {
    CommitEvolves(s, tx);
    var c, t := s.open[tx], Committed(s, tx);
    var added := if c.phase.outcome == Created && c.call.key == key then {c.phase.id} else {};
    forall id ensures id in IdsFor(t.identities, key) <==> id in IdsFor(s.identities, key) + added {
    }
  }

  lemma CommitCountsIdentity(s: State, tx: int, key: Key)
    requires Inv(s) && tx in s.open && s.open[tx].phase.Ready?
    ensures var t := Committed(s, tx);
            |IdsFor(t.identities, key)| - |IdsFor(s.identities, key)| == CreatedReports(t, key) - CreatedReports(s, key)
  {
    CommitAddsIdentity(s, tx, key);
    var c := s.open[tx];
    var r := Report(c.call, c.phase.id, c.phase.user, c.phase.outcome);
    AppendReport(s.reports, r, key, JitProvisioned);
    AppendReport(s.reports, r, key, Linked(Created));
  }

  lemma CommitAddsUser(s: State, tx: int, key: Key)
    requires Inv(s) && tx in s.open && s.open[tx].phase.Ready?
    ensures var c := s.open[tx];
            var creates := c.call.Provision? && c.phase.outcome == Created && c.call.key == key;
            var added := if creates then {c.phase.user} else {};
            && added !! UsersFor(s.users, key)
            && UsersFor(Committed(s, tx).users, key) == UsersFor(s.users, key) + added
  {
    assert TxOk(s, tx);
    var c := s.open[tx];
    var creates := c.call.Provision? && c.phase.outcome == Created && c.call.key == key;
    var added := if creates then {c.phase.user} else {};
    forall u ensures u in UsersFor(Committed(s, tx).users, key) <==> u in UsersFor(s.users, key) + added {
    }
  }

  lemma CommitCountsUser(s: State, tx: int, key: Key)
    requires Inv(s) && tx in s.open && s.open[tx].phase.Ready?
    ensures var t := Committed(s, tx);
            |UsersFor(t.users, key)| - |UsersFor(s.users, key)|
            == Reported(t.reports, key, JitProvisioned) - Reported(s.reports, key, JitProvisioned)
  {
    var c := s.open[tx];
    AppendReport(s.reports, Report(c.call, c.phase.id, c.phase.user, c.phase.outcome), key, JitProvisioned);
    CommitAddsUser(s, tx, key);
  }

  /** A finished transaction audits exactly what it is about to report. */
  lemma AuditFitsReport(s: State, tx: int, key: Key, a: Action)
    requires Inv(s) && tx in s.open && s.open[tx].phase.Ready? && a != Linked(AlreadyLinked)
    ensures var c := s.open[tx];
            var audit := c.phase.audit;
            Counts(Report(c.call, c.phase.id, c.phase.user, c.phase.outcome), key, a)
            <==> audit.Some? && audit.value.key == key && audit.value.action == a
  {
    assert TxOk(s, tx);
  }

  lemma CommitCountsAudit(s: State, tx: int, key: Key, a: Action)
    requires Inv(s) && tx in s.open && s.open[tx].phase.Ready? && a != Linked(AlreadyLinked)
    ensures var t := Committed(s, tx);
            Audited(t.audits, key, a) - Audited(s.audits, key, a) == Reported(t.reports, key, a) - Reported(s.reports, key, a)
  {
    var c := s.open[tx];
    var report := Report(c.call, c.phase.id, c.phase.user, c.phase.outcome);
    AuditFitsReport(s, tx, key, a);
    AppendReport(s.reports, report, key, a);
    if c.phase.audit.Some? {
      AppendAudit(s.audits, c.phase.audit.value, key, a);
    }
  }

  lemma OnlyCommitsCount(s: State, step: Step, key: Key)
    requires !(step.Commit? && step.tx in s.open && s.open[step.tx].phase.Ready?)
    ensures var t := Next(s, step);
            && t.reports == s.reports && t.audits == s.audits && t.users == s.users
            && IdsFor(t.identities, key) == IdsFor(s.identities, key)
  {
    if step.Statement? {
      StatementIsPrivate(s, step.tx);
    } else if step.UpdateProfile? {
      var t := Next(s, step);
      forall id ensures id in IdsFor(t.identities, key) <==> id in IdsFor(s.identities, key) {
      }
    }
  }

  lemma StepAccounted(s: State, step: Step, key: Key)
    requires Inv(s)
    ensures Accounted(s, Next(s, step), key)
  {
    var t := Next(s, step);
    if step.Commit? && step.tx in s.open && s.open[step.tx].phase.Ready? {
      CommitCountsIdentity(s, step.tx, key);
      CommitCountsUser(s, step.tx, key);
      forall a: Action | a != Linked(AlreadyLinked)
        ensures Audited(t.audits, key, a) - Audited(s.audits, key, a) == Reported(t.reports, key, a) - Reported(s.reports, key, a)
      {
        CommitCountsAudit(s, step.tx, key, a);
      }
    } else {
      OnlyCommitsCount(s, step, key);
    }
  }

  /** Every interleaving accounts for every identity, user and audit row of every key. */
  lemma {:induction false} EverythingIsAccounted(s: State, steps: seq<Step>, key: Key)
    requires Inv(s)
    ensures Accounted(s, Execute(s, steps), key)
    decreases |steps|
  {
    if steps != [] {
      var t := Next(s, steps[0]);
      StepKeepsInv(s, steps[0]);
      StepAccounted(s, steps[0], key);
      EverythingIsAccounted(t, steps[1..], key);
    }
  }

  lemma AtMostOne(ids: Identities, key: Key)
    requires OnePerKey(ids)
    ensures |IdsFor(ids, key)| <= 1
    ensures forall id :: id in ids && ids[id].key == key ==> IdsFor(ids, key) == {id}
  {
    forall id | id in ids && ids[id].key == key ensures IdsFor(ids, key) == {id} {
      forall j ensures j in IdsFor(ids, key) <==> j in {id} {
      }
    }
    QueryOrder.SomeMember(IdsFor(ids, key));
  }

  /** Without a prior link, however many calls race for a key: if any of them succeeds,
      exactly one reports that it created the identity. A provisioning that did leaves one
      user with the member role once and one audit row. */
  lemma ExactlyOneCreates(s: State, steps: seq<Step>, key: Key)
    requires Inv(s) && s.reports == [] && IdsFor(s.identities, key) == {}
    ensures var t := Execute(s, steps);
            && CreatedReports(t, key) == |IdsFor(t.identities, key)| <= 1
            && (forall i :: 0 <= i < |t.reports| && t.reports[i].call.key == key ==>
                  CreatedReports(t, key) == 1 && IdsFor(t.identities, key) == {t.reports[i].id}
                  && t.identities[t.reports[i].id].user == t.reports[i].user)
            && |UsersFor(t.users, key)| - |UsersFor(s.users, key)| == Reported(t.reports, key, JitProvisioned)
            && Audited(t.audits, key, JitProvisioned) - Audited(s.audits, key, JitProvisioned)
               == Reported(t.reports, key, JitProvisioned)
            && (forall u :: u in UsersFor(t.users, key) ==> t.members[u] == 1)
  {
    var t := Execute(s, steps);
    LinksAreWriteOnce(s, steps);
    EverythingIsAccounted(s, steps, key);
    AtMostOne(t.identities, key);
    forall i | 0 <= i < |t.reports| && t.reports[i].call.key == key
      ensures IdsFor(t.identities, key) == {t.reports[i].id}
    {
      assert Has(t.identities, t.reports[i].id, key, t.reports[i].user);
    }
  }

  /** With no call under way, a login of the identity's issuer records its subject exactly
      when the identity has none or the same one and no other identity of the issuer has it. */
  lemma ProfileRecordsSubject(s: State, id: int, issuer: string, subject: string)
    requires s.open == map[]
    ensures var t := Next(s, UpdateProfile(id, issuer, subject));
            if id in s.identities && s.identities[id].issuer == issuer
               && (s.identities[id].subject == None || s.identities[id].subject == Some(subject))
               && (s.identities[id].subject == None ==>
                     forall i :: i in s.identities && s.identities[i].issuer == issuer ==> s.identities[i].subject != Some(subject))
            then t == s.(identities := s.identities[id := s.identities[id].(subject := Some(subject))])
            else t == s
  {
  }

  /** When the CLI's insert meets a conflict, its second look finds no identity: the lock
      leaves only the (issuer, subject) index to conflict with. */
  lemma SecondLookFindsNothing(s: State, tx: int, found: Option<int>)
    requires Inv(s) && tx in s.open && s.open[tx].phase.Conflicted?
    ensures Next(s, Find(tx, found)) == if found.None? then Close(s, tx) else s
  {
    assert TxOk(s, tx);
    var key := s.open[tx].call.key;
    forall id ensures id !in IdsFor(s.identities, key) {
    }
  }
}
