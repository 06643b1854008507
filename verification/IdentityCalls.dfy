/** Identity calls that run with nothing in their way: what each outcome of provisioning and
    of the CLI link writes, from the lock to the commit.
  */
module IdentityCalls {
  import opened Common
  import opened IdentityLinks

  lemma ExecuteFirst(s: State, step: Step, rest: seq<Step>)
    ensures Execute(s, [step] + rest) == Execute(Next(s, step), rest)
  {
    assert ([step] + rest)[1..] == rest;
  }

  /** `n` further statements of a transaction, then its commit. */
  function Finishing(tx: int, n: nat): seq<Step> {
    if n == 0 then [Commit(tx)] + [] else [Statement(tx)] + Finishing(tx, n - 1)
  }

  function Finished(s: State, tx: int, n: nat): State
    decreases n
  {
    if n == 0 then Next(s, Commit(tx)) else Finished(Next(s, Statement(tx)), tx, n - 1)
  }

  lemma {:induction false} ExecuteFinishing(s: State, tx: int, n: nat)
    ensures Execute(s, Finishing(tx, n)) == Finished(s, tx, n)
    decreases n
  {
    if n == 0 {
      ExecuteFirst(s, Commit(tx), []);
    } else {
      ExecuteFirst(s, Statement(tx), Finishing(tx, n - 1));
      ExecuteFinishing(Next(s, Statement(tx)), tx, n - 1);
    }
  }

  function Whole(tx: int, call: Call, found: Option<int>): seq<Step> {
    [Lock(tx, call)] + ([Find(tx, found)] + Finishing(tx, 4))
  }

  lemma WholeCall(s: State, tx: int, call: Call, found: Option<int>)
    ensures Execute(s, Whole(tx, call, found)) == Finished(Next(Next(s, Lock(tx, call)), Find(tx, found)), tx, 4)
  {
    var s1 := Next(s, Lock(tx, call));
    ExecuteFirst(s, Lock(tx, call), [Find(tx, found)] + Finishing(tx, 4));
    ExecuteFirst(s1, Find(tx, found), Finishing(tx, 4));
    ExecuteFinishing(Next(s1, Find(tx, found)), tx, 4);
  }

  predicate CanStart(s: State, tx: int, call: Call) {
    tx !in s.open && call.key !in s.locks
  }

  /** `s` with one more transaction under way, which took `users` and `ids` new ids. */
  function Amid(s: State, tx: int, c: Tx, users: nat, ids: nat): State {
    s.(locks := s.locks[c.call.key := tx], open := s.open[tx := c],
       nextUser := s.nextUser + users, nextIdentity := s.nextIdentity + ids)
  }

  lemma GoAmid(s: State, tx: int, c: Tx, users: nat, ids: nat, phase: Phase, write: Pending)
    ensures Go(Amid(s, tx, c, users, ids), tx, phase, write) == Amid(s, tx, Tx(c.call, phase, write), users, ids)
  {
    assert s.open[tx := c][tx := Tx(c.call, phase, write)] == s.open[tx := Tx(c.call, phase, write)];
  }

  lemma CloseAmid(s: State, tx: int, c: Tx, users: nat, ids: nat)
    requires CanStart(s, tx, c.call)
    ensures var t := Close(Amid(s, tx, c, users, ids), tx); t.open == s.open && t.locks == s.locks
  {
  }

  lemma BeginsAlone(s: State, tx: int, call: Call, found: Option<int>)
    requires CanStart(s, tx, call)
    requires if found.None? then IdsFor(s.identities, call.key) == {} else found.value in IdsFor(s.identities, call.key)
    ensures Next(Next(s, Lock(tx, call)), Find(tx, found))
         == Amid(s, tx, Tx(call, if found.None? then Absent else Existing(found.value, s.identities[found.value]), Nothing), 0, 0)
  {
    GoAmid(s, tx, Tx(call, Locked, Nothing), 0, 0,
           if found.None? then Absent else Existing(found.value, s.identities[found.value]), Nothing);
  }

  /** Nothing that the transaction has not written itself stands in the way of a subject. */
  lemma PendingAmid(s: State, tx: int, c: Tx, users: nat, ids: nat, issuer: string, subject: Option<string>)
    requires tx !in s.open && c.write.Nothing?
    ensures SubjectPending(Amid(s, tx, c, users, ids), issuer, subject) <==> SubjectPending(s, issuer, subject)
    ensures SubjectTaken(Amid(s, tx, c, users, ids), issuer, subject) <==> SubjectTaken(s, issuer, subject)
  {
    var a := Amid(s, tx, c, users, ids);
    assert forall ty :: ty in s.open ==> a.open[ty] == s.open[ty];
  }

  lemma FourStatements(a: State, b: State, c: State, d: State, e: State, tx: int)
    requires Next(a, Statement(tx)) == b && Next(b, Statement(tx)) == c
    requires Next(c, Statement(tx)) == d && Next(d, Statement(tx)) == e
    ensures Finished(a, tx, 4) == Next(e, Commit(tx))
  {
  }

  lemma ProvisionInsertsUser(s: State, tx: int, call: Call)
    requires call.Provision?
    ensures var absent, inserted := Tx(call, Absent, Nothing), Tx(call, UserInserted(s.nextUser), Nothing);
            var granted := Tx(call, MemberGranted(s.nextUser), Nothing);
            && Next(Amid(s, tx, absent, 0, 0), Statement(tx)) == Amid(s, tx, inserted, 1, 0)
            && Next(Amid(s, tx, inserted, 1, 0), Statement(tx)) == Amid(s, tx, granted, 1, 0)
  {
    var absent, inserted := Tx(call, Absent, Nothing), Tx(call, UserInserted(s.nextUser), Nothing);
    GoAmid(s, tx, absent, 0, 0, inserted.phase, Nothing);
    GoAmid(s, tx, inserted, 1, 0, MemberGranted(s.nextUser), Nothing);
  }

  lemma ProvisionInsertsIdentity(s: State, tx: int, call: Call)
    requires CanStart(s, tx, call) && call.Provision?
    requires !SubjectTaken(s, call.issuer, Some(call.subject)) && !SubjectPending(s, call.issuer, Some(call.subject))
    ensures var id, user := s.nextIdentity, s.nextUser;
            var granted := Tx(call, MemberGranted(user), Nothing);
            var write := NewIdentity(id, Identity(call.key, user, call.issuer, Some(call.subject)));
            var written := Tx(call, Written(Created, id, user), write);
            var ready := Tx(call, Ready(Created, id, user, Some(Audit(JitProvisioned, call.key, user))), write);
            && Next(Amid(s, tx, granted, 1, 0), Statement(tx)) == Amid(s, tx, written, 1, 1)
            && Next(Amid(s, tx, written, 1, 1), Statement(tx)) == Amid(s, tx, ready, 1, 1)
  {
    var id, user := s.nextIdentity, s.nextUser;
    var granted := Tx(call, MemberGranted(user), Nothing);
    var write := NewIdentity(id, Identity(call.key, user, call.issuer, Some(call.subject)));
    var written := Tx(call, Written(Created, id, user), write);
    PendingAmid(s, tx, granted, 1, 0, call.issuer, Some(call.subject));
    GoAmid(s, tx, granted, 1, 0, written.phase, write);
    GoAmid(s, tx, written, 1, 1, Ready(Created, id, user, Some(Audit(JitProvisioned, call.key, user))), write);
  }

  lemma ProvisionAlone(s: State, tx: int, call: Call)
    requires CanStart(s, tx, call) && call.Provision? && IdsFor(s.identities, call.key) == {}
    requires !SubjectTaken(s, call.issuer, Some(call.subject)) && !SubjectPending(s, call.issuer, Some(call.subject))
    ensures var id, user := s.nextIdentity, s.nextUser;
            Execute(s, Whole(tx, call, None))
            == s.(identities := s.identities[id := Identity(call.key, user, call.issuer, Some(call.subject))],
                  users := s.users[user := Some(call.key)], members := s.members + multiset{user},
                  audits := s.audits + [Audit(JitProvisioned, call.key, user)],
                  reports := s.reports + [Report(call, id, user, Created)],
                  nextUser := user + 1, nextIdentity := id + 1)
  {
    WholeCall(s, tx, call, None);
    BeginsAlone(s, tx, call, None);
    ProvisionInsertsUser(s, tx, call);
    ProvisionInsertsIdentity(s, tx, call);
    var id, user := s.nextIdentity, s.nextUser;
    var write := NewIdentity(id, Identity(call.key, user, call.issuer, Some(call.subject)));
    var ready := Tx(call, Ready(Created, id, user, Some(Audit(JitProvisioned, call.key, user))), write);
    FourStatements(Amid(s, tx, Tx(call, Absent, Nothing), 0, 0),
                   Amid(s, tx, Tx(call, UserInserted(user), Nothing), 1, 0),
                   Amid(s, tx, Tx(call, MemberGranted(user), Nothing), 1, 0),
                   Amid(s, tx, Tx(call, Written(Created, id, user), write), 1, 1),
                   Amid(s, tx, ready, 1, 1), tx);
    CloseAmid(s, tx, ready, 1, 1);
  }

  lemma {:induction false} ReadyOnlyCommits(s: State, tx: int, n: nat)
    requires tx in s.open ==> s.open[tx].phase.Ready?
    ensures Finished(s, tx, n) == Next(s, Commit(tx))
    decreases n
  {
    if n > 0 {
      ReadyOnlyCommits(s, tx, n - 1);
    }
  }

  predicate Conflicts(s: State, call: Call, row: Identity)
    requires call.Link?
  {
    || row.user != call.user
    || row.issuer != call.issuer
    || (call.requested.Some? && row.subject.Some? && row.subject != call.requested)
    || (row.subject.None? && SubjectTaken(s, call.issuer, call.requested))
  }

  lemma LinkConflictAlone(s: State, tx: int, call: Call, id: int)
    requires CanStart(s, tx, call) && call.Link? && id in IdsFor(s.identities, call.key)
    requires Conflicts(s, call, s.identities[id])
    ensures Execute(s, Whole(tx, call, Some(id))) == s
  {
    WholeCall(s, tx, call, Some(id));
    BeginsAlone(s, tx, call, Some(id));
    var c := Tx(call, Existing(id, s.identities[id]), Nothing);
    var a := Amid(s, tx, c, 0, 0);
    PendingAmid(s, tx, c, 0, 0, call.issuer, call.requested);
    CloseAmid(s, tx, c, 0, 0);
    assert Next(a, Statement(tx)) == Close(a, tx) == s;
    ReadyOnlyCommits(s, tx, 3);
  }

  lemma LinkAgainAlone(s: State, tx: int, call: Call, id: int)
    requires CanStart(s, tx, call) && call.Link? && id in IdsFor(s.identities, call.key)
    requires !Conflicts(s, call, s.identities[id]) && (s.identities[id].subject.Some? || call.requested.None?)
    ensures Execute(s, Whole(tx, call, Some(id)))
         == s.(reports := s.reports + [Report(call, id, call.user, AlreadyLinked)])
  {
    WholeCall(s, tx, call, Some(id));
    BeginsAlone(s, tx, call, Some(id));
    var c := Tx(call, Existing(id, s.identities[id]), Nothing);
    var ready := Tx(call, Ready(AlreadyLinked, id, call.user, None), Nothing);
    GoAmid(s, tx, c, 0, 0, ready.phase, Nothing);
    assert Next(Amid(s, tx, c, 0, 0), Statement(tx)) == Amid(s, tx, ready, 0, 0);
    ReadyOnlyCommits(Amid(s, tx, ready, 0, 0), tx, 3);
    CloseAmid(s, tx, ready, 0, 0);
  }

  /** The transaction writes, audits and is ready; `n` statements are left over. */
  lemma WrittenFinishes(s: State, tx: int, call: Call, outcome: Outcome, id: int, write: Pending, ids: nat, n: nat)
    requires CanStart(s, tx, call) && call.Link?
    ensures var t := Finished(Amid(s, tx, Tx(call, Written(outcome, id, call.user), write), 0, ids), tx, n + 1);
            t == s.(identities := WithWrite(s.identities, write), nextIdentity := s.nextIdentity + ids,
                    audits := s.audits + [Audit(Linked(outcome), call.key, call.user)],
                    reports := s.reports + [Report(call, id, call.user, outcome)])
  {
    var written := Tx(call, Written(outcome, id, call.user), write);
    var ready := Tx(call, Ready(outcome, id, call.user, Some(Audit(Linked(outcome), call.key, call.user))), write);
    GoAmid(s, tx, written, 0, ids, ready.phase, write);
    assert Next(Amid(s, tx, written, 0, ids), Statement(tx)) == Amid(s, tx, ready, 0, ids);
    ReadyOnlyCommits(Amid(s, tx, ready, 0, ids), tx, n);
    CloseAmid(s, tx, ready, 0, ids);
  }

  lemma LinkSubjectAlone(s: State, tx: int, call: Call, id: int)
    requires CanStart(s, tx, call) && call.Link? && id in IdsFor(s.identities, call.key)
    requires !Conflicts(s, call, s.identities[id]) && s.identities[id].subject.None? && call.requested.Some?
    requires !SubjectPending(s, call.issuer, call.requested)
    ensures var t := Execute(s, Whole(tx, call, Some(id)));
            t == s.(identities := s.identities[id := s.identities[id].(subject := call.requested)],
                    audits := s.audits + [Audit(Linked(SubjectAdded), call.key, call.user)],
                    reports := s.reports + [Report(call, id, call.user, SubjectAdded)])
  {
    WholeCall(s, tx, call, Some(id));
    BeginsAlone(s, tx, call, Some(id));
    var c := Tx(call, Existing(id, s.identities[id]), Nothing);
    var free := Tx(call, SubjectFree(Some(id)), Nothing);
    var write := NewSubject(id, call.requested.value);
    PendingAmid(s, tx, c, 0, 0, call.issuer, call.requested);
    PendingAmid(s, tx, free, 0, 0, call.issuer, call.requested);
    GoAmid(s, tx, c, 0, 0, free.phase, Nothing);
    GoAmid(s, tx, free, 0, 0, Written(SubjectAdded, id, call.user), write);
    assert Next(Amid(s, tx, c, 0, 0), Statement(tx)) == Amid(s, tx, free, 0, 0);
    assert Next(Amid(s, tx, free, 0, 0), Statement(tx))
        == Amid(s, tx, Tx(call, Written(SubjectAdded, id, call.user), write), 0, 0);
    WrittenFinishes(s, tx, call, SubjectAdded, id, write, 0, 1);
    assert Finished(Amid(s, tx, c, 0, 0), tx, 4) == Finished(Amid(s, tx, free, 0, 0), tx, 3);
  }

  lemma LinkTakenAlone(s: State, tx: int, call: Call)
    requires CanStart(s, tx, call) && call.Link? && IdsFor(s.identities, call.key) == {}
    requires SubjectTaken(s, call.issuer, call.requested)
    ensures Execute(s, Whole(tx, call, None)) == s
  {
    WholeCall(s, tx, call, None);
    BeginsAlone(s, tx, call, None);
    var c := Tx(call, Absent, Nothing);
    PendingAmid(s, tx, c, 0, 0, call.issuer, call.requested);
    CloseAmid(s, tx, c, 0, 0);
    assert Next(Amid(s, tx, c, 0, 0), Statement(tx)) == s;
    ReadyOnlyCommits(s, tx, 3);
  }

  lemma LinkNewAlone(s: State, tx: int, call: Call)
    requires CanStart(s, tx, call) && call.Link? && IdsFor(s.identities, call.key) == {}
    requires !SubjectTaken(s, call.issuer, call.requested) && !SubjectPending(s, call.issuer, call.requested)
    ensures Execute(s, Whole(tx, call, None))
         == s.(identities := s.identities[s.nextIdentity := Identity(call.key, call.user, call.issuer, call.requested)],
               nextIdentity := s.nextIdentity + 1,
               audits := s.audits + [Audit(Linked(Created), call.key, call.user)],
               reports := s.reports + [Report(call, s.nextIdentity, call.user, Created)])
  {
    WholeCall(s, tx, call, None);
    BeginsAlone(s, tx, call, None);
    var c, free := Tx(call, Absent, Nothing), Tx(call, SubjectFree(None), Nothing);
    PendingAmid(s, tx, c, 0, 0, call.issuer, call.requested);
    PendingAmid(s, tx, free, 0, 0, call.issuer, call.requested);
    var id := s.nextIdentity;
    var write := NewIdentity(id, Identity(call.key, call.user, call.issuer, call.requested));
    GoAmid(s, tx, c, 0, 0, free.phase, Nothing);
    GoAmid(s, tx, free, 0, 0, Written(Created, id, call.user), write);
    assert Next(Amid(s, tx, c, 0, 0), Statement(tx)) == Amid(s, tx, free, 0, 0);
    assert Next(Amid(s, tx, free, 0, 0), Statement(tx))
        == Amid(s, tx, Tx(call, Written(Created, id, call.user), write), 0, 1);
    WrittenFinishes(s, tx, call, Created, id, write, 1, 1);
    assert Finished(Amid(s, tx, c, 0, 0), tx, 4) == Finished(Amid(s, tx, free, 0, 0), tx, 3);
  }

  /** The unique index refuses the identity, and the transaction rolls back. */
  lemma ProvisionGivesUp(s: State, tx: int, call: Call)
    requires CanStart(s, tx, call) && call.Provision?
    requires SubjectTaken(s, call.issuer, Some(call.subject)) && !SubjectPending(s, call.issuer, Some(call.subject))
    ensures var granted, t := Tx(call, MemberGranted(s.nextUser), Nothing), s.(nextUser := s.nextUser + 1);
            Next(Amid(s, tx, granted, 1, 0), Statement(tx)) == t && Next(t, Statement(tx)) == t && Next(t, Commit(tx)) == t
  {
    var granted := Tx(call, MemberGranted(s.nextUser), Nothing);
    PendingAmid(s, tx, granted, 1, 0, call.issuer, Some(call.subject));
    CloseAmid(s, tx, granted, 1, 0);
  }

  lemma ProvisionTakenAlone(s: State, tx: int, call: Call)
    requires CanStart(s, tx, call) && call.Provision? && IdsFor(s.identities, call.key) == {}
    requires SubjectTaken(s, call.issuer, Some(call.subject)) && !SubjectPending(s, call.issuer, Some(call.subject))
    ensures Execute(s, Whole(tx, call, None)) == s.(nextUser := s.nextUser + 1)
  {
    WholeCall(s, tx, call, None);
    BeginsAlone(s, tx, call, None);
    ProvisionInsertsUser(s, tx, call);
    ProvisionGivesUp(s, tx, call);
    var t := s.(nextUser := s.nextUser + 1);
    FourStatements(Amid(s, tx, Tx(call, Absent, Nothing), 0, 0),
                   Amid(s, tx, Tx(call, UserInserted(s.nextUser), Nothing), 1, 0),
                   Amid(s, tx, Tx(call, MemberGranted(s.nextUser), Nothing), 1, 0), t, t, tx);
  }

  lemma ProvisionAgainAlone(s: State, tx: int, call: Call, id: int)
    requires CanStart(s, tx, call) && call.Provision? && id in IdsFor(s.identities, call.key)
    ensures Execute(s, Whole(tx, call, Some(id)))
         == s.(reports := s.reports + [Report(call, id, s.identities[id].user, AlreadyLinked)])
  {
    WholeCall(s, tx, call, Some(id));
    BeginsAlone(s, tx, call, Some(id));
    var c := Tx(call, Existing(id, s.identities[id]), Nothing);
    var ready := Tx(call, Ready(AlreadyLinked, id, s.identities[id].user, None), Nothing);
    GoAmid(s, tx, c, 0, 0, ready.phase, Nothing);
    assert Next(Amid(s, tx, c, 0, 0), Statement(tx)) == Amid(s, tx, ready, 0, 0);
    ReadyOnlyCommits(Amid(s, tx, ready, 0, 0), tx, 3);
    CloseAmid(s, tx, ready, 0, 0);
  }

  // ---------------------------------------------------------------- the sequential specification

  function SubjectOf(call: Call): Option<string> {
    if call.Provision? then Some(call.subject) else call.requested
  }

  /** What a call decides about the identity it found, if any; None is a conflict. */
  function Decision(s: State, call: Call, found: Option<int>): Option<Outcome>
    requires found.Some? ==> found.value in s.identities
  {
    if found.None? then
      if SubjectTaken(s, call.issuer, SubjectOf(call)) then None else Some(Created)
    else if call.Provision? then Some(AlreadyLinked)
    else if Conflicts(s, call, s.identities[found.value]) then None
    else if s.identities[found.value].subject.None? && call.requested.Some? then Some(SubjectAdded)
    else Some(AlreadyLinked)
  }

  /** The call as one step: one identity written, one user and member role for a new
      provisioned one, one audit row unless nothing changed, one report. A conflict leaves
      no row behind; a provisioning has used up a user id by then. */
  function Sequential(s: State, call: Call, found: Option<int>): State
    requires found.Some? ==> found.value in s.identities
  {
    var provisions := call.Provision? && found.None?;
    match Decision(s, call, found)
    case None => if provisions then s.(nextUser := s.nextUser + 1) else s
    case Some(outcome) =>
      var id := if found.Some? then found.value else s.nextIdentity;
      var user := if provisions then s.nextUser else if call.Link? then call.user else s.identities[id].user;
      var row := if found.Some? then s.identities[id] else Identity(call.key, user, call.issuer, None);
      s.(identities := if outcome == AlreadyLinked then s.identities else s.identities[id := row.(subject := SubjectOf(call))],
         users := if provisions then s.users[user := Some(call.key)] else s.users,
         members := if provisions then s.members + multiset{user} else s.members,
         audits := if outcome == AlreadyLinked then s.audits
                   else s.audits + [Audit(if provisions then JitProvisioned else Linked(outcome), call.key, user)],
         reports := s.reports + [Report(call, id, user, outcome)],
         nextUser := if provisions then s.nextUser + 1 else s.nextUser,
         nextIdentity := if outcome == Created then s.nextIdentity + 1 else s.nextIdentity)
  }

  /** The call reaches a write of a subject that another open transaction is writing. */
  predicate Hindered(s: State, call: Call, found: Option<int>)
    requires found.Some? ==> found.value in s.identities
  {
    && SubjectPending(s, call.issuer, SubjectOf(call))
    && ((call.Provision? && found.None?) || Decision(s, call, found) in {Some(Created), Some(SubjectAdded)})
  }

  /** Every call, provisioning or link, that runs from its lock to its commit without having
      to wait has exactly the effect of its sequential specification. */
  lemma CallAlone(s: State, tx: int, call: Call, found: Option<int>)
    requires CanStart(s, tx, call)
    requires if found.None? then IdsFor(s.identities, call.key) == {} else found.value in IdsFor(s.identities, call.key)
    requires !Hindered(s, call, found)
    ensures Execute(s, Whole(tx, call, found)) == Sequential(s, call, found)
  {
    if call.Provision? {
      if found.Some? {
        ProvisionAgainAlone(s, tx, call, found.value);
      } else if SubjectTaken(s, call.issuer, Some(call.subject)) {
        ProvisionTakenAlone(s, tx, call);
      } else {
        ProvisionAlone(s, tx, call);
      }
    } else {
      LinkAlone(s, tx, call, found);
    }
  }

  lemma LinkAlone(s: State, tx: int, call: Call, found: Option<int>)
    requires CanStart(s, tx, call) && call.Link?
    requires if found.None? then IdsFor(s.identities, call.key) == {} else found.value in IdsFor(s.identities, call.key)
    requires !Hindered(s, call, found)
    ensures Execute(s, Whole(tx, call, found)) == Sequential(s, call, found)
  {
    match Decision(s, call, found)
    case None =>
      if found.Some? {
        LinkConflictAlone(s, tx, call, found.value);
      } else {
        LinkTakenAlone(s, tx, call);
      }
    case Some(Created) => LinkNewAlone(s, tx, call);
    case Some(SubjectAdded) => LinkSubjectAlone(s, tx, call, found.value);
    case Some(AlreadyLinked) => LinkAgainAlone(s, tx, call, found.value);
  }

  /** What stands in the way of a call, spelled out: with no other call under way, no
      identity of the key and none of the issuer with the subject, it creates one. */
  lemma FreeCallCreates(s: State, tx: int, call: Call)
    requires s.open == map[] && s.locks == map[]
    requires forall id :: id in s.identities ==> s.identities[id].key != call.key
    requires forall id :: id in s.identities && s.identities[id].issuer == call.issuer ==>
               s.identities[id].subject.None? || s.identities[id].subject != (if call.Provision? then Some(call.subject) else call.requested)
    ensures var t := Execute(s, Whole(tx, call, None));
            var user := if call.Provision? then s.nextUser else call.user;
            && t.identities == s.identities[s.nextIdentity := Identity(call.key, user, call.issuer, if call.Provision? then Some(call.subject) else call.requested)]
            && t.reports == s.reports + [Report(call, s.nextIdentity, user, Created)]
            && |t.audits| == |s.audits| + 1
            && t.users == (if call.Provision? then s.users[user := Some(call.key)] else s.users)
  {
    forall id ensures id !in IdsFor(s.identities, call.key) {
    }
    CallAlone(s, tx, call, None);
  }

  /** And with an identity that has no subject yet, a link of the same user and issuer that
      brings one adds it if no identity of the issuer has it. */
  lemma FreeLinkAddsSubject(s: State, tx: int, call: Call, id: int)
    requires s.open == map[] && s.locks == map[] && call.Link? && call.requested.Some?
    requires id in s.identities && s.identities[id] == Identity(call.key, call.user, call.issuer, None)
    requires forall i :: i in s.identities && s.identities[i].issuer == call.issuer ==> s.identities[i].subject != call.requested
    ensures var t := Execute(s, Whole(tx, call, Some(id)));
            && t.identities == s.identities[id := Identity(call.key, call.user, call.issuer, call.requested)]
            && t.reports == s.reports + [Report(call, id, call.user, SubjectAdded)]
  {
    CallAlone(s, tx, call, Some(id));
  }
}
