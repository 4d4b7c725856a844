/**
  Properties of the lifecycle that relate several calls: repeated transitions,
  what a soft delete leaves visible, the duplicate check of create, and the
  invariants every sequence of state-changing operations keeps.
 */
module LifecycleProperties {
  import opened Wrappers
  import opened Model
  import opened Authorization
  import opened Repository
  import opened Lifecycle

  // ---- Two-call sequences ----

  /** A second check-in by any permitted caller, administrators included, is a conflict. */
  lemma CheckInTwiceConflicts(t: Table, id: string, requester1: string, roles1: Roles, now1: Instant,
                              requester2: string, roles2: Roles, now2: Instant)
    requires Valid(t)
    requires CheckIn(t, id, requester1, roles1, now1).result.Ok?
    requires OwnerOrAdmin(t[id].userId, requester2, roles2)
    ensures var t1 := CheckIn(t, id, requester1, roles1, now1).table;
            CheckIn(t1, id, requester2, roles2, now2) == Outcome(Err(Conflict), t1)
  {
  }

  /** A second cancel by any permitted caller is a conflict. */
  lemma CancelTwiceConflicts(t: Table, id: string, requester1: string, roles1: Roles,
                             requester2: string, roles2: Roles)
    requires Valid(t)
    requires Cancel(t, id, requester1, roles1).result.Ok?
    requires OwnerOrAdmin(t[id].userId, requester2, roles2)
    ensures var t1 := Cancel(t, id, requester1, roles1).table;
            Cancel(t1, id, requester2, roles2) == Outcome(Err(Conflict), t1)
  {
  }

  /** Once checked in, a registration cannot be canceled by anyone permitted to try. */
  lemma CancelAfterCheckInConflicts(t: Table, id: string, requester1: string, roles1: Roles, now: Instant,
                                    requester2: string, roles2: Roles)
    requires Valid(t)
    requires CheckIn(t, id, requester1, roles1, now).result.Ok?
    requires OwnerOrAdmin(t[id].userId, requester2, roles2)
    ensures var t1 := CheckIn(t, id, requester1, roles1, now).table;
            Cancel(t1, id, requester2, roles2) == Outcome(Err(Conflict), t1)
  {
  }

  /** A logically deleted registration is still found by id, marked DELETED, and is
      absent from both active listings. */
  lemma DeleteKeepsRecord(t: Table, id: string, requester: string, roles: Roles, now: Instant,
                          reader: string, readerRoles: Roles)
    requires Valid(t)
    requires Delete(t, id, requester, roles, now).result.Ok?
    requires OwnerOrAdmin(t[id].userId, reader, readerRoles)
    ensures var t1 := Delete(t, id, requester, roles, now).table;
            var got := GetById(t1, id, reader, readerRoles);
            && got.Ok? && got.value.status == Some(Deleted) && got.value.deletedAt == Some(now)
            && got.value !in FindAllActive(t1)
            && got.value !in FindAllActiveByUserId(t1, t[id].userId.value)
  {
  }

  /** Delete has no guard: every permitted caller succeeds, whatever state the record is in. */
  lemma DeleteIsUnguarded(t: Table, id: string, requester: string, roles: Roles, now: Instant)
    requires Valid(t) && id in t
    requires OwnerOrAdmin(t[id].userId, requester, roles)
    ensures Delete(t, id, requester, roles, now).result == Ok(())
  {
  }

  /** Operations do not look at deletedAt: a soft-deleted registration can still be checked in. */
  lemma CheckInAfterDelete(t: Table, id: string, requester: string, roles: Roles, now1: Instant, now2: Instant)
    requires Valid(t) && id in t && t[id].checkIn.None?
    requires OwnerOrAdmin(t[id].userId, requester, roles)
    ensures var t1 := Delete(t, id, requester, roles, now1).table;
            var o := CheckIn(t1, id, requester, roles, now2);
            o.result.Ok? && o.result.value.status == Some(CheckedIn) && o.result.value.deletedAt == Some(now1)
  {
  }

  /** Update bypasses the guards: it can clear a check-in, after which check-in succeeds again. */
  lemma UpdateResetsCheckIn(t: Table, id: string, requester: string, roles: Roles, now1: Instant, now2: Instant)
    requires Valid(t)
    requires CheckIn(t, id, requester, roles, now1).result.Ok?
    ensures var t1 := CheckIn(t, id, requester, roles, now1).table;
            var t2 := Update(t1, id, None, Confirmed, requester, roles).table;
            var o := CheckIn(t2, id, requester, roles, now2);
            o.result.Ok? && o.result.value.checkIn == Some(now2)
  {
  }

  /** A caller who is neither the owner nor an administrator is denied by every per-record
      operation, and the table is left as it was. */
  lemma StrangerDenied(t: Table, id: string, requester: string, roles: Roles, now: Instant,
                       checkIn: Option<Instant>, status: Status)
    requires Valid(t) && id in t
    requires !IsAdmin(roles) && t[id].userId != Some(requester)
    ensures GetById(t, id, requester, roles) == Err(Denied)
    ensures Update(t, id, checkIn, status, requester, roles) == Outcome(Err(Denied), t)
    ensures CheckIn(t, id, requester, roles, now) == Outcome(Err(Denied), t)
    ensures Cancel(t, id, requester, roles) == Outcome(Err(Denied), t)
    ensures Delete(t, id, requester, roles, now) == Outcome(Err(Denied), t)
  {
  }

  // ---- The duplicate check of create ----

  /** At most one active, non-canceled registration per (user, event). */
  ghost predicate UniqueActive(t: Table)
  {
    forall j, k :: j in t && k in t && j != k && t[j].userId.Some? && t[j].eventId.Some?
      && ActiveFor(t[j], t[j].userId.value, t[j].eventId.value) && t[j].status != Some(Canceled)
      ==> !(ActiveFor(t[k], t[j].userId.value, t[j].eventId.value) && t[k].status != Some(Canceled))
  }

  /** Create as written never reports a conflict: a permitted caller always succeeds. */
  lemma CreateNeverConflicts(t: Table, eventId: string, userId: string, requester: string, roles: Roles, newId: string)
    requires Valid(t) && newId !in t
    requires OwnerOrAdmin(Some(userId), requester, roles)
    ensures Create(t, eventId, userId, requester, roles, newId).result.Ok?
  {
  }

  /** A concrete table on which create as written produces a second active, confirmed
      registration for the same user and event. */
  lemma CreateAllowsDuplicate()
    ensures var existing := Created("r1", "E1", "U1");
            var t := map["r1" := existing];
            && Valid(t) && UniqueActive(t) && AlreadyRegistered(t, "U1", "E1")
            && var o := Create(t, "E1", "U1", "U1", {}, "r2");
            && o.result.Ok?
            && !UniqueActive(o.table)
  {
    var existing := Created("r1", "E1", "U1");
    var t := map["r1" := existing];
    assert ActiveFor(t["r1"], "U1", "E1");
    var o := Create(t, "E1", "U1", "U1", {}, "r2");
    assert o.table["r2"] == Created("r2", "E1", "U1");
    assert ActiveFor(o.table["r2"], "U1", "E1");
  }

  /** When at most one active row exists for (user, event), so that the single-result
      query does not fail, the intended guard is exactly the source's test on the
      query's result: a row is found and its status is not CANCELED. */
  lemma AlreadyRegisteredIsQueryGuard(t: Table, userId: string, eventId: string)
    requires forall j, k :: j in t && k in t && ActiveFor(t[j], userId, eventId) && ActiveFor(t[k], userId, eventId) ==> j == k
    ensures var found := FindActiveByUserAndEventId(t, userId, eventId);
            AlreadyRegistered(t, userId, eventId) <==> found.Some? && found.value.status != Some(Canceled)
  {
    var found := FindActiveByUserAndEventId(t, userId, eventId);
    if found.Some? {
      var j :| j in t && t[j] == found.value;
      if AlreadyRegistered(t, userId, eventId) {
        var k :| k in t && ActiveFor(t[k], userId, eventId) && t[k].status != Some(Canceled);
        assert j == k;
      }
    }
  }

  /** With the intended check, a successful create keeps at most one active,
      non-canceled registration per (user, event). */
  lemma CreateIntendedKeepsUnique(t: Table, eventId: string, userId: string, requester: string, roles: Roles, newId: string)
    requires Valid(t) && newId !in t && UniqueActive(t)
    ensures UniqueActive(CreateIntended(t, eventId, userId, requester, roles, newId).table)
  {
    var o := CreateIntended(t, eventId, userId, requester, roles, newId);
    if o.result.Ok? {
      var t' := o.table;
      assert !AlreadyRegistered(t, userId, eventId);
      forall j, k | j in t' && k in t' && j != k && t'[j].userId.Some? && t'[j].eventId.Some?
          && ActiveFor(t'[j], t'[j].userId.value, t'[j].eventId.value) && t'[j].status != Some(Canceled)
        ensures !(ActiveFor(t'[k], t'[j].userId.value, t'[j].eventId.value) && t'[k].status != Some(Canceled))
      {
        if j == newId {
          assert k in t;
        } else if k == newId {
          assert j in t;
        }
      }
    }
  }

  /** After the user's only registration for an event is canceled, the intended create
      accepts a new one, with a new id and status CONFIRMED. */
  lemma ReRegisterAfterCancel(eventId: string, userId: string, firstId: string, secondId: string)
    requires firstId != secondId
    ensures var c1 := CreateIntended(map[], eventId, userId, userId, {}, firstId);
            && c1.result.Ok?
            && var c2 := Cancel(c1.table, firstId, userId, {});
            && c2.result.Ok?
            && var c3 := CreateIntended(c2.table, eventId, userId, userId, {}, secondId);
            && c3.result.Ok? && c3.result.value.id == Some(secondId) && c3.result.value.status == Some(Confirmed)
  {
    var c1 := CreateIntended(map[], eventId, userId, userId, {}, firstId);
    var c2 := Cancel(c1.table, firstId, userId, {});
    assert c2.table.Keys == {firstId};
    assert !AlreadyRegistered(c2.table, userId, eventId);
  }

  /** Check-in tests only checkIn, so a canceled registration that was never checked in
      can be checked in, and it becomes CHECKED_IN again. */
  lemma CheckInRevivesCanceled(t: Table, id: string, requester: string, roles: Roles, now: Instant)
    requires Valid(t) && id in t && t[id].status == Some(Canceled) && t[id].checkIn.None?
    requires OwnerOrAdmin(t[id].userId, requester, roles)
    ensures var o := CheckIn(t, id, requester, roles, now);
            o.result.Ok? && o.result.value.status == Some(CheckedIn)
  {
  }

  /** The intended create keeps uniqueness for its own step only: U1 registers for E1
      as r1, cancels it, registers again as r2, and then checks in r1, which leaves two
      active, non-canceled registrations of U1 for E1. */
  lemma UniqueActiveBrokenByCheckIn(now: Instant)
    ensures var c1 := CreateIntended(map[], "E1", "U1", "U1", {}, "r1");
            && c1.result.Ok?
            && var c2 := Cancel(c1.table, "r1", "U1", {});
            && c2.result.Ok?
            && var c3 := CreateIntended(c2.table, "E1", "U1", "U1", {}, "r2");
            && c3.result.Ok? && UniqueActive(c3.table)
            && var c4 := CheckIn(c3.table, "r1", "U1", {}, now);
            && c4.result.Ok? && !UniqueActive(c4.table)
  {
    var c1 := CreateIntended(map[], "E1", "U1", "U1", {}, "r1");
    var c2 := Cancel(c1.table, "r1", "U1", {});
    assert c2.table.Keys == {"r1"};
    assert !AlreadyRegistered(c2.table, "U1", "E1");
    var c3 := CreateIntended(c2.table, "E1", "U1", "U1", {}, "r2");
    CreateIntendedKeepsUnique(c2.table, "E1", "U1", "U1", {}, "r2");
    var c4 := CheckIn(c3.table, "r1", "U1", {}, now);
    assert c4.table["r2"] == c3.table["r2"];
    assert ActiveFor(c4.table["r1"], "U1", "E1") && ActiveFor(c4.table["r2"], "U1", "E1");
  }

  /** U1 registers for E1 and checks in; canceling is then a conflict, and so is a
      second check-in by an administrator. */
  lemma CheckedInScenario(id: string, now1: Instant, now2: Instant)
    ensures var c := Create(map[], "E1", "U1", "U1", {}, id);
            && c.result.Ok? && c.result.value.status == Some(Confirmed)
            && var ci := CheckIn(c.table, id, "U1", {}, now1);
            && ci.result.Ok? && ci.result.value.status == Some(CheckedIn) && ci.result.value.checkIn == Some(now1)
            && Cancel(ci.table, id, "U1", {}).result == Err(Conflict)
            && CheckIn(ci.table, id, "A", {Admin}, now2).result == Err(Conflict)
  {
  }

  // ---- Invariants of every sequence of state-changing operations ----

  datatype Op =
    | CreateOp(eventId: string, userId: string, requesterId: string, roles: Roles, newId: string)
    | UpdateOp(id: string, checkIn: Option<Instant>, status: Status, requesterId: string, roles: Roles)
    | CheckInOp(id: string, requesterId: string, roles: Roles, now: Instant)
    | CancelOp(id: string, requesterId: string, roles: Roles)
    | DeleteOp(id: string, requesterId: string, roles: Roles, now: Instant)

  /** An operation can occur in this state: a generated id is never already a key. */
  predicate Enabled(t: Table, op: Op)
  {
    op.CreateOp? ==> op.newId !in t
  }

  /** The table after one operation, whether it succeeded or failed. */
  function Step(t: Table, op: Op): (t': Table)
    requires Valid(t) && Enabled(t, op)
    ensures Valid(t')
  {
    match op
    case CreateOp(e, u, req, roles, newId) => Create(t, e, u, req, roles, newId).table
    case UpdateOp(id, c, s, req, roles) => Update(t, id, c, s, req, roles).table
    case CheckInOp(id, req, roles, now) => CheckIn(t, id, req, roles, now).table
    case CancelOp(id, req, roles) => Cancel(t, id, req, roles).table
    case DeleteOp(id, req, roles, now) => Delete(t, id, req, roles, now).table
  }

  ghost predicate Feasible(t: Table, ops: seq<Op>)
    decreases |ops|
  {
    Valid(t) && (ops != [] ==> Enabled(t, ops[0]) && Feasible(Step(t, ops[0]), ops[1..]))
  }

  ghost function Run(t: Table, ops: seq<Op>): Table
    requires Feasible(t, ops)
    decreases |ops|
  {
    if ops == [] then t else Run(Step(t, ops[0]), ops[1..])
  }

  /** How a table may evolve: no row disappears, no row changes its identity, and a
      soft-deleted row never becomes active again. */
  ghost predicate Evolves(t: Table, t': Table)
  {
    && t.Keys <= t'.Keys
    && (forall k :: k in t ==> SameIdentity(t[k], t'[k]))
    && (forall k :: k in t && !IsActive(t[k]) ==> !IsActive(t'[k]))
  }

  lemma StepEvolves(t: Table, op: Op)
    requires Valid(t) && Enabled(t, op)
    ensures Evolves(t, Step(t, op))
  {
  }

  lemma EvolvesTransitive(t1: Table, t2: Table, t3: Table)
    requires Evolves(t1, t2) && Evolves(t2, t3)
    ensures Evolves(t1, t3)
  {
  }

  /** Across any sequence of operations the table stays valid, rows are never removed,
      id/eventId/userId never change, and soft deletion is permanent. */
  lemma {:induction false} RunEvolves(t: Table, ops: seq<Op>)
    requires Feasible(t, ops)
    ensures Valid(Run(t, ops))
    ensures Evolves(t, Run(t, ops))
    decreases |ops|
  {
    if ops != [] {
      var t1 := Step(t, ops[0]);
      StepEvolves(t, ops[0]);
      RunEvolves(t1, ops[1..]);
      EvolvesTransitive(t, t1, Run(t1, ops[1..]));
    }
  }
}
