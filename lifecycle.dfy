/**
  The registration lifecycle as pure functions over the repository table, one
  per public operation of the registration service. Each per-record operation
  looks the record up, checks owner-or-admin, checks its transition guard,
  updates the record through the setters and saves it; a failure at any of
  these steps leaves the table as it was.
 */
module Lifecycle {
  import opened Wrappers
  import opened Model
  import opened Authorization
  import opened Repository

  /** RegistrationNotFoundException, AccessDeniedException, IllegalStateException. */
  datatype ServiceError = NotFound | Denied | Conflict

  /** What an operation returns or throws, and the table after it. */
  datatype Outcome<T> = Outcome(result: Result<T, ServiceError>, table: Table)

  /** List all active registrations; administrators only. */
  function GetAll(t: Table, requesterId: string, roles: Roles): (r: Result<set<Registration>, ServiceError>)
    ensures r == Err(Denied) <==> !IsAdmin(roles)
    ensures r.Ok? <==> IsAdmin(roles)
    ensures r.Ok? ==> r.value == FindAllActive(t)
  {
    if !IsAdmin(roles) then Err(Denied) else Ok(FindAllActive(t))
  }

  /** Get one registration by id: not-found first, then owner-or-admin. */
  function GetById(t: Table, id: string, requesterId: string, roles: Roles): (r: Result<Registration, ServiceError>)
    ensures r == Err(NotFound) <==> id !in t
    ensures r == Err(Denied) <==> id in t && !OwnerOrAdmin(t[id].userId, requesterId, roles)
    ensures r.Ok? <==> id in t && OwnerOrAdmin(t[id].userId, requesterId, roles)
    ensures r.Ok? ==> r.value == t[id]
  {
    match FindById(t, id)
    case None => Err(NotFound)
    case Some(registration) =>
      if !OwnerOrAdmin(registration.userId, requesterId, roles) then Err(Denied)
      else Ok(registration)
  }

  /** List the active registrations of one user; that user or an administrator only. */
  function GetAllByUser(t: Table, userId: string, requesterId: string, roles: Roles)
    : (r: Result<set<Registration>, ServiceError>)
    ensures r == Err(Denied) <==> !(IsAdmin(roles) || userId == requesterId)
    ensures r.Ok? <==> OwnerOrAdmin(Some(userId), requesterId, roles)
    ensures r.Ok? ==> r.value == FindAllActiveByUserId(t, userId)
  {
    if !OwnerOrAdmin(Some(userId), requesterId, roles) then Err(Denied)
    else Ok(FindAllActiveByUserId(t, userId))
  }

  /** The record a successful create stores under `newId`. */
  function Created(newId: string, eventId: string, userId: string): (r: Registration)
    ensures r.id == Some(newId) && r.eventId == Some(eventId) && r.userId == Some(userId)
    ensures r.status == Some(Confirmed) && r.checkIn.None? && r.deletedAt.None?
    ensures Persistable(r) && IsActive(r)
  {
    var r := New();
    var r := SetId(r, Some(newId));
    var r := SetUserId(r, Some(userId));
    var r := SetEventId(r, Some(eventId));
    SetStatus(r, Some(Confirmed))
  }

  /**
    Create, as the code behaves: owner-or-admin against the target user, then a
    new CONFIRMED record under the freshly generated id. The duplicate check in
    the source builds a stream that is never consumed, so it never fails.
   */
  function Create(t: Table, eventId: string, userId: string, requesterId: string, roles: Roles, newId: string)
    : (o: Outcome<Registration>)
    requires Valid(t) && newId !in t
    ensures o.result.Err? <==> !OwnerOrAdmin(Some(userId), requesterId, roles)
    ensures o.result.Err? ==> o.result.error == Denied && o.table == t
    ensures o.result.Ok? ==> o.result.value == Created(newId, eventId, userId)
    ensures o.result.Ok? ==> o.table.Keys == t.Keys + {newId} && o.table[newId] == o.result.value
    ensures forall k :: k in t ==> k in o.table && o.table[k] == t[k]
    ensures Valid(o.table)
  {
    if !OwnerOrAdmin(Some(userId), requesterId, roles) then Outcome(Err(Denied), t)
    else
      var registration := Created(newId, eventId, userId);
      Outcome(Ok(registration), Saved(t, registration))
  }

  /** There is an active registration of the user for the event that is not canceled. */
  predicate AlreadyRegistered(t: Table, userId: string, eventId: string)
  {
    exists k :: k in t && ActiveFor(t[k], userId, eventId) && t[k].status != Some(Canceled)
  }

  /**
    Create with the duplicate check the source evidently intends: a conflict when
    the user already holds an active, non-canceled registration for the event.
   */
  function CreateIntended(t: Table, eventId: string, userId: string, requesterId: string, roles: Roles, newId: string)
    : (o: Outcome<Registration>)
    requires Valid(t) && newId !in t
    ensures o.result == Err(Denied) <==> !OwnerOrAdmin(Some(userId), requesterId, roles)
    ensures o.result == Err(Conflict) <==>
              OwnerOrAdmin(Some(userId), requesterId, roles) && AlreadyRegistered(t, userId, eventId)
    ensures o.result.Ok? <==>
              OwnerOrAdmin(Some(userId), requesterId, roles) && !AlreadyRegistered(t, userId, eventId)
    ensures o.result.Err? ==> o.table == t
    ensures o.result.Ok? ==> o == Create(t, eventId, userId, requesterId, roles, newId)
    ensures Valid(o.table)
  {
    if !OwnerOrAdmin(Some(userId), requesterId, roles) then Outcome(Err(Denied), t)
    else if AlreadyRegistered(t, userId, eventId) then Outcome(Err(Conflict), t)
    else
      var registration := Created(newId, eventId, userId);
      Outcome(Ok(registration), Saved(t, registration))
  }

  /** Update: overwrite status and checkIn with the request's values, with no transition guard. */
  function Update(t: Table, id: string, checkIn: Option<Instant>, status: Status, requesterId: string, roles: Roles)
    : (o: Outcome<Registration>)
    requires Valid(t)
    ensures o.result == Err(NotFound) <==> id !in t
    ensures o.result == Err(Denied) <==> id in t && !OwnerOrAdmin(t[id].userId, requesterId, roles)
    ensures o.result.Ok? <==> id in t && OwnerOrAdmin(t[id].userId, requesterId, roles)
    ensures o.result.Err? ==> o.table == t
    ensures o.result.Ok? ==>
              var r := o.result.value;
              && r.status == Some(status) && r.checkIn == checkIn
              && r.(status := t[id].status, checkIn := t[id].checkIn) == t[id]
              && o.table == t[id := r]
    ensures Valid(o.table)
  {
    match FindById(t, id)
    case None => Outcome(Err(NotFound), t)
    case Some(registration) =>
      if !OwnerOrAdmin(registration.userId, requesterId, roles) then Outcome(Err(Denied), t)
      else
        var registration := SetStatus(registration, Some(status));
        var registration := SetCheckIn(registration, checkIn);
        Outcome(Ok(registration), Saved(t, registration))
  }

  /** Check-in: a conflict if checkIn is already set; otherwise record `now` and mark CHECKED_IN. */
  function CheckIn(t: Table, id: string, requesterId: string, roles: Roles, now: Instant): (o: Outcome<Registration>)
    requires Valid(t)
    ensures o.result == Err(NotFound) <==> id !in t
    ensures o.result == Err(Denied) <==> id in t && !OwnerOrAdmin(t[id].userId, requesterId, roles)
    ensures o.result == Err(Conflict) <==>
              id in t && OwnerOrAdmin(t[id].userId, requesterId, roles) && t[id].checkIn.Some?
    ensures o.result.Err? ==> o.table == t
    ensures o.result.Ok? ==>
              var r := o.result.value;
              && r.checkIn == Some(now) && r.status == Some(CheckedIn)
              && r.(checkIn := t[id].checkIn, status := t[id].status) == t[id]
              && o.table == t[id := r]
    ensures Valid(o.table)
  {
    match FindById(t, id)
    case None => Outcome(Err(NotFound), t)
    case Some(registration) =>
      if !OwnerOrAdmin(registration.userId, requesterId, roles) then Outcome(Err(Denied), t)
      else if registration.checkIn.Some? then Outcome(Err(Conflict), t)
      else
        var registration := SetCheckIn(registration, Some(now));
        var registration := SetStatus(registration, Some(CheckedIn));
        Outcome(Ok(registration), Saved(t, registration))
  }

  /** Cancel: a conflict after check-in (tested first) or when already canceled; otherwise mark CANCELED. */
  function Cancel(t: Table, id: string, requesterId: string, roles: Roles): (o: Outcome<Registration>)
    requires Valid(t)
    ensures o.result == Err(NotFound) <==> id !in t
    ensures o.result == Err(Denied) <==> id in t && !OwnerOrAdmin(t[id].userId, requesterId, roles)
    ensures o.result == Err(Conflict) <==>
              id in t && OwnerOrAdmin(t[id].userId, requesterId, roles)
              && (t[id].checkIn.Some? || t[id].status == Some(Canceled))
    ensures o.result.Err? ==> o.table == t
    ensures o.result.Ok? ==>
              var r := o.result.value;
              && r.status == Some(Canceled)
              && r.(status := t[id].status) == t[id]
              && o.table == t[id := r]
    ensures Valid(o.table)
  {
    match FindById(t, id)
    case None => Outcome(Err(NotFound), t)
    case Some(registration) =>
      if !OwnerOrAdmin(registration.userId, requesterId, roles) then Outcome(Err(Denied), t)
      else if registration.checkIn.Some? then Outcome(Err(Conflict), t)
      else if registration.status == Some(Canceled) then Outcome(Err(Conflict), t)
      else
        var registration := SetStatus(registration, Some(Canceled));
        Outcome(Ok(registration), Saved(t, registration))
  }

  /** Logical delete: no guard; mark DELETED, stamp deletedAt, and keep the row. */
  function Delete(t: Table, id: string, requesterId: string, roles: Roles, now: Instant): (o: Outcome<()>)
    requires Valid(t)
    ensures o.result == Err(NotFound) <==> id !in t
    ensures o.result == Err(Denied) <==> id in t && !OwnerOrAdmin(t[id].userId, requesterId, roles)
    ensures o.result.Ok? <==> id in t && OwnerOrAdmin(t[id].userId, requesterId, roles)
    ensures o.result.Err? ==> o.table == t
    ensures o.result.Ok? ==>
              && o.table.Keys == t.Keys
              && o.table[id].status == Some(Deleted) && o.table[id].deletedAt == Some(now)
              && o.table[id].(status := t[id].status, deletedAt := t[id].deletedAt) == t[id]
              && forall k :: k in t && k != id ==> o.table[k] == t[k]
    ensures Valid(o.table)
  {
    match FindById(t, id)
    case None => Outcome(Err(NotFound), t)
    case Some(registration) =>
      if !OwnerOrAdmin(registration.userId, requesterId, roles) then Outcome(Err(Denied), t)
      else
        var registration := SetStatus(registration, Some(Deleted));
        var registration := SetDeletedAt(registration, Some(now));
        Outcome(Ok(()), Saved(t, registration))
  }
}
