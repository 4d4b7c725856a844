/**
  The Registration entity: one row of the "registrations" table.
  Every field is a nullable Java reference, so each one is an Option here;
  the setters are functional updates that change exactly one field.
 */
module Model {
  import opened Wrappers

  /** The lifecycle states a registration can be in. */
  datatype Status = Confirmed | CheckedIn | Canceled | Deleted

  /** A point in time; the model never interprets it. */
  type Instant = int

  datatype Registration = Registration(
    id: Option<string>,
    eventId: Option<string>,
    userId: Option<string>,
    checkIn: Option<Instant>,
    status: Option<Status>,
    createdAt: Option<Instant>,
    updatedAt: Option<Instant>,
    deletedAt: Option<Instant>)

  /** The columns declared `nullable = false` that the service itself must fill in. */
  predicate Persistable(r: Registration)
  {
    r.id.Some? && r.eventId.Some? && r.userId.Some? && r.status.Some?
  }

  /** A registration is active while it has not been logically deleted. */
  predicate IsActive(r: Registration)
  {
    r.deletedAt.None?
  }

  /** The immutable identity of a registration: its id and the two foreign references. */
  predicate SameIdentity(a: Registration, b: Registration)
  {
    a.id == b.id && a.eventId == b.eventId && a.userId == b.userId
  }

  /** The no-argument constructor: every field is left unset. */
  function New(): (r: Registration)
    ensures r.id.None? && r.eventId.None? && r.userId.None? && r.status.None?
    ensures r.checkIn.None? && r.createdAt.None? && r.updatedAt.None? && r.deletedAt.None?
    ensures !Persistable(r)
  {
    Registration(None, None, None, None, None, None, None, None)
  }

  // Each setter below promises two things: reading the field afterwards gives the value
  // just set, and putting the old value back gives the original record, so no other
  // field was touched.

  function SetId(r: Registration, id: Option<string>): (r': Registration)
    ensures r'.id == id
    ensures r'.(id := r.id) == r
  {
    r.(id := id)
  }

  function SetEventId(r: Registration, eventId: Option<string>): (r': Registration)
    ensures r'.eventId == eventId
    ensures r'.(eventId := r.eventId) == r
  {
    r.(eventId := eventId)
  }

  function SetUserId(r: Registration, userId: Option<string>): (r': Registration)
    ensures r'.userId == userId
    ensures r'.(userId := r.userId) == r
  {
    r.(userId := userId)
  }

  function SetCheckIn(r: Registration, checkIn: Option<Instant>): (r': Registration)
    ensures r'.checkIn == checkIn
    ensures r'.(checkIn := r.checkIn) == r
    ensures SameIdentity(r, r')
  {
    r.(checkIn := checkIn)
  }

  function SetStatus(r: Registration, status: Option<Status>): (r': Registration)
    ensures r'.status == status
    ensures r'.(status := r.status) == r
    ensures SameIdentity(r, r')
  {
    r.(status := status)
  }

  function SetCreatedAt(r: Registration, createdAt: Option<Instant>): (r': Registration)
    ensures r'.createdAt == createdAt
    ensures r'.(createdAt := r.createdAt) == r
  {
    r.(createdAt := createdAt)
  }

  function SetUpdatedAt(r: Registration, updatedAt: Option<Instant>): (r': Registration)
    ensures r'.updatedAt == updatedAt
    ensures r'.(updatedAt := r.updatedAt) == r
  {
    r.(updatedAt := updatedAt)
  }

  function SetDeletedAt(r: Registration, deletedAt: Option<Instant>): (r': Registration)
    ensures r'.deletedAt == deletedAt
    ensures r'.(deletedAt := r.deletedAt) == r
    ensures SameIdentity(r, r')
  {
    r.(deletedAt := deletedAt)
  }
}
