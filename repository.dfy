/**
  The registration repository: a keyed table of registrations, the three
  custom queries (pure filters over the table) and the inherited
  findById / save.
 */
module Repository {
  import opened Wrappers
  import opened Model

  type Table = map<string, Registration>

  /** What the table guarantees of its rows: each is stored under its own id
      and has the not-null columns filled in. */
  ghost predicate Valid(t: Table)
  {
    forall k :: k in t ==> t[k].id == Some(k) && Persistable(t[k])
  }

  /** A row owned by `userId` that has not been logically deleted. */
  predicate ActiveOf(r: Registration, userId: string)
  {
    r.userId == Some(userId) && IsActive(r)
  }

  /** Active and also for the given event. */
  predicate ActiveFor(r: Registration, userId: string, eventId: string)
  {
    ActiveOf(r, userId) && r.eventId == Some(eventId)
  }

  /** Inherited findById: a lookup by key that ignores deletedAt. */
  function FindById(t: Table, id: string): (r: Option<Registration>)
    ensures r.Some? <==> id in t
    ensures r.Some? ==> r.value == t[id]
  {
    if id in t then Some(t[id]) else None
  }

  /** All rows whose deletedAt is unset. */
  function FindAllActive(t: Table): (r: set<Registration>)
    ensures forall k :: k in t ==> (IsActive(t[k]) ==> t[k] in r)
    ensures forall x :: x in r ==> x in t.Values && IsActive(x)
  {
    set x | x in t.Values && IsActive(x)
  }

  /** All active rows of one user; always a subset of FindAllActive. */
  function FindAllActiveByUserId(t: Table, userId: string): (r: set<Registration>)
    ensures forall k :: k in t ==> (ActiveOf(t[k], userId) ==> t[k] in r)
    ensures forall x :: x in r ==> x in t.Values && ActiveOf(x, userId)
    ensures r <= FindAllActive(t)
  {
    set x | x in t.Values && ActiveOf(x, userId)
  }

  /** Some active row of the user for the event, or nothing when there is none. */
  ghost function FindActiveByUserAndEventId(t: Table, userId: string, eventId: string): (r: Option<Registration>)
    ensures r.None? <==> forall k :: k in t ==> !ActiveFor(t[k], userId, eventId)
    ensures r.Some? ==> r.value in t.Values && ActiveFor(r.value, userId, eventId)
  {
    if exists k :: k in t && ActiveFor(t[k], userId, eventId) then
      var k :| k in t && ActiveFor(t[k], userId, eventId);
      Some(t[k])
    else
      None
  }

  /** Inherited save: inserts or replaces the row under its id, and nothing else. */
  function Saved(t: Table, r: Registration): (t': Table)
    requires r.id.Some?
    ensures t'.Keys == t.Keys + {r.id.value}
    ensures t'[r.id.value] == r
    ensures forall k :: k in t && k != r.id.value ==> t'[k] == t[k]
  {
    t[r.id.value := r]
  }

  /** Saving a persistable row keeps the table valid. */
  lemma SavedValid(t: Table, r: Registration)
    requires Valid(t) && r.id.Some? && Persistable(r)
    ensures Valid(Saved(t, r))
  {
  }

  /** The shared table, written in place by save. */
  class RegistrationRepository {
    var table: Table

    constructor ()
      ensures table == map[]
    {
      table := map[];
    }

    method Save(r: Registration) returns (saved: Registration)
      requires r.id.Some?
      modifies this
      ensures table == Saved(old(table), r)
      ensures saved == r
    {
      table := table[r.id.value := r];
      saved := r;
    }
  }
}
