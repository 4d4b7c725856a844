/**
  The registration service: an object holding the shared repository whose
  methods run, step by step, the operations that Lifecycle specifies. Time and
  the generated id are parameters: `now` for the clock, `newId` for the UUID.
 */
module Service {
  import opened Wrappers
  import opened Model
  import opened Authorization
  import opened Repository
  import opened Lifecycle

  class RegistrationService {
    const repository: RegistrationRepository

    constructor (repository: RegistrationRepository)
      ensures this.repository == repository
    {
      this.repository := repository;
    }

    method GetAllRegistrations(requesterId: string, requesterRoles: Roles)
      returns (r: Result<set<Registration>, ServiceError>)
      ensures r == GetAll(repository.table, requesterId, requesterRoles)
    {
      if !IsAdmin(requesterRoles) {
        return Err(Denied);
      }
      return Ok(FindAllActive(repository.table));
    }

    method GetRegistrationById(id: string, requesterId: string, requesterRoles: Roles)
      returns (r: Result<Registration, ServiceError>)
      ensures r == GetById(repository.table, id, requesterId, requesterRoles)
    {
      var found := FindById(repository.table, id);
      if found.None? {
        return Err(NotFound);
      }
      var registration := found.value;
      if !OwnerOrAdmin(registration.userId, requesterId, requesterRoles) {
        return Err(Denied);
      }
      return Ok(registration);
    }

    method GetAllRegistrationsByUser(userId: string, requesterId: string, requesterRoles: Roles)
      returns (r: Result<set<Registration>, ServiceError>)
      ensures r == GetAllByUser(repository.table, userId, requesterId, requesterRoles)
    {
      if !OwnerOrAdmin(Some(userId), requesterId, requesterRoles) {
        return Err(Denied);
      }
      return Ok(FindAllActiveByUserId(repository.table, userId));
    }

    method CreateRegistration(eventId: string, userId: string, requesterId: string, requesterRoles: Roles, newId: string)
      returns (r: Result<Registration, ServiceError>)
      requires Valid(repository.table) && newId !in repository.table
      modifies repository
      ensures Valid(repository.table)
      ensures var o := Create(old(repository.table), eventId, userId, requesterId, requesterRoles, newId);
              r == o.result && repository.table == o.table
    {
      if !OwnerOrAdmin(Some(userId), requesterId, requesterRoles) {
        return Err(Denied);
      }
      // The source's duplicate check is a stream that is never consumed: no step here.
      var registration := New();
      registration := SetId(registration, Some(newId));
      registration := SetUserId(registration, Some(userId));
      registration := SetEventId(registration, Some(eventId));
      registration := SetStatus(registration, Some(Confirmed));
      var saved := repository.Save(registration);
      return Ok(saved);
    }

    /** Create with the intended "already registered" conflict (see CreateIntended). */
    method CreateRegistrationIntended(eventId: string, userId: string, requesterId: string, requesterRoles: Roles, newId: string)
      returns (r: Result<Registration, ServiceError>)
      requires Valid(repository.table) && newId !in repository.table
      modifies repository
      ensures Valid(repository.table)
      ensures var o := CreateIntended(old(repository.table), eventId, userId, requesterId, requesterRoles, newId);
              r == o.result && repository.table == o.table
    {
      if !OwnerOrAdmin(Some(userId), requesterId, requesterRoles) {
        return Err(Denied);
      }
      if AlreadyRegistered(repository.table, userId, eventId) {
        return Err(Conflict);
      }
      var registration := New();
      registration := SetId(registration, Some(newId));
      registration := SetUserId(registration, Some(userId));
      registration := SetEventId(registration, Some(eventId));
      registration := SetStatus(registration, Some(Confirmed));
      var saved := repository.Save(registration);
      return Ok(saved);
    }

    method UpdateRegistration(checkIn: Option<Instant>, status: Status, id: string, requesterId: string, requesterRoles: Roles)
      returns (r: Result<Registration, ServiceError>)
      requires Valid(repository.table)
      modifies repository
      ensures Valid(repository.table)
      ensures var o := Update(old(repository.table), id, checkIn, status, requesterId, requesterRoles);
              r == o.result && repository.table == o.table
    {
      var found := FindById(repository.table, id);
      if found.None? {
        return Err(NotFound);
      }
      var registration := found.value;
      if !OwnerOrAdmin(registration.userId, requesterId, requesterRoles) {
        return Err(Denied);
      }
      registration := SetStatus(registration, Some(status));
      registration := SetCheckIn(registration, checkIn);
      var saved := repository.Save(registration);
      return Ok(saved);
    }

    method CheckInRegistration(id: string, requesterId: string, requesterRoles: Roles, now: Instant)
      returns (r: Result<Registration, ServiceError>)
      requires Valid(repository.table)
      modifies repository
      ensures Valid(repository.table)
      ensures var o := CheckIn(old(repository.table), id, requesterId, requesterRoles, now);
              r == o.result && repository.table == o.table
    {
      var found := FindById(repository.table, id);
      if found.None? {
        return Err(NotFound);
      }
      var registration := found.value;
      if !OwnerOrAdmin(registration.userId, requesterId, requesterRoles) {
        return Err(Denied);
      }
      if registration.checkIn.Some? {
        return Err(Conflict);
      }
      registration := SetCheckIn(registration, Some(now));
      registration := SetStatus(registration, Some(CheckedIn));
      var saved := repository.Save(registration);
      return Ok(saved);
    }

    method CancelRegistration(id: string, requesterId: string, requesterRoles: Roles)
      returns (r: Result<Registration, ServiceError>)
      requires Valid(repository.table)
      modifies repository
      ensures Valid(repository.table)
      ensures var o := Cancel(old(repository.table), id, requesterId, requesterRoles);
              r == o.result && repository.table == o.table
    {
      var found := FindById(repository.table, id);
      if found.None? {
        return Err(NotFound);
      }
      var registration := found.value;
      if !OwnerOrAdmin(registration.userId, requesterId, requesterRoles) {
        return Err(Denied);
      }
      if registration.checkIn.Some? {
        return Err(Conflict);
      }
      if registration.status == Some(Canceled) {
        return Err(Conflict);
      }
      registration := SetStatus(registration, Some(Canceled));
      var saved := repository.Save(registration);
      return Ok(saved);
    }

    method DeleteRegistration(id: string, requesterId: string, requesterRoles: Roles, now: Instant)
      returns (r: Result<(), ServiceError>)
      requires Valid(repository.table)
      modifies repository
      ensures Valid(repository.table)
      ensures var o := Delete(old(repository.table), id, requesterId, requesterRoles, now);
              r == o.result && repository.table == o.table
    {
      var found := FindById(repository.table, id);
      if found.None? {
        return Err(NotFound);
      }
      var registration := found.value;
      if !OwnerOrAdmin(registration.userId, requesterId, requesterRoles) {
        return Err(Denied);
      }
      registration := SetStatus(registration, Some(Deleted));
      registration := SetDeletedAt(registration, Some(now));
      var _ := repository.Save(registration);
      return Ok(());
    }
  }

  /** Check-in twice through the service object: the second call is a conflict, even for an administrator. */
  method CheckInTwice(service: RegistrationService, id: string, requesterId: string, now1: Instant, now2: Instant)
    returns (first: Result<Registration, ServiceError>, second: Result<Registration, ServiceError>)
    requires Valid(service.repository.table)
    modifies service.repository
    ensures first.Ok? ==> second == Err(Conflict)
  {
    first := service.CheckInRegistration(id, requesterId, {}, now1);
    second := service.CheckInRegistration(id, "admin", {Admin}, now2);
  }
}
