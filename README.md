# Registration lifecycle (servico-inscricoes) in Dafny

This project models the core of the event-registration service: the
`RegistrationService` lifecycle of a `Registration` (create, look up, list,
update, check-in, cancel, logical delete), the repository it reads and writes,
and the `Registration` entity with its setters.

- `wrappers.dfy` — `Option` (a nullable Java reference) and `Result`.
- `registration.dfy` (module `Model`) — the `Status` enum, the `Registration`
  entity with every field optional, the empty constructor `New` and one setter
  per field.
- `authorization.dfy` (module `Authorization`) — the policy the service relies on:
  `IsAdmin(roles)` and `OwnerOrAdmin(owner, requester, roles)`, defined as
  administrator or owner. Roles are a set of tokens with a distinct `Admin` token.
- `repository.dfy` (module `Repository`) — the table `map<string, Registration>`,
  its invariant `Valid` (each row is stored under its own id and has `id`,
  `eventId`, `userId` and `status` set; the not-null timestamp columns are not
  required, since the model does not assign them), the three queries, `findById`, and `save`. Save is a
  pure function `Saved` and also the in-place method of class
  `RegistrationRepository`.
- `lifecycle.dfy` (module `Lifecycle`) — one pure function per service operation.
  Each returns the result or the error (`NotFound`, `Denied`, `Conflict`) together
  with the table afterwards. Their contracts state the error conditions in the
  order the code checks them, the new record, and that a failure changes nothing.
- `service.dfy` (module `Service`) — class `RegistrationService`, which holds the
  repository. Its methods run each operation step by step: find by id, check
  owner-or-admin, check the guard, call the setters, save. Each method's
  postcondition ties its result and the new table to the matching `Lifecycle`
  function.
- `properties.dfy` (module `LifecycleProperties`) — these lemmas:
  - two-call sequences: check-in twice, cancel twice, cancel after check-in;
  - delete then get;
  - a stranger is denied by every per-record operation;
  - the create duplicate check;
  - an induction over any sequence of operations: rows are never removed,
    `id`/`eventId`/`userId` never change, and a soft delete is permanent.

The clock (`Instant.now()`) is a `now` parameter. The generated UUID is a `newId`
parameter that must not already be a key.

Facts about the code that the lemmas make explicit:
- `createRegistration` never reports "already registered" (see Findings).
  `CreateIntended` and `CreateRegistrationIntended` are the corrected variant,
  clearly separated. `Create` and `CreateRegistration` model the code as written.
- `checkIn` can be reassigned or cleared: `updateRegistration` overwrites it with
  the request's value (`UpdateResetsCheckIn`).
- Operations other than the listings ignore `deletedAt`, so a soft-deleted
  registration can still be checked in, canceled or updated (`CheckInAfterDelete`).
- Check-in tests only `checkIn`, so a canceled registration that was never checked
  in can be checked in and becomes CHECKED_IN (`CheckInRevivesCanceled`). The
  corrected create therefore keeps "at most one active, non-canceled registration
  per user and event" for its own step only, not across the lifecycle
  (`UniqueActiveBrokenByCheckIn`).

## Model

| member | source | states |
|---|---|---|
| Model.New | src/main/java/com/sistemaEventos/servico_inscricoes/model/Registration.java:58 | a freshly constructed registration has every field unset, so it is not yet persistable |
| Model.SetId | src/main/java/com/sistemaEventos/servico_inscricoes/model/Registration.java:66-68 | reading id after setId gives the value set; every other field keeps its value |
| Model.SetEventId | src/main/java/com/sistemaEventos/servico_inscricoes/model/Registration.java:74-76 | reading eventId after setEventId gives the value set; no other field changes |
| Model.SetUserId | src/main/java/com/sistemaEventos/servico_inscricoes/model/Registration.java:82-84 | reading userId after setUserId gives the value set; no other field changes |
| Model.SetCheckIn | src/main/java/com/sistemaEventos/servico_inscricoes/model/Registration.java:90-92 | reading checkIn after setCheckIn gives the value set; no other field changes, identity kept |
| Model.SetStatus | src/main/java/com/sistemaEventos/servico_inscricoes/model/Registration.java:98-100 | reading status after setStatus gives the value set; no other field changes, identity kept |
| Model.SetCreatedAt | src/main/java/com/sistemaEventos/servico_inscricoes/model/Registration.java:106-108 | reading createdAt after its setter gives the value set; no other field changes |
| Model.SetUpdatedAt | src/main/java/com/sistemaEventos/servico_inscricoes/model/Registration.java:114-116 | reading updatedAt after its setter gives the value set; no other field changes |
| Model.SetDeletedAt | src/main/java/com/sistemaEventos/servico_inscricoes/model/Registration.java:122-124 | reading deletedAt after its setter gives the value set; no other field changes, identity kept |
| Repository.FindById | src/main/java/com/sistemaEventos/servico_inscricoes/repository/RegistrationRepository.java:11 | finds a row exactly when its key is present, whatever its deletedAt, and returns the stored row |
| Repository.FindAllActive | src/main/java/com/sistemaEventos/servico_inscricoes/repository/RegistrationRepository.java:17-18 | exactly the stored rows whose deletedAt is unset |
| Repository.FindAllActiveByUserId | src/main/java/com/sistemaEventos/servico_inscricoes/repository/RegistrationRepository.java:27-28 | exactly the stored rows of that user with deletedAt unset; a subset of FindAllActive |
| Repository.FindActiveByUserAndEventId | src/main/java/com/sistemaEventos/servico_inscricoes/repository/RegistrationRepository.java:30-31 | a stored active row of that user for that event, or nothing exactly when there is none |
| Repository.Saved | src/main/java/com/sistemaEventos/servico_inscricoes/repository/RegistrationRepository.java:11 | save inserts or replaces the row under its id and leaves every other key and row unchanged |
| Repository.SavedValid | src/main/java/com/sistemaEventos/servico_inscricoes/model/Registration.java:29-44 | saving a row with id, eventId, userId and status set keeps the table's key and not-null invariant |
| Repository.RegistrationRepository.Save | src/main/java/com/sistemaEventos/servico_inscricoes/repository/RegistrationRepository.java:11 | the shared table becomes Saved(old table, row) and the saved row is returned |
| Lifecycle.GetAll | src/main/java/com/sistemaEventos/servico_inscricoes/service/RegistrationService.java:41-45 | Denied exactly for non-administrators; otherwise the active rows; the table is untouched |
| Lifecycle.GetById | src/main/java/com/sistemaEventos/servico_inscricoes/service/RegistrationService.java:59-66 | NotFound exactly for an absent id (before authorization); Denied exactly for a present row whose owner is not the caller and caller not admin; otherwise the stored row |
| Lifecycle.GetAllByUser | src/main/java/com/sistemaEventos/servico_inscricoes/service/RegistrationService.java:79-83 | Denied exactly when the caller is neither that user nor admin; otherwise that user's active rows |
| Lifecycle.Created | src/main/java/com/sistemaEventos/servico_inscricoes/service/RegistrationService.java:110-114 | the new record has the generated id, the request's userId and eventId, status CONFIRMED, checkIn and deletedAt unset |
| Lifecycle.Create | src/main/java/com/sistemaEventos/servico_inscricoes/service/RegistrationService.java:98-117 | authorized against the request's userId; among the three error kinds fails only with Denied, and then changes nothing; on success the table gains exactly the new record under the fresh id and every existing row is unchanged |
| Lifecycle.CreateIntended | src/main/java/com/sistemaEventos/servico_inscricoes/service/RegistrationService.java:101-108 | corrected create: Denied as above, Conflict exactly when an active non-canceled row for (user, event) exists, otherwise the same success as Create |
| Lifecycle.Update | src/main/java/com/sistemaEventos/servico_inscricoes/service/RegistrationService.java:132-142 | NotFound, then Denied, before any change; never Conflict; on success status and checkIn take the request's values and every other field is unchanged |
| Lifecycle.CheckIn | src/main/java/com/sistemaEventos/servico_inscricoes/service/RegistrationService.java:157-172 | NotFound, Denied, then Conflict exactly when checkIn is already set, with the table unchanged; on success checkIn = now and status CHECKED_IN, nothing else changes |
| Lifecycle.Cancel | src/main/java/com/sistemaEventos/servico_inscricoes/service/RegistrationService.java:185-202 | NotFound, Denied, then Conflict exactly when checked in or already canceled; on success only status changes, to CANCELED |
| Lifecycle.Delete | src/main/java/com/sistemaEventos/servico_inscricoes/service/RegistrationService.java:213-222 | NotFound, then Denied, no other guard; on success the row stays under its key with status DELETED and deletedAt = now, nothing else changes |
| Service.RegistrationService.GetAllRegistrations | src/main/java/com/sistemaEventos/servico_inscricoes/service/RegistrationService.java:41-45 | returns what Lifecycle.GetAll gives for the current table, without modifying it |
| Service.RegistrationService.GetRegistrationById | src/main/java/com/sistemaEventos/servico_inscricoes/service/RegistrationService.java:59-66 | returns what Lifecycle.GetById gives for the current table, without modifying it |
| Service.RegistrationService.GetAllRegistrationsByUser | src/main/java/com/sistemaEventos/servico_inscricoes/service/RegistrationService.java:79-83 | returns what Lifecycle.GetAllByUser gives for the current table, without modifying it |
| Service.RegistrationService.CreateRegistration | src/main/java/com/sistemaEventos/servico_inscricoes/service/RegistrationService.java:98-117 | result and new table are those of Lifecycle.Create on the old table; the table invariant is kept |
| Service.RegistrationService.CreateRegistrationIntended | src/main/java/com/sistemaEventos/servico_inscricoes/service/RegistrationService.java:101-108 | result and new table are those of Lifecycle.CreateIntended on the old table |
| Service.RegistrationService.UpdateRegistration | src/main/java/com/sistemaEventos/servico_inscricoes/service/RegistrationService.java:132-142 | result and new table are those of Lifecycle.Update on the old table |
| Service.RegistrationService.CheckInRegistration | src/main/java/com/sistemaEventos/servico_inscricoes/service/RegistrationService.java:157-172 | result and new table are those of Lifecycle.CheckIn on the old table |
| Service.RegistrationService.CancelRegistration | src/main/java/com/sistemaEventos/servico_inscricoes/service/RegistrationService.java:185-202 | result and new table are those of Lifecycle.Cancel on the old table |
| Service.RegistrationService.DeleteRegistration | src/main/java/com/sistemaEventos/servico_inscricoes/service/RegistrationService.java:213-222 | result and new table are those of Lifecycle.Delete on the old table |
| Service.CheckInTwice | src/main/java/com/sistemaEventos/servico_inscricoes/service/RegistrationService.java:164-166 | through the service object, a successful check-in followed by an administrator's check-in gives Conflict |
| LifecycleProperties.CheckInTwiceConflicts | src/main/java/com/sistemaEventos/servico_inscricoes/service/RegistrationService.java:164-172 | after a successful check-in, a second one by any permitted caller (admin included) is Conflict and changes nothing |
| LifecycleProperties.CancelTwiceConflicts | src/main/java/com/sistemaEventos/servico_inscricoes/service/RegistrationService.java:195-199 | after a successful cancel, a second cancel by any permitted caller is Conflict and changes nothing |
| LifecycleProperties.CancelAfterCheckInConflicts | src/main/java/com/sistemaEventos/servico_inscricoes/service/RegistrationService.java:191-193 | after a successful check-in, cancel by any permitted caller is Conflict and changes nothing |
| LifecycleProperties.DeleteKeepsRecord | src/main/java/com/sistemaEventos/servico_inscricoes/service/RegistrationService.java:213-222 | after delete, get by id still returns the row with status DELETED and deletedAt set, and neither active listing contains it |
| LifecycleProperties.DeleteIsUnguarded | src/main/java/com/sistemaEventos/servico_inscricoes/service/RegistrationService.java:217-221 | delete succeeds for every permitted caller whatever the row's status, checkIn or deletedAt |
| LifecycleProperties.CheckInAfterDelete | src/main/java/com/sistemaEventos/servico_inscricoes/service/RegistrationService.java:164-169 | check-in ignores deletedAt: a soft-deleted, not checked-in row can be checked in and stays deleted |
| LifecycleProperties.UpdateResetsCheckIn | src/main/java/com/sistemaEventos/servico_inscricoes/service/RegistrationService.java:138-139 | update can clear checkIn after a check-in, after which check-in succeeds again |
| LifecycleProperties.StrangerDenied | src/main/java/com/sistemaEventos/servico_inscricoes/service/RegistrationService.java:59-222 | a caller who is neither owner nor admin gets Denied from get, update, check-in, cancel and delete, with the table unchanged |
| LifecycleProperties.CreateNeverConflicts | src/main/java/com/sistemaEventos/servico_inscricoes/service/RegistrationService.java:101-108 | create as written succeeds for every permitted caller, even when an active non-canceled row for the pair exists |
| LifecycleProperties.CreateAllowsDuplicate | src/main/java/com/sistemaEventos/servico_inscricoes/service/RegistrationService.java:101-108 | on a table with one confirmed registration of U1 for E1, create as written yields a second active confirmed one |
| LifecycleProperties.AlreadyRegisteredIsQueryGuard | src/main/java/com/sistemaEventos/servico_inscricoes/service/RegistrationService.java:101-105 | when at most one active row matches the pair, the corrected guard holds exactly when the query finds a row whose status is not CANCELED |
| LifecycleProperties.CreateIntendedKeepsUnique | src/main/java/com/sistemaEventos/servico_inscricoes/service/RegistrationService.java:101-108 | the corrected create keeps at most one active non-canceled registration per (user, event) |
| LifecycleProperties.ReRegisterAfterCancel | src/main/java/com/sistemaEventos/servico_inscricoes/service/RegistrationService.java:98-117 | create, cancel, then the corrected create again succeeds with the new id and status CONFIRMED |
| LifecycleProperties.CheckInRevivesCanceled | src/main/java/com/sistemaEventos/servico_inscricoes/service/RegistrationService.java:164-169 | a canceled, never checked-in registration is checked in by any permitted caller and becomes CHECKED_IN |
| LifecycleProperties.UniqueActiveBrokenByCheckIn | src/main/java/com/sistemaEventos/servico_inscricoes/service/RegistrationService.java:164-169 | create r1, cancel r1, corrected create r2 keeps uniqueness, but then checking in r1 leaves two active non-canceled registrations for U1/E1 |
| LifecycleProperties.CheckedInScenario | src/main/java/com/sistemaEventos/servico_inscricoes/service/RegistrationService.java:157-202 | U1 creates for E1 (CONFIRMED) and checks in (CHECKED_IN, checkIn set); U1's cancel and an admin's check-in are both Conflict |
| LifecycleProperties.StepEvolves | src/main/java/com/sistemaEventos/servico_inscricoes/model/Registration.java:30-37 | one operation of any kind keeps every row, its id/eventId/userId, and its deletedAt once set |
| LifecycleProperties.RunEvolves | src/main/java/com/sistemaEventos/servico_inscricoes/model/Registration.java:30-37 | across any sequence of operations the table stays valid, rows are never removed, id/eventId/userId never change and soft deletion is permanent |

## Left out

- HTTP routing, header extraction and status codes (the controller), the Spring Boot bootstrap, the DTO records and the error-response record. The DTO fields appear only as method parameters.
- The authorization helper's code and its parsing of the role header are not part of this model. Roles are a set of tokens with one administrator token, and the two checks are predicates.
- Hibernate's `@CreationTimestamp`/`@UpdateTimestamp`, which fill in `createdAt` and `updatedAt` on save: the model does not assign them. A created record has both unset, every other operation keeps them unchanged, and `save` returns the record as given.
- Lifecycle.Create: the source runs `findActiveByUserAndEventId` before creating, and that single-result query throws when two or more active rows match the user and event; the model does not run it, so on such a table it returns Ok and saves the new record where the source fails and saves nothing. A null `userId` or `eventId` in the request, which fails at save against the not-null columns, is not modelled either: both are non-null strings here.
- LifecycleProperties.CreateNeverConflicts: success for every permitted caller does not cover the two failures above (a table with two or more active rows for the pair, a null `userId` or `eventId`), which the model does not represent.
- `@SQLDelete`: it only affects `deleteById`, which the service never calls.
- JPA dirty checking of managed entities. A modified record reaches the table only through `save`, as the service's code does.
- The clock and UUID generation. Both are parameters; a generated id is assumed not to be a key already.
- Repository.FindActiveByUserAndEventId: when more than one row matches, the Spring Data query throws. The model instead returns one of the matching rows, unspecified which.
- Service.RegistrationService.UpdateRegistration: the update request's status is a non-null `Status`. A null status would only fail at save time, against the not-null column, with an error outside the three kinds.
- Lists are modelled as sets of records. Their order is repository-defined. Rows are keyed by id, so a listing has no duplicates.
- Concurrency: the model is sequential. It does not cover check-then-act races between concurrent creates or per-record atomicity of the store.

## Findings

| source | as written | input that shows it | evidently intended | confidence | as-written member | corrected member |
|---|---|---|---|---|---|---|
| src/main/java/com/sistemaEventos/servico_inscricoes/service/RegistrationService.java:101-108 | the duplicate check builds a filtered stream with no terminal operation, so its lambda never runs and no conflict is raised; in addition, the query returns a bare `Registration`, on which `.stream()` does not type-check | a table holding an active CONFIRMED registration `r1` of `U1` for `E1`; `U1` creates for `E1` and gets a second active CONFIRMED registration | fail with a conflict ("already registered") when an active, non-canceled registration for the same user and event exists | high (not executed) | LifecycleProperties.CreateAllowsDuplicate | Lifecycle.CreateIntended |
