# Users, events and registrations: the referential-integrity core

This project models the request handlers of a small event-registration
backend. The backend stores three tables:

- `users`: user rows keyed by username. Each row holds a username, a name and an email.
- `events`: event rows keyed by an integer id that the store assigns.
- `registrations`: `(username, event_id)` pairs.

The model covers the handlers in `app/routers/users.py`, `app/routers/events.py` and
`app/routers/registrations.py`, and the user record shapes in `app/models/user.py`.
Each handler is a short run of existence checks followed by table changes.
The model proves these things about every handler:

- which error wins when several checks fail;
- which rows a delete removes, and that nothing else changes;
- that the bulk wipes always succeed and are idempotent;
- which integrity rules each handler keeps.

## Layout

- `user.dfy`, module `UserModel`: the `User`, `UserPublic` and `UserCreate` shapes,
  plus the two mappings between them (`ToPublic`, and `FromCreate` for `User.model_validate`).
- `http.dfy`, module `Http`: a handler's answer. It is `Ok(value)` or `Err(error)`.
  The error is `NotFound(detail)` (HTTP 404) or `Conflict(detail)` (HTTP 409).
- `store.dfy`, module `Store`:
  - `Tables<E>`, the three tables as one value. The event fields are a type parameter `E`,
    because no handler looks inside them.
  - The integrity predicates:
    - `KeysMatch`: every user row is stored under its own username.
    - `EmailsUnique`: no two users share an email.
    - `Consistent`: both of the above.
    - `NoDangling`: every registration names a stored user and a stored event.
  - The id a new event row gets (`NextId`).
  - A `Session` class whose fields are the three tables. Its methods are the ORM
    statements the handlers issue (`session.add`, `session.delete`,
    `delete(...)` with and without `where`).
- `users.dfy`, `events.dfy`, `registrations.dfy`: one module per router. Each handler
  that writes appears twice:
  - a pure `...Step` function from the tables before to the answer and the tables after.
    Its contract states the handler's observable behaviour.
  - a method on a `Session` that issues the ORM statements in the handler's order.
    Its contract says it agrees with the `...Step` function.

  A read-only handler is a function of the current tables (`Session.State()`).

## Where the code and its own comments disagree

- `delete_events` (`app/routers/events.py:31-40`) deletes every event row and does nothing else.
  The comment at `app/routers/users.py:53` says the user wipe clears registrations
  "same reason as in events endpoint", which implies that the event wipe clears them too.
  It does not: no registration statement follows `delete(Event)`. The model follows the code.
  `EventsRouter.DeleteEventsStep` leaves `registrations` unchanged.
  - `EventsRouter.DeleteEventsLeavesDangling` proves the consequence: after the wipe,
    any registration left refers to an event that does not exist.
  - `EventsRouter.StaleRegistrationReattaches` proves that such a registration to event 1
    then reads as a registration to the next event created. Ids restart at 1 in an empty table.
- The user model declares no unique constraint on `email`. Emails stay unique only because
  `create_user` checks them before inserting. The model states this as `EmailsUnique`.
  Every handler keeps it.
- The router files hold no endpoint for registering a user to an event, for getting, updating
  or deleting one event, or for listing one user's events. None of these is modelled.

## Model

| member | source | states |
|---|---|---|
| UserModel.ProjectionKeepsFields | app/models/user.py:3-11 | `UserPublic` shows exactly username, name and email; projecting keeps all three, so it is injective |
| UserModel.CreateKeepsFields | app/models/user.py:13-14 | `UserCreate` has the fields of `User`; `model_validate` keeps username, name and email, and so does projecting the result |
| Store.DropUserRegistrations | app/routers/users.py:93-95 | the filtered-out statement keeps a subset of the pairs, and keeps a pair exactly when its username differs |
| Store.DropRegistration | app/routers/registrations.py:47-51 | the two-condition `where` removes exactly the one pair `(username, event_id)` |
| Store.NextId | app/routers/events.py:23-27 | the id storage gives a new event is not in use and exceeds every id in use; it is 1 in an empty table |
| Store.Session.AddUser | app/routers/users.py:41-42 | `session.add` with commit inserts the row under its username, which must not be taken yet; nothing else changes |
| Store.Session.DeleteUser | app/routers/users.py:87-89 | `session.delete` removes that one user row; nothing else changes |
| Store.Session.DeleteAllUsers | app/routers/users.py:50-51 | `delete(User)` empties the user table; nothing else changes |
| Store.Session.DeleteAllRegistrations | app/routers/users.py:54-55 | `delete(Registration)` empties the registration table; nothing else changes |
| Store.Session.DeleteRegistrationsOf | app/routers/users.py:93-96 | removes the registrations of one username; nothing else changes |
| Store.Session.DeleteRegistration | app/routers/registrations.py:47-52 | removes one registration pair; nothing else changes |
| Store.Session.AddEvent | app/routers/events.py:23-27 | adds the fields under a fresh id and returns that id; nothing else changes |
| Store.Session.DeleteAllEvents | app/routers/events.py:36-39 | `delete(Event)` empties the event table; nothing else changes |
| UsersRouter.GetUsers | app/routers/users.py:15-19 | every stored user appears, projected; every entry is the projection of the row stored under its username |
| UsersRouter.GetUsersCount | app/routers/users.py:15-19 | the listing has exactly as many entries as the user table has rows |
| UsersRouter.CreateUserStep | app/routers/users.py:22-44 | an email held by any stored user gives Conflict "Email already registered", whatever the username; otherwise a taken username gives Conflict "Username is already taken"; success exactly when both are free; on failure nothing changes; on success exactly the submitted row is added and events and registrations are untouched; keeps `Consistent` and `NoDangling` |
| UsersRouter.CreateUser | app/routers/users.py:22-44 | the handler's checks and `session.add` have exactly the effect and answer of `CreateUserStep` |
| UsersRouter.DeleteUsersStep | app/routers/users.py:47-58 | always succeeds; afterwards users and registrations are empty and events are unchanged |
| UsersRouter.DeleteUsers | app/routers/users.py:47-58 | the two wipes give exactly `DeleteUsersStep` |
| UsersRouter.DeleteUsersIdempotent | app/routers/users.py:47-58 | a second wipe answers the same and leaves the same tables |
| UsersRouter.GetUserByUsername | app/routers/users.py:61-71 | succeeds if and only if the username is a key, with the stored row projected (carrying that username); otherwise NotFound "User not found" |
| UsersRouter.DeleteAUserStep | app/routers/users.py:74-98 | an absent username gives NotFound "User not found" and changes nothing; otherwise only that user goes, exactly the registrations with that username go, and events and every other row are unchanged; keeps `Consistent` and `NoDangling` |
| UsersRouter.DeleteAUser | app/routers/users.py:74-98 | the check, `session.delete` and the filtered delete give exactly `DeleteAUserStep` |
| UsersRouter.CreateThenGet | app/routers/users.py:41-69 | after a successful create, looking up the username shows the submitted username, name and email |
| UsersRouter.DeleteThenGone | app/routers/users.py:82-96 | after deleting a user, looking it up is NotFound; if no registration dangled before, none names that user afterwards |
| EventsRouter.GetEvents | app/routers/events.py:9-15 | every stored event appears with its id and fields, and nothing else appears |
| EventsRouter.GetEventsCount | app/routers/events.py:9-15 | the listing has exactly as many entries as the event table has rows |
| EventsRouter.PostEventStep | app/routers/events.py:17-28 | always succeeds; adds exactly one event, under an id not in use, with the submitted fields; existing events, users and registrations are unchanged; keeps `Consistent` and `NoDangling` |
| EventsRouter.PostEvent | app/routers/events.py:17-28 | `session.add` of the validated event gives exactly `PostEventStep` |
| EventsRouter.DeleteEventsStep | app/routers/events.py:31-40 | always succeeds and empties the event table; users and registrations are untouched; keeps `Consistent` |
| EventsRouter.DeleteEvents | app/routers/events.py:31-40 | `delete(Event)` gives exactly `DeleteEventsStep` |
| EventsRouter.DeleteEventsIdempotent | app/routers/events.py:31-40 | a second wipe answers the same and leaves the same tables |
| EventsRouter.DeleteEventsLeavesDangling | app/routers/events.py:36-40 | with any registration stored, the wipe breaks `NoDangling`, because nothing cascades |
| EventsRouter.StaleRegistrationReattaches | app/routers/events.py:23-40 | after a wipe and a create, a leftover registration to event 1 refers to the new event |
| RegistrationsRouter.GetAllRegistrations | app/routers/registrations.py:16-21 | every stored pair appears, and nothing else |
| RegistrationsRouter.DeleteRegistrationStep | app/routers/registrations.py:24-53 | a missing user gives NotFound "User not found" even when the event is also missing; then a missing event gives "Event not found"; then a missing pair gives "Registration not found"; on any error nothing changes; succeeds exactly when all three exist, and then removes exactly that pair, leaving users, events and every other pair unchanged; keeps `Consistent` and `NoDangling` |
| RegistrationsRouter.DeleteRegistration | app/routers/registrations.py:24-53 | the three lookups and the filtered delete give exactly `DeleteRegistrationStep` |
| RegistrationsRouter.DeleteRegistrationTwice | app/routers/registrations.py:42-53 | deleting the same registration again is NotFound "Registration not found" and changes nothing |

## Left out

- `app/data/db.py` is not part of this model. That covers the SQLite engine and URL,
  `get_session`/`SessionDep` (framework dependency injection), and `init_database`.
  `init_database` seeds development data from a random generator.
- FastAPI routing, the `Path`/`Query` annotations and `HTTPException` are left out.
  A raised exception is an `Err` value carrying its status and detail.
- Commits and transactions are left out. So are the two separate commits in
  `delete_users` and `delete_a_user`. Each handler is one state transition.
- Concurrency is left out, including the race between a handler's checks and its writes.
- The contents of an event row are left out. `app/models/event.py` is not part of this model,
  so the event fields are an opaque type parameter.
- `Store.NextId` follows SQLite's rowid rule: one more than the largest id, or 1 in an empty table.
  The event model is not visible, so this rule is assumed. The handler contracts rely only on the id
  being fresh. `EventsRouter.StaleRegistrationReattaches` relies on the rule itself.
- RegistrationsRouter.DeleteRegistrationStep: event ids are unbounded integers. The store's
  INTEGER column is 64-bit, and the database driver rejects a larger `event_id` with an error
  before any check runs; that range and that error are not modelled.
- Store.NextId: ids are unbounded, so it returns one more than the largest id even when that is
  2^63 - 1; there SQLite picks some unused id instead. The 64-bit range is not modelled.
- UsersRouter.GetUsers: the result is a set, so the order of the rows is not modelled.
  `GetUsersCount` shows that no row is lost.
- EventsRouter.GetEvents: the result is a set, so the order of the rows is not modelled.
- RegistrationsRouter.GetAllRegistrations: the result is a set, so the order of the rows is not modelled.
- Endpoints that are not in these router files are not modelled: register to an event,
  event get/update/delete by id, and list one user's events.
