/**
 * The registration endpoints of app/routers/registrations.py: list all, and
 * delete one after checking user, event and registration in that order.
 */
module RegistrationsRouter {
  import opened Http
  import opened Store

  const RegistrationDeleted := "Registration deleted successfully"
  const UserNotFound := "User not found"
  const EventNotFound := "Event not found"
  const RegistrationNotFound := "Registration not found"

  /** GET /registrations/: every stored (username, event_id) pair. */
  function GetAllRegistrations<E>(db: Tables<E>): (r: set<Registration>)
    ensures forall u, id :: (u, id) in r <==> (u, id) in db.registrations
  {
    db.registrations
  }

  /** DELETE /registrations/: 404 for a missing user, else for a missing event,
      else for a missing pair; otherwise exactly that pair goes. */
  function DeleteRegistrationStep<E>(db: Tables<E>, username: string, eventId: int): (s: Step<string, E>)
    ensures username !in db.users ==> s == Step(Err(NotFound(UserNotFound)), db)
    ensures username in db.users && eventId !in db.events ==>
      s == Step(Err(NotFound(EventNotFound)), db)
    ensures username in db.users && eventId in db.events && (username, eventId) !in db.registrations ==>
      s == Step(Err(NotFound(RegistrationNotFound)), db)
    ensures s.response.Ok? <==>
      username in db.users && eventId in db.events && (username, eventId) in db.registrations
    ensures s.response.Err? ==> s.db == db
    ensures s.response.Ok? ==>
      && s.response.value == RegistrationDeleted
      && (username, eventId) !in s.db.registrations
      && s.db.registrations + {(username, eventId)} == db.registrations
      && |s.db.registrations| == |db.registrations| - 1
      && s.db.users == db.users && s.db.events == db.events
    ensures Consistent(db) ==> Consistent(s.db)
    ensures NoDangling(db) ==> NoDangling(s.db)
  {
    if username !in db.users then
      Step(Err(NotFound(UserNotFound)), db)
    else if eventId !in db.events then
      Step(Err(NotFound(EventNotFound)), db)
    else if (username, eventId) !in db.registrations then
      Step(Err(NotFound(RegistrationNotFound)), db)
    else
      Step(Ok(RegistrationDeleted),
           db.(registrations := DropRegistration(db.registrations, username, eventId)))
  }

  /** `delete_registration`. */
  method DeleteRegistration<E>(session: Session<E>, username: string, eventId: int) returns (r: Result<string>)
    modifies session
    ensures Step(r, session.State()) == DeleteRegistrationStep(old(session.State()), username, eventId)
  {
    var userRegistered := username in session.users;
    var eventToCancel := eventId in session.events;
    if !userRegistered {
      return Err(NotFound(UserNotFound));
    }
    if !eventToCancel {
      return Err(NotFound(EventNotFound));
    }
    if (username, eventId) !in session.registrations {
      return Err(NotFound(RegistrationNotFound));
    }
    session.DeleteRegistration(username, eventId);
    return Ok(RegistrationDeleted);
  }

  /** Deleting the same registration again is a 404 that changes nothing. */
  lemma DeleteRegistrationTwice<E>(db: Tables<E>, username: string, eventId: int)
    requires DeleteRegistrationStep(db, username, eventId).response.Ok?
    ensures var after := DeleteRegistrationStep(db, username, eventId).db;
      DeleteRegistrationStep(after, username, eventId) == Step(Err(NotFound(RegistrationNotFound)), after)
  {
  }
}
