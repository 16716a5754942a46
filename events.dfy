/**
 * The event endpoints of app/routers/events.py: list, create, delete all.
 * The event table's fields are kept opaque (`E`). Deleting all events does
 * NOT touch the registration table.
 */
module EventsRouter {
  import opened Http
  import opened Store

  const EventCreated := "Event successfully created."
  const EventsDeleted := "Events successfully deleted."

  /** An event as the listing shows it: its id and its fields. */
  datatype Event<E> = Event(id: int, fields: E)

  /** GET /events/: every stored event. */
  function GetEvents<E(==)>(db: Tables<E>): (r: set<Event<E>>)
    ensures forall id :: id in db.events ==> Event(id, db.events[id]) in r
    ensures forall ev :: ev in r ==> ev.id in db.events && db.events[ev.id] == ev.fields
  {
    set id | id in db.events :: Event(id, db.events[id])
  }

  /** The listing has one entry per stored event. */
  lemma {:induction false} GetEventsCount<E>(db: Tables<E>)
    ensures |GetEvents(db)| == |db.events|
    decreases |db.events|
  {
    if db.events != map[] {
      assert db.events.Keys != {};
      HasMember(db.events.Keys);
      var id :| id in db.events;
      var rest := db.(events := db.events - {id});
      GetEventsCount(rest);
      GetEventsWithout(db, id);
      assert |GetEvents(db)| == |GetEvents(rest)| + 1;
      assert db.events.Keys == rest.events.Keys + {id} && id !in rest.events.Keys;
      assert |db.events.Keys| == |rest.events.Keys| + 1;
    }
  }

  /** Taking one event out of the table takes exactly its entry out of the listing. */
  lemma GetEventsWithout<E>(db: Tables<E>, id: int)
    requires id in db.events
    ensures var rest := db.(events := db.events - {id});
      && GetEvents(db) == GetEvents(rest) + {Event(id, db.events[id])}
      && Event(id, db.events[id]) !in GetEvents(rest)
  {
    var rest := db.(events := db.events - {id});
    forall ev | ev in GetEvents(db)
      ensures ev in GetEvents(rest) + {Event(id, db.events[id])}
    {
      if ev.id != id {
        assert ev.id in rest.events;
      }
    }
  }

  /** POST /events/: always succeeds and adds exactly one event, under an id
      not in use, carrying the submitted fields. */
  function PostEventStep<E>(db: Tables<E>, fields: E): (s: Step<string, E>)
    ensures s.response == Ok(EventCreated)
    ensures exists id :: id !in db.events && s.db.events == db.events[id := fields]
    ensures |s.db.events| == |db.events| + 1
    ensures forall id :: id in db.events ==> id in s.db.events && s.db.events[id] == db.events[id]
    ensures s.db.users == db.users && s.db.registrations == db.registrations
    ensures Consistent(db) ==> Consistent(s.db)
    ensures NoDangling(db) ==> NoDangling(s.db)
  {
    var id := NextId(db.events.Keys);
    Step(Ok(EventCreated), db.(events := db.events[id := fields]))
  }

  /** `post_event`. */
  method PostEvent<E>(session: Session<E>, fields: E) returns (r: Result<string>)
    modifies session
    ensures Step(r, session.State()) == PostEventStep(old(session.State()), fields)
  {
    var _ := session.AddEvent(fields);
    return Ok(EventCreated);
  }

  /** DELETE /events/: every event goes, whatever the table held. Users and
      registrations are left as they are: there is no cascade. */
  function DeleteEventsStep<E>(db: Tables<E>): (s: Step<string, E>)
    ensures s.response == Ok(EventsDeleted)
    ensures s.db.events == map[]
    ensures s.db.users == db.users && s.db.registrations == db.registrations
    ensures Consistent(db) ==> Consistent(s.db)
  {
    Step(Ok(EventsDeleted), db.(events := map[]))
  }

  /** `delete_events`. */
  method DeleteEvents<E>(session: Session<E>) returns (r: Result<string>)
    modifies session
    ensures Step(r, session.State()) == DeleteEventsStep(old(session.State()))
  {
    session.DeleteAllEvents();
    return Ok(EventsDeleted);
  }

  /** Deleting all events twice answers and leaves the same as doing it once. */
  lemma DeleteEventsIdempotent<E>(db: Tables<E>)
    ensures DeleteEventsStep(DeleteEventsStep(db).db) == DeleteEventsStep(db)
  {
  }

  /** Since nothing cascades, any registration left in the table refers to an
      event that no longer exists. */
  lemma DeleteEventsLeavesDangling<E>(db: Tables<E>)
    requires db.registrations != {}
    ensures !NoDangling(DeleteEventsStep(db).db)
  {
  }

  /** Worse, ids restart once the event table is empty: a registration to the
      old event 1 now reads as a registration to the next event created. */
  lemma StaleRegistrationReattaches<E>(db: Tables<E>, username: string, fields: E)
    requires (username, 1) in db.registrations
    ensures var after := PostEventStep(DeleteEventsStep(db).db, fields).db;
      && after.events == map[1 := fields]
      && (username, 1) in after.registrations
  {
  }
}
