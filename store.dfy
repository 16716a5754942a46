/**
 * The relational store the handlers share: three tables, the integrity
 * rules stated over them, and the session through which a handler reads
 * and changes them.
 *
 * A handler's effect is given twice: once as a pure `...Step` function from
 * the tables before to its answer and the tables after, and once as a
 * method that changes a Session in the order the handler issues its ORM
 * statements, proved to agree with that function.
 */
module Store {
  import opened UserModel
  import opened Http

  /** A registration row, keyed by the pair (username, event_id). */
  type Registration = (string, int)

  /** The contents of the store. `E` stands for the fields of an event row,
      which no handler here inspects. */
  datatype Tables<E> = Tables(
    users: map<string, User>,
    events: map<int, E>,
    registrations: set<Registration>)

  /** A handler's answer together with the tables it leaves behind. */
  datatype Step<T, E> = Step(response: Result<T>, db: Tables<E>)

  /** Every user row is stored under its own username, its primary key. */
  predicate KeysMatch(users: map<string, User>)
  {
    forall k :: k in users ==> users[k].username == k
  }

  /** No two users share an email. */
  predicate EmailsUnique(users: map<string, User>)
  {
    forall a, b :: a in users && b in users && users[a].email == users[b].email ==> a == b
  }

  /** Some stored user has this email (the `select(User).where(User.email == ...)`
      query returns a first row). */
  predicate EmailRegistered(users: map<string, User>, email: string)
  {
    exists k :: k in users && users[k].email == email
  }

  /** The invariants of the user table that every handler keeps. */
  predicate Consistent<E>(db: Tables<E>)
  {
    KeysMatch(db.users) && EmailsUnique(db.users)
  }

  /** Every registration refers to a stored user and a stored event. */
  predicate NoDangling<E>(db: Tables<E>)
  {
    forall r :: r in db.registrations ==> r.0 in db.users && r.1 in db.events
  }

  /** The rows left by `delete(Registration).where(Registration.username == username)`. */
  function DropUserRegistrations(regs: set<Registration>, username: string): (kept: set<Registration>)
    ensures kept <= regs
    ensures forall r :: r in regs ==> (r in kept <==> r.0 != username)
  {
    set r | r in regs && r.0 != username
  }

  /** The rows left by `delete(Registration).where(Registration.username == username,
      Registration.event_id == eventId)`: exactly that one pair goes. */
  function DropRegistration(regs: set<Registration>, username: string, eventId: int): (kept: set<Registration>)
    ensures kept == regs - {(username, eventId)}
  {
    var kept := set r | r in regs && !(r.0 == username && r.1 == eventId);
    assert forall r :: r in kept <==> r in regs - {(username, eventId)};
    kept
  }

  /** A non-empty set has an element to pick. */
  lemma HasMember(s: set<int>)
    requires s != {}
    ensures exists x :: x in s
  {
    if forall x :: x !in s {
      assert false;
    }
  }

  /** A non-empty finite set of ids has a largest element. */
  lemma {:induction false} MaxExists(keys: set<int>)
    requires keys != {}
    ensures exists m :: m in keys && forall k :: k in keys ==> k <= m
    decreases |keys|
  {
    HasMember(keys);
    var x :| x in keys;
    var rest := keys - {x};
    if rest == {} {
      assert keys == {x};
      assert forall k :: k in keys ==> k <= x;
    } else {
      MaxExists(rest);
      var m :| m in rest && forall k :: k in rest ==> k <= m;
      var top := if x <= m then m else x;
      forall k | k in keys
        ensures k <= top
      {
        if k != x {
          assert k in rest;
        }
      }
      assert top in keys;
    }
  }

  /** The largest id in use. */
  function MaxKey(keys: set<int>): (m: int)
    requires keys != {}
    ensures m in keys
    ensures forall k :: k in keys ==> k <= m
  {
    MaxExists(keys);
    var m :| m in keys && forall k :: k in keys ==> k <= m;
    m
  }

  /** The id the store gives a new event row: one more than the largest id in
      use, 1 in an empty table. It is never an id already in use. */
  function NextId(keys: set<int>): (id: int)
    ensures id !in keys
    ensures forall k :: k in keys ==> k < id
    ensures keys == {} ==> id == 1
  {
    if keys == {} then 1 else MaxKey(keys) + 1
  }

  /** A session on the store: the three tables, changed in place by the ORM
      statements a handler issues. */
  class Session<E> {
    var users: map<string, User>
    var events: map<int, E>
    var registrations: set<Registration>

    /** Opens a session on a store holding `db`. */
    constructor Open(db: Tables<E>)
      ensures State() == db
    {
      users, events, registrations := db.users, db.events, db.registrations;
    }

    /** The tables as they now stand. */
    function State(): Tables<E>
      reads this
    {
      Tables(users, events, registrations)
    }

    /** `session.add(user)` and commit: an INSERT of a row under a primary key not yet taken. */
    method AddUser(u: User)
      requires u.username !in users
      modifies this
      ensures State() == old(State()).(users := old(users)[u.username := u])
    {
      users := users[u.username := u];
    }

    /** `session.delete(user)` for the row stored under `username`. */
    method DeleteUser(username: string)
      modifies this
      ensures State() == old(State()).(users := old(users) - {username})
    {
      users := users - {username};
    }

    /** `delete(User)` with no `where`: every user row goes. */
    method DeleteAllUsers()
      modifies this
      ensures State() == old(State()).(users := map[])
    {
      users := map[];
    }

    /** `session.add(Event.model_validate(event))`: a row under a fresh id. */
    method AddEvent(fields: E) returns (id: int)
      modifies this
      ensures id == NextId(old(events).Keys) && id !in old(events)
      ensures State() == old(State()).(events := old(events)[id := fields])
    {
      id := NextId(events.Keys);
      events := events[id := fields];
    }

    /** `delete(Event)` with no `where`: every event row goes. */
    method DeleteAllEvents()
      modifies this
      ensures State() == old(State()).(events := map[])
    {
      events := map[];
    }

    /** `delete(Registration)` with no `where`: every registration goes. */
    method DeleteAllRegistrations()
      modifies this
      ensures State() == old(State()).(registrations := {})
    {
      registrations := {};
    }

    /** `delete(Registration).where(Registration.username == username)`. */
    method DeleteRegistrationsOf(username: string)
      modifies this
      ensures State() == old(State()).(registrations := DropUserRegistrations(old(registrations), username))
    {
      registrations := DropUserRegistrations(registrations, username);
    }

    /** `delete(Registration).where(username == ..., event_id == ...)`. */
    method DeleteRegistration(username: string, eventId: int)
      modifies this
      ensures State() == old(State()).(registrations := DropRegistration(old(registrations), username, eventId))
    {
      registrations := DropRegistration(registrations, username, eventId);
    }
  }
}
