/**
 * The user endpoints of app/routers/users.py: list, create, delete all,
 * get one, delete one. Deleting users cascades to their registrations.
 */
module UsersRouter {
  import opened UserModel
  import opened Http
  import opened Store

  const UserCreated := "User successfully created"
  const UsersDeleted := "Users successfully deleted"
  const UserDeleted := "User successfully deleted."
  const EmailTaken := "Email already registered"
  const UsernameTaken := "Username is already taken"
  const UserNotFound := "User not found"

  /** GET /users/: every stored user, shown through UserPublic. */
  function GetUsers<E>(db: Tables<E>): (r: set<UserPublic>)
    ensures forall k :: k in db.users ==> ToPublic(db.users[k]) in r
    ensures KeysMatch(db.users) ==>
      forall p :: p in r ==> p.username in db.users && ToPublic(db.users[p.username]) == p
  {
    set k | k in db.users :: ToPublic(db.users[k])
  }

  /** The listing has one entry per stored user: no two rows show the same. */
  lemma {:induction false} GetUsersCount<E>(db: Tables<E>)
    requires KeysMatch(db.users)
    ensures |GetUsers(db)| == |db.users|
    decreases |db.users|
  {
    if db.users != map[] {
      var k :| k in db.users;
      var rest := db.(users := db.users - {k});
      GetUsersCount(rest);
      GetUsersWithout(db, k);
      assert |GetUsers(db)| == |GetUsers(rest)| + 1;
      assert db.users.Keys == rest.users.Keys + {k} && k !in rest.users.Keys;
      assert |db.users.Keys| == |rest.users.Keys| + 1;
    }
  }

  /** Taking one user out of the table takes exactly its entry out of the listing. */
  lemma GetUsersWithout<E>(db: Tables<E>, k: string)
    requires KeysMatch(db.users) && k in db.users
    ensures var rest := db.(users := db.users - {k});
      && GetUsers(db) == GetUsers(rest) + {ToPublic(db.users[k])}
      && ToPublic(db.users[k]) !in GetUsers(rest)
  {
    var rest := db.(users := db.users - {k});
    forall p | p in GetUsers(db)
      ensures p in GetUsers(rest) + {ToPublic(db.users[k])}
    {
      var j :| j in db.users && ToPublic(db.users[j]) == p;
      if j != k {
        assert j in rest.users;
      }
    }
  }

  /** POST /users/: the email check runs first, then the username check;
      only when both pass is the row added. */
  function CreateUserStep<E>(db: Tables<E>, newUser: UserCreate): (s: Step<string, E>)
    ensures forall k :: k in db.users && db.users[k].email == newUser.email ==>
      s == Step(Err(Conflict(EmailTaken)), db)
    ensures !EmailRegistered(db.users, newUser.email) && newUser.username in db.users ==>
      s == Step(Err(Conflict(UsernameTaken)), db)
    ensures s.response.Ok? <==> !EmailRegistered(db.users, newUser.email) && newUser.username !in db.users
    ensures s.response.Err? ==> s.db == db
    ensures s.response.Ok? ==>
      && s.response.value == UserCreated
      && s.db.users.Keys == db.users.Keys + {newUser.username}
      && |s.db.users| == |db.users| + 1
      && s.db.users[newUser.username] == FromCreate(newUser)
      && (forall k :: k in db.users ==> s.db.users[k] == db.users[k])
      && s.db.events == db.events
      && s.db.registrations == db.registrations
    ensures Consistent(db) ==> Consistent(s.db)
    ensures NoDangling(db) ==> NoDangling(s.db)
  {
    if EmailRegistered(db.users, newUser.email) then
      Step(Err(Conflict(EmailTaken)), db)
    else if newUser.username in db.users then
      Step(Err(Conflict(UsernameTaken)), db)
    else
      Step(Ok(UserCreated), db.(users := db.users[newUser.username := FromCreate(newUser)]))
  }

  /** `create_user`. */
  method CreateUser<E>(session: Session<E>, newUser: UserCreate) returns (r: Result<string>)
    modifies session
    ensures Step(r, session.State()) == CreateUserStep(old(session.State()), newUser)
  {
    if EmailRegistered(session.users, newUser.email) {
      return Err(Conflict(EmailTaken));
    }
    if newUser.username in session.users {
      return Err(Conflict(UsernameTaken));
    }
    session.AddUser(FromCreate(newUser));
    return Ok(UserCreated);
  }

  /** DELETE /users/: every user and then every registration go, whatever the
      tables held; the event table stays. */
  function DeleteUsersStep<E>(db: Tables<E>): (s: Step<string, E>)
    ensures s.response == Ok(UsersDeleted)
    ensures s.db.users == map[] && s.db.registrations == {}
    ensures s.db.events == db.events
    ensures Consistent(s.db) && NoDangling(s.db)
  {
    Step(Ok(UsersDeleted), db.(users := map[], registrations := {}))
  }

  /** `delete_users`. */
  method DeleteUsers<E>(session: Session<E>) returns (r: Result<string>)
    modifies session
    ensures Step(r, session.State()) == DeleteUsersStep(old(session.State()))
  {
    session.DeleteAllUsers();
    session.DeleteAllRegistrations();
    return Ok(UsersDeleted);
  }

  /** Deleting all users twice answers and leaves the same as doing it once. */
  lemma DeleteUsersIdempotent<E>(db: Tables<E>)
    ensures DeleteUsersStep(DeleteUsersStep(db).db) == DeleteUsersStep(db)
  {
  }

  /** GET /users/{username}: the stored row shown through UserPublic, or 404. */
  function GetUserByUsername<E>(db: Tables<E>, username: string): (r: Result<UserPublic>)
    ensures r.Ok? <==> username in db.users
    ensures r.Ok? ==> r.value == ToPublic(db.users[username])
    ensures r.Ok? && KeysMatch(db.users) ==> r.value.username == username
    ensures r.Err? ==> r.error == NotFound(UserNotFound)
  {
    if username in db.users then Ok(ToPublic(db.users[username])) else Err(NotFound(UserNotFound))
  }

  /** DELETE /users/{username}: 404 if absent; otherwise the user goes, and with
      it exactly the registrations under that username. */
  function DeleteAUserStep<E>(db: Tables<E>, username: string): (s: Step<string, E>)
    ensures username !in db.users ==> s == Step(Err(NotFound(UserNotFound)), db)
    ensures username in db.users ==>
      && s.response == Ok(UserDeleted)
      && s.db.users.Keys == db.users.Keys - {username}
      && (forall k :: k in s.db.users ==> s.db.users[k] == db.users[k])
      && s.db.events == db.events
      && s.db.registrations <= db.registrations
      && (forall r :: r in db.registrations ==> (r in s.db.registrations <==> r.0 != username))
    ensures Consistent(db) ==> Consistent(s.db)
    ensures NoDangling(db) ==> NoDangling(s.db)
  {
    if username !in db.users then
      Step(Err(NotFound(UserNotFound)), db)
    else
      Step(Ok(UserDeleted), db.(users := db.users - {username},
                                registrations := DropUserRegistrations(db.registrations, username)))
  }

  /** `delete_a_user`. */
  method DeleteAUser<E>(session: Session<E>, username: string) returns (r: Result<string>)
    modifies session
    ensures Step(r, session.State()) == DeleteAUserStep(old(session.State()), username)
  {
    if username !in session.users {
      return Err(NotFound(UserNotFound));
    }
    session.DeleteUser(username);
    session.DeleteRegistrationsOf(username);
    return Ok(UserDeleted);
  }

  /** After a successful create, looking the username up shows the submitted fields. */
  lemma CreateThenGet<E>(db: Tables<E>, newUser: UserCreate)
    requires !EmailRegistered(db.users, newUser.email) && newUser.username !in db.users
    ensures GetUserByUsername(CreateUserStep(db, newUser).db, newUser.username)
      == Ok(UserPublic(newUser.username, newUser.name, newUser.email))
  {
  }

  /** After any delete of a user, looking it up is 404 and no registration names it. */
  lemma DeleteThenGone<E>(db: Tables<E>, username: string)
    ensures var after := DeleteAUserStep(db, username).db;
      && GetUserByUsername(after, username) == Err(NotFound(UserNotFound))
      && (NoDangling(db) ==> forall r :: r in after.registrations ==> r.0 != username)
  {
  }
}
