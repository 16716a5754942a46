/**
 * The user record shapes of app/models/user.py.
 *
 * UserBase declares `name` and `email`; User adds `username`, the table's
 * primary key; UserPublic is what a response shows; UserCreate is the
 * creation payload and has exactly the fields of User. The inheritance is
 * flattened: each shape lists all of its fields.
 */
module UserModel {

  /** A stored user row. `username` is the primary key of the user table. */
  datatype User = User(username: string, name: string, email: string)

  /** The public projection of a user: username, name and email. */
  datatype UserPublic = UserPublic(username: string, name: string, email: string)

  /** The payload of a creation request: the same fields as User. */
  datatype UserCreate = UserCreate(username: string, name: string, email: string)

  /** The projection a response model applies to a stored row. */
  function ToPublic(u: User): UserPublic
  {
    UserPublic(u.username, u.name, u.email)
  }

  /** `User.model_validate(new_user)`: the row built from a creation payload. */
  function FromCreate(c: UserCreate): User
  {
    User(c.username, c.name, c.email)
  }

  /** The public projection loses nothing: it keeps all three fields, so two rows
      with the same projection are the same row. */
  lemma ProjectionKeepsFields(u: User, v: User)
    ensures ToPublic(u).username == u.username
    ensures ToPublic(u).name == u.name && ToPublic(u).email == u.email
    ensures ToPublic(u) == ToPublic(v) <==> u == v
  {
  }

  /** Validating a payload into a row keeps username, name and email, and so
      does showing that row again. */
  lemma CreateKeepsFields(c: UserCreate)
    ensures FromCreate(c).username == c.username
    ensures FromCreate(c).name == c.name && FromCreate(c).email == c.email
    ensures ToPublic(FromCreate(c)) == UserPublic(c.username, c.name, c.email)
  {
  }
}
