/**
 `UserRepository`: how the session authenticator turns a session value
 into a user, and how password authentication finds a user by email.
 Both are read-only lookups; an unknown key yields no user, never an error.
 */
module UserRepository {
  import opened Wrappers
  import opened Identifiers
  import opened UserModel
  import opened Database

  /** `getUser(from:)`: the user whose id is the session's UUID, if any. */
  function GetUserFrom(db: Db, session: Uuid): (r: Option<User>)
    ensures r.Some? ==> r.value in db.users && r.value.id == session
    ensures r.None? <==> forall u :: u in db.users ==> u.id != session
  {
    FindUser(db.users, session)
  }

  /** `getUser(named:)`: the first user with this email, if any. */
  function GetUserNamed(db: Db, email: string): (r: Option<User>)
    ensures r.Some? ==> r.value in db.users && r.value.email == email
    ensures r.None? <==> forall u :: u in db.users ==> u.email != email
  {
    FindUserByEmail(db.users, email)
  }

  /** In a valid store, a stored user's id resolves back to exactly that user. */
  lemma SessionResolvesStoredUser(db: Db, u: User)
    requires Valid(db)
    requires u in db.users
    ensures GetUserFrom(db, u.id) == Some(u)
  {
    FindUserUnique(db.users, u);
  }

  /** In a valid store, a stored user's email finds exactly that user. */
  lemma EmailResolvesStoredUser(db: Db, u: User)
    requires Valid(db)
    requires u in db.users
    ensures GetUserNamed(db, u.email) == Some(u)
  {
    FindUserByEmailUnique(db.users, u);
  }
}
