/**
 `User.create` and `User.login`: account creation behind a duplicate-email
 check, and password login that reveals nothing about why it failed.
 */
module Accounts {
  import opened Wrappers
  import opened Identifiers
  import opened UserModel
  import opened Http
  import opened Database
  import opened UserRepository

  /** The message of the conflict `User.create` throws. */
  const EmailInUse := "Email address already in use"

  /**
   `User.create`: fail with a conflict when the email is in use; otherwise
   hash the password (under the given salt) and append the new row, whose
   id is the UUID chosen for it.
   */
  function CreateUser(db: Db, name: string, email: string, password: string,
                      h: Hasher, salt: Salt, newId: Uuid): (s: Step<User>)
    ensures EmailTaken(db.users, email) <==> s.result.Failure?
    ensures s.result.Failure? ==> s.result == Failure(Conflict, Some(EmailInUse)) && s.db == db
    ensures s.result.Success? ==>
              && s.db == db.(users := db.users + [s.result.value])
              && s.result.value == NewUser(newId, name, email, h.hash(password, salt))
  {
    match GetUserNamed(db, email)
    case Some(_) => Step(Failure(Conflict, Some(EmailInUse)), db)
    case None =>
      var user := NewUser(newId, name, email, h.hash(password, salt));
      Step(Success(user), db.(users := db.users + [user]))
  }

  /**
   `User.login`: the user with this email, provided it has a stored hash
   and the password verifies against it; otherwise nothing. The store is
   only read.
   */
  function Login(db: Db, email: string, password: string, h: Hasher): (r: Option<User>)
    ensures r.Some? <==>
              && GetUserNamed(db, email).Some?
              && GetUserNamed(db, email).value.passwordHash.Some?
              && h.verify(password, GetUserNamed(db, email).value.passwordHash.value)
    ensures r.Some? ==> r == GetUserNamed(db, email)
    ensures (forall u :: u in db.users ==> u.email != email) ==> r.None?
  {
    match GetUserNamed(db, email)
    case None => None
    case Some(user) =>
      match user.passwordHash
      case None => None
      case Some(digest) => if h.verify(password, digest) then Some(user) else None
  }

  /** Creating an account with a fresh id keeps every schema invariant, email uniqueness included. */
  lemma CreatePreservesValid(db: Db, name: string, email: string, password: string,
                             h: Hasher, salt: Salt, newId: Uuid)
    requires Valid(db)
    requires !HasUser(db.users, newId)
    ensures Valid(CreateUser(db, name, email, password, h, salt, newId).db)
  {
    var s := CreateUser(db, name, email, password, h, salt, newId);
    if s.result.Success? {
      var users := s.db.users;
      assert users == db.users + [s.result.value];
      forall i, j | 0 <= i < j < |users|
        ensures users[i].email != users[j].email && users[i].id != users[j].id
      {
        if j == |db.users| {
          assert users[i] == db.users[i];
        }
      }
      forall t | t in s.db.todos
        ensures HasUser(s.db.users, t.ownerId)
      {
        var k :| 0 <= k < |db.users| && db.users[k].id == t.ownerId;
        assert users[k] == db.users[k];
      }
    }
  }

  /** After a successful creation, both repository lookups find the new user. */
  lemma CreateThenLookup(db: Db, name: string, email: string, password: string,
                         h: Hasher, salt: Salt, newId: Uuid)
    requires Valid(db)
    requires !HasUser(db.users, newId)
    requires CreateUser(db, name, email, password, h, salt, newId).result.Success?
    ensures var s := CreateUser(db, name, email, password, h, salt, newId);
            && GetUserNamed(s.db, email) == Some(s.result.value)
            && GetUserFrom(s.db, newId) == Some(s.result.value)
  {
    var s := CreateUser(db, name, email, password, h, salt, newId);
    CreatePreservesValid(db, name, email, password, h, salt, newId);
    assert s.result.value in s.db.users;
    EmailResolvesStoredUser(s.db, s.result.value);
    SessionResolvesStoredUser(s.db, s.result.value);
  }

  /** Password round trip: an account just created logs in with its own password. */
  lemma CreateThenLogin(db: Db, name: string, email: string, password: string,
                        h: Hasher, salt: Salt, newId: Uuid)
    requires Sound(h)
    requires Valid(db)
    requires !HasUser(db.users, newId)
    requires CreateUser(db, name, email, password, h, salt, newId).result.Success?
    ensures var s := CreateUser(db, name, email, password, h, salt, newId);
            Login(s.db, email, password, h) == Some(s.result.value)
  {
    CreateThenLookup(db, name, email, password, h, salt, newId);
  }

  /**
   With a collision-free hash, a password from which bcrypt reads a
   different key is refused for that account.
   */
  lemma CreateThenWrongPassword(db: Db, name: string, email: string, password: string,
                                h: Hasher, salt: Salt, newId: Uuid, wrong: string)
    requires CollisionFree(h)
    requires Valid(db)
    requires !HasUser(db.users, newId)
    requires BcryptKey(wrong) != BcryptKey(password)
    requires CreateUser(db, name, email, password, h, salt, newId).result.Success?
    ensures var s := CreateUser(db, name, email, password, h, salt, newId);
            Login(s.db, email, wrong, h).None?
  {
    CreateThenLookup(db, name, email, password, h, salt, newId);
  }

  /**
   The other half of bcrypt's truncation: a different password from which
   bcrypt reads the same key (the same first 72 bytes, say) logs in too.
   */
  lemma CreateThenSameKeyLogin(db: Db, name: string, email: string, password: string,
                               h: Hasher, salt: Salt, newId: Uuid, other: string)
    requires Sound(h) && KeyedHash(h)
    requires Valid(db)
    requires !HasUser(db.users, newId)
    requires BcryptKey(other) == BcryptKey(password)
    requires CreateUser(db, name, email, password, h, salt, newId).result.Success?
    ensures var s := CreateUser(db, name, email, password, h, salt, newId);
            Login(s.db, email, other, h) == Some(s.result.value)
  {
    CreateThenLookup(db, name, email, password, h, salt, newId);
    assert h.hash(other, salt) == h.hash(password, salt);
    assert h.verify(other, h.hash(other, salt));
  }

  /** A second sign-up with the same email conflicts and leaves the first account in place. */
  lemma DuplicateSignupConflicts(db: Db, name1: string, name2: string, email: string,
                                 password1: string, password2: string, h: Hasher,
                                 salt1: Salt, salt2: Salt, id1: Uuid, id2: Uuid)
    requires CreateUser(db, name1, email, password1, h, salt1, id1).result.Success?
    ensures var s1 := CreateUser(db, name1, email, password1, h, salt1, id1);
            var s2 := CreateUser(s1.db, name2, email, password2, h, salt2, id2);
            && s2.result == Failure(Conflict, Some(EmailInUse))
            && s2.db == s1.db
            && s1.result.value in s2.db.users
  {
    var s1 := CreateUser(db, name1, email, password1, h, salt1, id1);
    assert s1.db.users[|db.users|] == s1.result.value;
  }
}
