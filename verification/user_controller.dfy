/**
 `UserController`: the `/api/users` routes. `create` registers an account,
 `login` turns an identity (established by HTTP basic authentication) into
 a session, `logout` clears the session, `current` reports the caller.
 */
module UserController {
  import opened Wrappers
  import opened Identifiers
  import opened Http
  import opened UserModel
  import opened Database
  import opened RequestContext
  import Accounts
  import RequestDecoder

  /** Body of `POST /api/users`. */
  datatype CreateUserRequest = CreateUserRequest(name: string, email: string, password: string)

  /**
   `POST /api/users`: decode the body, then `User.create`; a duplicate email
   propagates as 409 Conflict, success answers 201 Created with the new id.
   */
  function Create(ctx: Context, db: Db, req: Request<CreateUserRequest>,
                  h: Hasher, salt: Salt, newId: Uuid): (x: Exchange<UserResponse>)
    ensures x.ctx == ctx
    ensures RequestDecoder.Decode(req.contentType).Failure? ==> x == Exchange(Error(BadRequest), db, ctx)
    ensures RequestDecoder.Decode(req.contentType).Success? && EmailTaken(db.users, req.body.email) ==>
              x == Exchange(Error(Conflict), db, ctx)
    ensures x.response.Content? ==>
              && x.response == Content(Created, UserResponse(Some(newId)))
              && x.db.todos == db.todos
              && x.db.users == db.users + [NewUser(newId, req.body.name, req.body.email,
                                                   h.hash(req.body.password, salt))]
    ensures x.response.Content? <==>
              RequestDecoder.Decode(req.contentType).Success? && !EmailTaken(db.users, req.body.email)
  {
    match RequestDecoder.Decode(req.contentType)
    case Failure(status, _) => Refuse(db, ctx, status)
    case Success(_) =>
      var s := Accounts.CreateUser(db, req.body.name, req.body.email, req.body.password, h, salt, newId);
      match s.result
      case Failure(status, _) => Refuse(s.db, ctx, status)
      case Success(user) => Exchange(Content(Created, ResponseFrom(user)), s.db, ctx)
  }

  /** A registration under a fresh id keeps the schema invariants, whatever its outcome. */
  lemma CreatePreservesValid(ctx: Context, db: Db, req: Request<CreateUserRequest>,
                             h: Hasher, salt: Salt, newId: Uuid)
    requires Valid(db)
    requires !HasUser(db.users, newId)
    ensures Valid(Create(ctx, db, req, h, salt, newId).db)
  {
    Accounts.CreatePreservesValid(db, req.body.name, req.body.email, req.body.password, h, salt, newId);
  }

  /**
   `POST /api/users/login`: without an identity, 401 and the session is left
   alone; with one, the session is set to that user's id and the answer is
   303 See Other to `/dashboard`.
   */
  function Login(ctx: Context, db: Db): (x: Exchange<()>)
    ensures x.db == db && x.ctx.identity == ctx.identity
    ensures ctx.identity.None? ==> x.response == Error(Unauthorized) && x.ctx == ctx
    ensures ctx.identity.Some? ==>
              && x.response == Redirect(SeeOther, "/dashboard")
              && x.ctx.session == Some(ctx.identity.value.id)
  {
    match ctx.identity
    case None => Refuse(db, ctx, Unauthorized)
    case Some(user) => Exchange(Redirect(SeeOther, "/dashboard"), db, SetSession(ctx, user.id))
  }

  /** `POST /api/users/logout`: always clears the session and answers 302 Found to `/`. */
  function Logout(ctx: Context, db: Db): (x: Exchange<()>)
    ensures x.db == db && x.ctx.identity == ctx.identity
    ensures x.ctx.session.None?
    ensures x.response == Redirect(Found, "/")
  {
    Exchange(Redirect(Found, "/"), db, ClearSession(ctx))
  }

  /** `GET /api/users`: the caller's id, or 401 without an identity. */
  function Current(ctx: Context, db: Db): (x: Exchange<UserResponse>)
    ensures x.db == db && x.ctx == ctx
    ensures ctx.identity.None? ==> x.response == Error(Unauthorized)
    ensures ctx.identity.Some? ==> x.response == Content(OK, UserResponse(Some(ctx.identity.value.id)))
  {
    match RequireIdentity(ctx)
    case Failure(status, _) => Refuse(db, ctx, status)
    case Success(user) => Exchange(Content(OK, ResponseFrom(user)), db, ctx)
  }

  /** Logging in and then out leaves the session empty, whatever it held before. */
  lemma LoginThenLogout(ctx: Context, db: Db)
    ensures var x := Login(ctx, db);
            Logout(x.ctx, x.db).ctx == ClearSession(ctx)
  {
  }

  /** Logging out twice is no error: the second logout changes nothing further. */
  lemma LogoutTwice(ctx: Context, db: Db)
    ensures var x := Logout(ctx, db);
            Logout(x.ctx, x.db) == x
  {
  }
}
