/**
 `AppRequestContext`: the per-request state the handlers read and write,
 namely the identity the authenticators resolved and the session value
 that the session middleware will persist when the response goes out.
 */
module RequestContext {
  import opened Wrappers
  import opened Identifiers
  import opened UserModel
  import opened Http
  import opened Database

  /** The identity of the caller, if any, and the session value (a user's UUID), if any. */
  datatype Context = Context(identity: Option<User>, session: Option<Uuid>)

  /** `AppRequestContext.init`: no identity and an empty session. */
  function Initial(): (c: Context)
    ensures c.identity.None? && c.session.None?
  {
    Context(None, None)
  }

  /** `requireIdentity()`: the caller, or an unauthorized error when there is none. */
  function RequireIdentity(ctx: Context): (r: Result<User>)
    ensures r.Success? <==> ctx.identity.Some?
    ensures r.Success? ==> r.value == ctx.identity.value
    ensures r.Failure? ==> r.status == Unauthorized
  {
    match ctx.identity
    case Some(u) => Success(u)
    case None => Failure(Unauthorized, None)
  }

  /** `sessions.setSession(id)`: the session now names this user; the identity is untouched. */
  function SetSession(ctx: Context, id: Uuid): (c: Context)
    ensures c.session == Some(id) && c.identity == ctx.identity
  {
    ctx.(session := Some(id))
  }

  /** `sessions.clearSession()`: the session is empty afterwards, whatever it was before. */
  function ClearSession(ctx: Context): (c: Context)
    ensures c.session.None? && c.identity == ctx.identity
  {
    ctx.(session := None)
  }

  /** What a handler hands back, together with the store and request context after it. */
  datatype Exchange<+B> = Exchange(response: Response<B>, db: Db, ctx: Context)

  /** The parts of an HTTP request the handlers look at; `body` is already decoded. */
  datatype Request<+B> = Request(contentType: Option<string>, authority: Option<string>, body: B)

  /** The outcome of a route that stopped at an error, with nothing changed. */
  function Refuse<B>(db: Db, ctx: Context, status: Status): (x: Exchange<B>)
    ensures x.response == Error(status) && x.db == db && x.ctx == ctx
  {
    Exchange(Error(status), db, ctx)
  }

  /** Clearing is idempotent: clearing an empty session is no error and changes nothing. */
  lemma ClearSessionIdempotent(ctx: Context)
    ensures ClearSession(ClearSession(ctx)) == ClearSession(ctx)
    ensures ctx.session.None? ==> ClearSession(ctx) == ctx
  {
  }

  /** Clearing undoes any earlier set. */
  lemma ClearAfterSet(ctx: Context, id: Uuid)
    ensures ClearSession(SetSession(ctx, id)) == ClearSession(ctx)
  {
  }
}
