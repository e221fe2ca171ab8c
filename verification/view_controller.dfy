/**
 `ViewController`: the HTML routes, reduced to their decisions. The pages
 themselves are abstracted to the `Page` they would render; which page,
 with which status, and what happens to the store and the session is
 modelled exactly.
 */
module ViewController {
  import opened Wrappers
  import opened Identifiers
  import opened Http
  import opened TodoModel
  import opened UserModel
  import opened Database
  import opened RequestContext
  import Accounts
  import RequestDecoder
  import SwiftString

  const DashboardPath := "/dashboard"
  const LogInPath := "/log-in"
  const PasswordsDoNotMatch := "Passwords do not match"
  const InvalidCredentials := "Invalid credentials"

  /** Which form an authentication page shows. */
  datatype AuthAction = SignUpForm | LogInForm

  /** The page a handler renders: an authentication form (with an error, if any) or the dashboard. */
  datatype Page =
    | AuthPage(action: AuthAction, errorMessage: Option<string>)
    | DashboardPage(user: User, todos: seq<Todo>)

  /** Form body of `POST /sign-up`. */
  datatype SignupDetails = SignupDetails(name: string, email: string, password: string, confirmPassword: string)

  /** Form body of `POST /log-in`. */
  datatype LoginDetails = LoginDetails(email: string, password: string)

  /**
   `RedirectMiddleware.handle`: with an identity the next handler runs and
   its outcome is the outcome; without one the handler does not run, the
   answer is 302 Found to the configured path, and nothing changes.
   */
  function Redirecting<B>(to: string, ctx: Context, db: Db, next: (Context, Db) -> Exchange<B>): (x: Exchange<B>)
    ensures ctx.identity.Some? ==> x == next(ctx, db)
    ensures ctx.identity.None? ==> x == Exchange(Redirect(Found, to), db, ctx)
  {
    if ctx.identity.Some? then next(ctx, db) else Exchange(Redirect(Found, to), db, ctx)
  }

  /** `dashboard`: the caller's own todos on the dashboard page, or 401 without an identity. */
  function Dashboard(ctx: Context, db: Db): (x: Exchange<Page>)
    ensures x.db == db && x.ctx == ctx
    ensures ctx.identity.None? ==> x.response == Error(Unauthorized)
    ensures ctx.identity.Some? ==>
              && x.response.Content? && x.response.status == OK
              && x.response.body.DashboardPage? && x.response.body.user == ctx.identity.value
              && (forall t :: t in x.response.body.todos <==> t in db.todos && t.ownerId == ctx.identity.value.id)
              && forall t :: multiset(x.response.body.todos)[t]
                             == if t.ownerId == ctx.identity.value.id then multiset(db.todos)[t] else 0
  {
    match RequireIdentity(ctx)
    case Failure(status, _) => Refuse(db, ctx, status)
    case Success(user) =>
      OwnedByCounts(db.todos, user.id);
      Exchange(Content(OK, DashboardPage(user, OwnedBy(db.todos, user.id))), db, ctx)
  }

  /** `GET /dashboard` as mounted: the dashboard behind `RedirectMiddleware(to: "/log-in")`. */
  function GuardedDashboard(ctx: Context, db: Db): (x: Exchange<Page>)
    ensures x.db == db && x.ctx == ctx
    ensures ctx.identity.None? <==> x.response == Redirect(Found, LogInPath)
    ensures ctx.identity.Some? ==> x.response.Content? && x.response.body.DashboardPage?
  {
    Redirecting(LogInPath, ctx, db, Dashboard)
  }

  /**
   `signupDetails`: a body that does not decode is a 400 error; passwords
   that differ as Swift strings (not canonically equivalent under `nfd`)
   re-render the form with 400; a taken email re-renders it with
   409; otherwise the account is created, the session names it, and the
   answer is 302 Found to `/dashboard`.
   */
  function SignupDetailsPost(ctx: Context, db: Db, req: Request<SignupDetails>,
                             h: Hasher, salt: Salt, newId: Uuid, nfd: SwiftString.Normalizer): (x: Exchange<Page>)
    ensures x.response.Redirect? <==> x.db != db
    ensures !x.response.Redirect? ==> x.db == db && x.ctx == ctx
    ensures RequestDecoder.Decode(req.contentType).Failure? ==> x.response == Error(BadRequest)
    ensures RequestDecoder.Decode(req.contentType).Success?
            && !SwiftString.Equal(nfd, req.body.password, req.body.confirmPassword) ==>
              x.response == Content(BadRequest, AuthPage(SignUpForm, Some(PasswordsDoNotMatch)))
    ensures RequestDecoder.Decode(req.contentType).Success?
            && SwiftString.Equal(nfd, req.body.password, req.body.confirmPassword)
            && EmailTaken(db.users, req.body.email) ==>
              x.response == Content(Conflict, AuthPage(SignUpForm, Some(Accounts.EmailInUse)))
    ensures x.response.Redirect? ==>
              var user := NewUser(newId, req.body.name, req.body.email, h.hash(req.body.password, salt));
              && x.response == Redirect(Found, DashboardPath)
              && x.db == db.(users := db.users + [user])
              && x.ctx == SetSession(ctx, newId)
  {
    match RequestDecoder.Decode(req.contentType)
    case Failure(status, _) => Refuse(db, ctx, status)
    case Success(_) =>
      var details := req.body;
      if !SwiftString.Equal(nfd, details.password, details.confirmPassword) then
        Exchange(Content(BadRequest, AuthPage(SignUpForm, Some(PasswordsDoNotMatch))), db, ctx)
      else
        var s := Accounts.CreateUser(db, details.name, details.email, details.password, h, salt, newId);
        match s.result
        case Failure(status, message) =>
          if status == BadRequest || status == Conflict then
            Exchange(Content(status, AuthPage(SignUpForm, message)), s.db, ctx)
          else Refuse(s.db, ctx, status)
        case Success(user) =>
          Exchange(Redirect(Found, DashboardPath), s.db, SetSession(ctx, user.id))
  }

  /**
   Passwords that Swift considers equal, identical ones included, pass the
   check: with a free email the account is created and the browser is sent
   to `/dashboard`. The stored hash is of the `password` field.
   */
  lemma MatchingPasswordsSignUp(ctx: Context, db: Db, req: Request<SignupDetails>,
                                h: Hasher, salt: Salt, newId: Uuid, nfd: SwiftString.Normalizer)
    requires RequestDecoder.Decode(req.contentType).Success?
    requires SwiftString.Equal(nfd, req.body.password, req.body.confirmPassword)
    requires !EmailTaken(db.users, req.body.email)
    ensures var x := SignupDetailsPost(ctx, db, req, h, salt, newId, nfd);
            && x.response == Redirect(Found, DashboardPath)
            && NewUser(newId, req.body.name, req.body.email, h.hash(req.body.password, salt)) in x.db.users
  {
  }

  /**
   `loginDetails`: a body that does not decode is a 400 error; when
   `User.login` finds the user the session names it and the answer is 302
   Found to `/dashboard`; otherwise the form is re-rendered with "Invalid
   credentials" and 400. The store is never changed.
   */
  function LoginDetailsPost(ctx: Context, db: Db, req: Request<LoginDetails>, h: Hasher): (x: Exchange<Page>)
    ensures x.db == db
    ensures !x.response.Redirect? ==> x.ctx == ctx
    ensures RequestDecoder.Decode(req.contentType).Failure? ==> x.response == Error(BadRequest)
    ensures RequestDecoder.Decode(req.contentType).Success? ==>
              match Accounts.Login(db, req.body.email, req.body.password, h)
              case None =>
                x.response == Content(BadRequest, AuthPage(LogInForm, Some(InvalidCredentials)))
              case Some(user) =>
                x.response == Redirect(Found, DashboardPath) && x.ctx == SetSession(ctx, user.id)
  {
    match RequestDecoder.Decode(req.contentType)
    case Failure(status, _) => Refuse(db, ctx, status)
    case Success(_) =>
      match Accounts.Login(db, req.body.email, req.body.password, h)
      case Some(user) => Exchange(Redirect(Found, DashboardPath), db, SetSession(ctx, user.id))
      case None => Exchange(Content(BadRequest, AuthPage(LogInForm, Some(InvalidCredentials))), db, ctx)
  }
}
