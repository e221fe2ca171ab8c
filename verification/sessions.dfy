/**
 How a session carries an identity from one request to the next, and the
 properties that span several requests: a session set by sign-up or log-in
 resolves to that user on the next request, a wrong password never yields
 one, and a whole sign-up-to-delete conversation behaves as expected.
 */
module Sessions {
  import opened Wrappers
  import opened Identifiers
  import opened Http
  import opened TodoModel
  import opened UserModel
  import opened Database
  import opened UserRepository
  import opened RequestContext
  import Accounts
  import RequestDecoder
  import SwiftString
  import TodoController
  import UserController
  import ViewController
  import TodoProperties

  /**
   The context of the next request on the same session: the session
   authenticator resolves the stored session value with `getUser(from:)`;
   an unknown value gives no identity rather than an error.
   */
  function Resume(db: Db, session: Option<Uuid>): (c: Context)
    ensures c.session == session
    ensures session.None? ==> c.identity.None?
    ensures session.Some? ==> c.identity == GetUserFrom(db, session.value)
    ensures c.identity.Some? ==> c.identity.value in db.users && c.identity.value.id == session.value
  {
    match session
    case None => Context(None, None)
    case Some(id) => Context(GetUserFrom(db, id), session)
  }

  /** A session value naming no stored user resumes as unauthenticated. */
  lemma UnknownSessionIsUnauthenticated(db: Db, id: Uuid)
    requires !HasUser(db.users, id)
    ensures Resume(db, Some(id)).identity.None?
  {
  }

  /**
   A successful sign-up keeps the store valid, and on the next request the
   session it set resolves to the new account.
   */
  lemma SignupEstablishesSession(ctx: Context, db: Db, req: Request<ViewController.SignupDetails>,
                                 h: Hasher, salt: Salt, newId: Uuid, nfd: SwiftString.Normalizer)
    requires Valid(db)
    requires !HasUser(db.users, newId)
    requires ViewController.SignupDetailsPost(ctx, db, req, h, salt, newId, nfd).response.Redirect?
    ensures var x := ViewController.SignupDetailsPost(ctx, db, req, h, salt, newId, nfd);
            && Valid(x.db)
            && x.ctx.session == Some(newId)
            && Resume(x.db, x.ctx.session).identity
               == Some(NewUser(newId, req.body.name, req.body.email, h.hash(req.body.password, salt)))
  {
    var b := req.body;
    Accounts.CreatePreservesValid(db, b.name, b.email, b.password, h, salt, newId);
    Accounts.CreateThenLookup(db, b.name, b.email, b.password, h, salt, newId);
  }

  /** A successful log-in sets a session that resolves to the user with that email. */
  lemma LoginEstablishesSession(ctx: Context, db: Db, req: Request<ViewController.LoginDetails>, h: Hasher)
    requires Valid(db)
    requires ViewController.LoginDetailsPost(ctx, db, req, h).response.Redirect?
    ensures var x := ViewController.LoginDetailsPost(ctx, db, req, h);
            && x.ctx.session.Some?
            && Resume(db, x.ctx.session).identity.Some?
            && Resume(db, x.ctx.session).identity.value.email == req.body.email
  {
    var user := Accounts.Login(db, req.body.email, req.body.password, h).value;
    SessionResolvesStoredUser(db, user);
  }

  /** A failed log-in sets no session: the context is exactly as it was. */
  lemma FailedLoginSetsNoSession(ctx: Context, db: Db, req: Request<ViewController.LoginDetails>, h: Hasher)
    requires Accounts.Login(db, req.body.email, req.body.password, h).None?
    ensures ViewController.LoginDetailsPost(ctx, db, req, h).ctx == ctx
    ensures ViewController.LoginDetailsPost(ctx, db, req, h).response.Redirect? == false
  {
  }

  /**
   A basic-auth log-in on `/api/users/login` sets a session on which the
   next request's `GET /api/users` answers with that user's id.
   */
  lemma LoginThenCurrent(ctx: Context, db: Db)
    requires Valid(db)
    requires ctx.identity.Some? && ctx.identity.value in db.users
    ensures var x := UserController.Login(ctx, db);
            UserController.Current(Resume(x.db, x.ctx.session), x.db).response
              == Content(OK, UserResponse(Some(ctx.identity.value.id)))
  {
    SessionResolvesStoredUser(db, ctx.identity.value);
  }

  /**
   Sign up, then log in from a fresh request with the same credentials:
   the log-in succeeds and its session names the new account. With a
   collision-free hash, a password from which bcrypt reads a different key
   is refused.
   */
  lemma SignupThenLogin(db: Db, req: Request<ViewController.SignupDetails>, h: Hasher,
                        salt: Salt, newId: Uuid, nfd: SwiftString.Normalizer,
                        loginType: Option<string>, wrong: string)
    requires Sound(h) && CollisionFree(h)
    requires Valid(db)
    requires !HasUser(db.users, newId)
    requires ViewController.SignupDetailsPost(Initial(), db, req, h, salt, newId, nfd).response.Redirect?
    requires RequestDecoder.Decode(loginType).Success?
    requires BcryptKey(wrong) != BcryptKey(req.body.password)
    ensures var x := ViewController.SignupDetailsPost(Initial(), db, req, h, salt, newId, nfd);
            var ok := Request(loginType, None, ViewController.LoginDetails(req.body.email, req.body.password));
            var bad := Request(loginType, None, ViewController.LoginDetails(req.body.email, wrong));
            && ViewController.LoginDetailsPost(Initial(), x.db, ok, h).response == Redirect(Found, ViewController.DashboardPath)
            && ViewController.LoginDetailsPost(Initial(), x.db, ok, h).ctx.session == Some(newId)
            && ViewController.LoginDetailsPost(Initial(), x.db, bad, h).response.Content?
            && ViewController.LoginDetailsPost(Initial(), x.db, bad, h).response.status == BadRequest
  {
    var b := req.body;
    Accounts.CreateThenLogin(db, b.name, b.email, b.password, h, salt, newId);
    Accounts.CreateThenWrongPassword(db, b.name, b.email, b.password, h, salt, newId, wrong);
  }

  /** In a valid store, an id that names no user owns no todo. */
  lemma UnknownUserOwnsNothing(db: Db, uid: Uuid)
    requires Valid(db)
    requires !HasUser(db.users, uid)
    ensures OwnedBy(db.todos, uid) == []
  {
    forall t | t in db.todos ensures t.ownerId != uid {
      var k :| 0 <= k < |db.users| && db.users[k].id == t.ownerId;
    }
    OwnedByNone(db.todos, uid);
  }

  /** A todo created by a user who owned none is then the whole of that user's list. */
  lemma CreateThenList(ctx: Context, db: Db, tid: Uuid, req: Request<TodoController.CreateTodoRequest>)
    requires ctx.identity.Some?
    requires OwnedBy(db.todos, ctx.identity.value.id) == []
    requires TodoController.Create(ctx, db, req, tid).response.Content?
    ensures var x := TodoController.Create(ctx, db, req, tid);
            TodoController.List(ctx, x.db).response == Content(OK, [x.response.body])
  {
    var x := TodoController.Create(ctx, db, req, tid);
    var t := x.response.body;
    OwnedByAppend(db.todos, t, ctx.identity.value.id);
    assert t.ownerId == ctx.identity.value.id;
    assert OwnedBy(x.db.todos, ctx.identity.value.id) == [] + [t] == [t];
    assert TodoController.List(ctx, x.db).response == Content(OK, OwnedBy(x.db.todos, ctx.identity.value.id));
  }

  /** Deleting one's own todo and then asking for it answers with no todo (204), not 404. */
  lemma DeleteThenGet(ctx: Context, db: Db, id: Uuid)
    requires Valid(db)
    requires TodoController.Delete(ctx, db, Some(id)).response.Content?
    ensures var x := TodoController.Delete(ctx, db, Some(id));
            TodoController.Get(ctx, x.db, Some(id)).response == Content(NoContent, None)
  {
    TodoProperties.DeleteRemovesOnlyTarget(ctx, db, id);
  }

  /**
   The life of one todo for a signed-in user who owns none yet: create it,
   list it, mark it done, delete it, ask for it again. The list holds
   exactly that todo, the edit flips only the flag, and after the delete
   `get` answers with no todo (204), not with 404.
   */
  lemma TodoLifecycle(ctx: Context, db: Db, tid: Uuid, title: string,
                      contentType: Option<string>, host: string)
    requires Valid(db)
    requires ctx.identity.Some? && ctx.identity.value in db.users
    requires OwnedBy(db.todos, ctx.identity.value.id) == []
    requires !HasTodo(db.todos, tid)
    requires RequestDecoder.Decode(contentType).Success?
    ensures
      var todo := Todo(tid, title, ctx.identity.value.id, false);
      var x2 := TodoController.Create(ctx, db, Request(contentType, Some(host), TodoController.CreateTodoRequest(title)), tid);
      var x3 := TodoController.List(ctx, x2.db);
      var x4 := TodoController.Edit(ctx, x3.db, Some(tid),
                  Request(contentType, Some(host), TodoController.EditTodoRequest(None, Some(true))));
      var x5 := TodoController.Delete(ctx, x4.db, Some(tid));
      var x6 := TodoController.Get(ctx, x5.db, Some(tid));
      && x2.response == Content(Created, todo)
      && x3.response == Content(OK, [todo])
      && x4.response == Content(OK, TodoController.TodoWithOwner(todo.(completed := true), ctx.identity.value))
      && x5.response == Content(OK, ())
      && x6.response == Content(NoContent, None)
  {
    var uid := ctx.identity.value.id;
    var todo := Todo(tid, title, uid, false);
    var create := Request(contentType, Some(host), TodoController.CreateTodoRequest(title));
    var x2 := TodoController.Create(ctx, db, create, tid);
    CreateThenList(ctx, db, tid, create);
    assert HasUser(db.users, uid) by {
      var k :| 0 <= k < |db.users| && db.users[k] == ctx.identity.value;
    }
    TodoProperties.CreatePreservesValid(ctx, db, create, tid);

    var edit := Request(contentType, Some(host), TodoController.EditTodoRequest(None, Some(true)));
    assert todo in x2.db.todos by {
      assert x2.db.todos[|db.todos|] == todo;
    }
    FindTodoUnique(x2.db.todos, todo);
    var x4 := TodoController.Edit(ctx, x2.db, Some(tid), edit);
    TodoProperties.EditDisclosesOwner(ctx, x2.db, Some(tid), edit, ctx.identity.value);
    TodoProperties.EditPreservesValid(ctx, x2.db, Some(tid), edit);
    var done := todo.(completed := true);
    assert done in x4.db.todos by {
      assert x4.db.todos[|db.todos|] == done;
    }
    FindTodoUnique(x4.db.todos, done);
    DeleteThenGet(ctx, x4.db, tid);
  }

  /**
   A whole conversation from the browser: sign up through the form, which
   signs the new user in, then run the todo lifecycle on the session it set.
   */
  lemma SignupToDeleteScenario(db: Db, details: ViewController.SignupDetails, h: Hasher, salt: Salt,
                               uid: Uuid, tid: Uuid, form: Option<string>, json: Option<string>, host: string,
                               nfd: SwiftString.Normalizer)
    requires Valid(db)
    requires !HasUser(db.users, uid) && !HasTodo(db.todos, tid)
    requires !EmailTaken(db.users, details.email)
    requires SwiftString.Equal(nfd, details.password, details.confirmPassword)
    requires RequestDecoder.Decode(form).Success? && RequestDecoder.Decode(json).Success?
    ensures
      var x1 := ViewController.SignupDetailsPost(Initial(), db, Request(form, Some(host), details), h, salt, uid, nfd);
      var ctx := Resume(x1.db, x1.ctx.session);
      var user := NewUser(uid, details.name, details.email, h.hash(details.password, salt));
      var todo := Todo(tid, "Buy milk", uid, false);
      var x2 := TodoController.Create(ctx, x1.db, Request(json, Some(host), TodoController.CreateTodoRequest("Buy milk")), tid);
      var x3 := TodoController.List(ctx, x2.db);
      var x4 := TodoController.Edit(ctx, x3.db, Some(tid),
                  Request(json, Some(host), TodoController.EditTodoRequest(None, Some(true))));
      var x5 := TodoController.Delete(ctx, x4.db, Some(tid));
      var x6 := TodoController.Get(ctx, x5.db, Some(tid));
      && x1.response == Redirect(Found, ViewController.DashboardPath)
      && x2.response == Content(Created, todo)
      && x3.response == Content(OK, [todo])
      && x4.response == Content(OK, TodoController.TodoWithOwner(todo.(completed := true), user))
      && x5.response == Content(OK, ())
      && x6.response == Content(NoContent, None)
  {
    var signup := Request(form, Some(host), details);
    var x1 := ViewController.SignupDetailsPost(Initial(), db, signup, h, salt, uid, nfd);
    SignupEstablishesSession(Initial(), db, signup, h, salt, uid, nfd);
    var ctx := Resume(x1.db, x1.ctx.session);
    UnknownUserOwnsNothing(db, uid);
    TodoLifecycle(ctx, x1.db, tid, "Buy milk", json, host);
  }
}
