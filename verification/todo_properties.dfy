/**
 Properties of the `/api/todos` routes that relate several calls or the
 whole store: the identity gate, the ownership gap in `get`, the owner row
 the eager load discloses and the id-only replies that avoid it, what an
 edit or a delete leaves alone, and preservation of the schema invariants.
 */
module TodoProperties {
  import opened Wrappers
  import opened Identifiers
  import opened Http
  import opened TodoModel
  import opened UserModel
  import opened Database
  import opened RequestContext
  import opened TodoController
  import RequestDecoder

  /** Without an identity every todo route answers 401 and touches nothing. */
  lemma UnauthenticatedRoutesFail(ctx: Context, db: Db, id: Option<Uuid>, newId: Uuid,
                                  create: Request<CreateTodoRequest>, edit: Request<EditTodoRequest>)
    requires ctx.identity.None?
    ensures List(ctx, db) == Exchange(Error(Unauthorized), db, ctx)
    ensures Create(ctx, db, create, newId) == Exchange(Error(Unauthorized), db, ctx)
    ensures Get(ctx, db, id) == Exchange(Error(Unauthorized), db, ctx)
    ensures GetIdOnly(ctx, db, id) == Exchange(Error(Unauthorized), db, ctx)
    ensures Edit(ctx, db, id, edit) == Exchange(Error(Unauthorized), db, ctx)
    ensures EditIdOnly(ctx, db, id, edit) == Exchange(Error(Unauthorized), db, ctx)
    ensures Delete(ctx, db, id) == Exchange(Error(Unauthorized), db, ctx)
  {
  }

  /** Two different callers never see each other's todos in their lists. */
  lemma ListIsolatesOwners(a: User, b: User, db: Db, t: Todo)
    requires a.id != b.id
    requires t in db.todos && t.ownerId == a.id
    ensures t in List(Context(Some(a), None), db).response.body
    ensures t !in List(Context(Some(b), None), db).response.body
  {
  }

  /**
   `get` checks no ownership: in a valid store any authenticated caller
   receives any user's todo by its id, with the owner's stored row.
   */
  lemma GetIgnoresOwnership(ctx: Context, db: Db, t: Todo, owner: User)
    requires Valid(db)
    requires ctx.identity.Some?
    requires t in db.todos
    requires owner in db.users && owner.id == t.ownerId
    ensures Get(ctx, db, Some(t.id)).response == Content(OK, Some(TodoWithOwner(t, owner)))
  {
    FindTodoUnique(db.todos, t);
    FindUserUnique(db.users, owner);
  }

  /**
   The eager-loaded owner is disclosed: a caller who is not the owner
   receives the owner's email and password hash in the body of `get`.
   */
  lemma GetDisclosesOwner(ctx: Context, db: Db, t: Todo, owner: User)
    requires Valid(db)
    requires t in db.todos
    requires owner in db.users && owner.id == t.ownerId
    requires ctx.identity.Some? && ctx.identity.value.id != owner.id
    ensures var r := Get(ctx, db, Some(t.id)).response;
            && r.Content? && r.body.Some?
            && r.body.value.owner.email == owner.email
            && r.body.value.owner.passwordHash == owner.passwordHash
  {
    GetIgnoresOwnership(ctx, db, t, owner);
  }

  /** A successful edit returns the caller's own stored user row, password hash included. */
  lemma EditDisclosesOwner(ctx: Context, db: Db, id: Option<Uuid>, req: Request<EditTodoRequest>, owner: User)
    requires Valid(db)
    requires owner in db.users
    requires Edit(ctx, db, id, req).response.Content?
    requires owner.id == ctx.identity.value.id
    ensures Edit(ctx, db, id, req).response.body.owner == owner
  {
    var loaded := Edit(ctx, db, id, req).response.body.owner;
    FindUserUnique(db.users, owner);
    FindUserUnique(db.users, loaded);
  }

  /** Without the eager load, the reply of `get` does not depend on the users table at all. */
  lemma GetIdOnlyHidesUsers(ctx: Context, db: Db, id: Option<Uuid>, users: seq<User>)
    ensures GetIdOnly(ctx, db.(users := users), id).response == GetIdOnly(ctx, db, id).response
  {
  }

  /** Without the eager load, neither the reply of `update` nor its effect depends on the users table. */
  lemma EditIdOnlyHidesUsers(ctx: Context, db: Db, id: Option<Uuid>, req: Request<EditTodoRequest>, users: seq<User>)
    ensures EditIdOnly(ctx, db.(users := users), id, req).response == EditIdOnly(ctx, db, id, req).response
    ensures EditIdOnly(ctx, db.(users := users), id, req).db.todos == EditIdOnly(ctx, db, id, req).db.todos
  {
  }

  /**
   In a valid store the id-only `get` behaves exactly as the route does,
   except that the owner row is left out of the body.
   */
  lemma GetIdOnlyRedactsGet(ctx: Context, db: Db, id: Option<Uuid>)
    requires Valid(db)
    ensures var x := Get(ctx, db, id);
            var y := GetIdOnly(ctx, db, id);
            && y.db == x.db
            && (x.response.Error? ==> y.response == Error(x.response.status))
            && (x.response.Content? <==> y.response.Content?)
            && (x.response.Content? ==>
                  && y.response.status == x.response.status
                  && (y.response.body.Some? <==> x.response.body.Some?)
                  && (y.response.body.Some? ==> y.response.body.value == x.response.body.value.todo))
  {
    if ctx.identity.Some? && id.Some? && HasTodo(db.todos, id.value) {
      assert FindTodo(db.todos, id.value).value in db.todos;
    }
  }

  /**
   In a valid store the id-only `update` answers and stores exactly as the
   route does, except that the owner row is left out of the body.
   */
  lemma EditIdOnlyRedactsEdit(ctx: Context, db: Db, id: Option<Uuid>, req: Request<EditTodoRequest>)
    requires Valid(db)
    ensures var x := Edit(ctx, db, id, req);
            var y := EditIdOnly(ctx, db, id, req);
            && y.db == x.db
            && (x.response.Error? ==> y.response == Error(x.response.status))
            && (x.response.Content? <==> y.response.Content?)
            && (x.response.Content? ==> y.response == Content(x.response.status, x.response.body.todo))
  {
    if ctx.identity.Some? && id.Some? && HasTodo(db.todos, id.value) {
      assert FindTodo(db.todos, id.value).value in db.todos;
    }
  }

  /** An edit by the owner changes that one row and leaves every other row as it was. */
  lemma EditTouchesOnlyTarget(ctx: Context, db: Db, id: Uuid, req: Request<EditTodoRequest>)
    requires Valid(db)
    requires Edit(ctx, db, Some(id), req).response.Content?
    ensures var db' := Edit(ctx, db, Some(id), req).db;
            && db'.users == db.users
            && |db'.todos| == |db.todos|
            && (forall i :: 0 <= i < |db.todos| && db.todos[i].id != id ==> db'.todos[i] == db.todos[i])
            && (forall i :: 0 <= i < |db.todos| && db.todos[i].id == id ==>
                  db'.todos[i] == Update(db.todos[i], req.body.title, req.body.completed))
  {
    var x := Edit(ctx, db, Some(id), req);
    var t := FindTodo(db.todos, id).value;
    assert HasTodo(db.todos, id) && HasUser(db.users, t.ownerId) && t.ownerId == ctx.identity.value.id;
    forall i | 0 <= i < |db.todos| && db.todos[i].id == id
      ensures db.todos[i] == t
    {
      var k :| 0 <= k < |db.todos| && db.todos[k] == t;
      assert k == i;
    }
  }

  /** A foreign todo cannot be edited: a decodable patch gets 401 and the store is unchanged. */
  lemma ForeignEditIsRefused(ctx: Context, db: Db, t: Todo, req: Request<EditTodoRequest>)
    requires Valid(db)
    requires t in db.todos
    requires ctx.identity.Some? && ctx.identity.value.id != t.ownerId
    requires RequestDecoder.Decode(req.contentType).Success?
    ensures Edit(ctx, db, Some(t.id), req) == Exchange(Error(Unauthorized), db, ctx)
  {
    FindTodoUnique(db.todos, t);
  }

  /** A foreign todo cannot be deleted: 401 and the store is unchanged. */
  lemma ForeignDeleteIsRefused(ctx: Context, db: Db, t: Todo)
    requires Valid(db)
    requires t in db.todos
    requires ctx.identity.Some? && ctx.identity.value.id != t.ownerId
    ensures Delete(ctx, db, Some(t.id)) == Exchange(Error(Unauthorized), db, ctx)
  {
    FindTodoUnique(db.todos, t);
  }

  /** A delete by the owner removes exactly the rows with that id and nothing else. */
  lemma DeleteRemovesOnlyTarget(ctx: Context, db: Db, id: Uuid)
    requires Delete(ctx, db, Some(id)).response.Content?
    ensures var db' := Delete(ctx, db, Some(id)).db;
            && db'.users == db.users
            && !HasTodo(db'.todos, id)
            && forall t :: t in db'.todos <==> t in db.todos && t.id != id
  {
  }

  /** Deleting is not idempotent: the second delete of the same id is a 404. */
  lemma DeleteTwiceIsNotFound(ctx: Context, db: Db, id: Uuid)
    requires Delete(ctx, db, Some(id)).response.Content?
    ensures var db' := Delete(ctx, db, Some(id)).db;
            Delete(ctx, db', Some(id)) == Exchange(Error(NotFound), db', ctx)
  {
    DeleteRemovesOnlyTarget(ctx, db, id);
  }

  /**
   A create by a stored user under a fresh id keeps the schema invariants:
   the new row's id is unique and its owner exists.
   */
  lemma CreatePreservesValid(ctx: Context, db: Db, req: Request<CreateTodoRequest>, newId: Uuid)
    requires Valid(db)
    requires !HasTodo(db.todos, newId)
    requires ctx.identity.Some? ==> HasUser(db.users, ctx.identity.value.id)
    ensures Valid(Create(ctx, db, req, newId).db)
  {
    var x := Create(ctx, db, req, newId);
    if x.response.Content? {
      var todos := x.db.todos;
      forall i, j | 0 <= i < j < |todos|
        ensures todos[i].id != todos[j].id
      {
        if j == |db.todos| {
          assert todos[i] == db.todos[i];
        }
      }
      forall t | t in todos
        ensures HasUser(x.db.users, t.ownerId)
      {
        if t != x.response.body {
          assert t in db.todos;
        }
      }
    }
  }

  /** An edit keeps the schema invariants: ids and owners of every row are unchanged. */
  lemma EditPreservesValid(ctx: Context, db: Db, id: Option<Uuid>, req: Request<EditTodoRequest>)
    requires Valid(db)
    ensures Valid(Edit(ctx, db, id, req).db)
  {
    var x := Edit(ctx, db, id, req);
    if x.response.Content? {
      var found := FindTodo(db.todos, id.value).value;
      var u := Update(found, req.body.title, req.body.completed);
      assert x.db == db.(todos := ReplaceTodo(db.todos, id.value, u));
      assert HasUser(db.users, u.ownerId) by {
        assert found in db.todos;
      }
      ReplacePreservesValid(db, id.value, u);
    }
  }

  /** A delete keeps the schema invariants: removing rows breaks no key and orphans nothing. */
  lemma DeletePreservesValid(ctx: Context, db: Db, id: Option<Uuid>)
    requires Valid(db)
    ensures Valid(Delete(ctx, db, id).db)
  {
    var x := Delete(ctx, db, id);
    if x.response.Content? {
      RemovePreservesUniqueIds(db.todos, id.value);
    }
  }
}
