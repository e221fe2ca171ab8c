/**
 `TodoController`: the `/api/todos` routes. Every route first builds a
 `TodoContext`, which demands an identity; `update` and `deleteId` then
 look the todo up, answer 404 when it is missing and 401 when it belongs
 to someone else, and only then change the store. `get`, `update` and
 `deleteId` eager-load the todo's owner; `get` performs no ownership check
 at all, and the model keeps both as written.
 */
module TodoController {
  import opened Wrappers
  import opened Identifiers
  import opened Http
  import opened TodoModel
  import opened UserModel
  import opened Database
  import opened RequestContext
  import RequestDecoder

  /** Body of `POST /api/todos`. */
  datatype CreateTodoRequest = CreateTodoRequest(title: string)

  /** Body of `PATCH /api/todos/:id`: both fields optional. */
  datatype EditTodoRequest = EditTodoRequest(title: Option<string>, completed: Option<bool>)

  /** `GET /api/todos`: the caller's own todos, in table order. */
  function List(ctx: Context, db: Db): (x: Exchange<seq<Todo>>)
    ensures x.db == db && x.ctx == ctx
    ensures ctx.identity.None? ==> x.response == Error(Unauthorized)
    ensures ctx.identity.Some? ==>
              && x.response.Content? && x.response.status == OK
              && (forall t :: t in x.response.body <==> t in db.todos && t.ownerId == ctx.identity.value.id)
              && forall t :: multiset(x.response.body)[t]
                             == if t.ownerId == ctx.identity.value.id then multiset(db.todos)[t] else 0
  {
    match RequireIdentity(ctx)
    case Failure(status, _) => Refuse(db, ctx, status)
    case Success(user) =>
      OwnedByCounts(db.todos, user.id);
      Exchange(Content(OK, OwnedBy(db.todos, user.id)), db, ctx)
  }

  /**
   `POST /api/todos`: decode the body, demand a Host header, then store a
   new incomplete todo owned by the caller under the UUID chosen for it
   and answer 201 Created with it.
   */
  function Create(ctx: Context, db: Db, req: Request<CreateTodoRequest>, newId: Uuid): (x: Exchange<Todo>)
    ensures x.ctx == ctx
    ensures ctx.identity.None? ==> x.response == Error(Unauthorized) && x.db == db
    ensures ctx.identity.Some? && RequestDecoder.Decode(req.contentType).Failure? ==>
              x.response == Error(BadRequest) && x.db == db
    ensures ctx.identity.Some? && req.authority.None? ==> x.response == Error(BadRequest) && x.db == db
    ensures x.response.Error? ==> x.db == db
    ensures x.response.Content? <==>
              ctx.identity.Some? && RequestDecoder.Decode(req.contentType).Success? && req.authority.Some?
    ensures x.response.Content? ==>
              var t := x.response.body;
              && x.response.status == Created
              && t == Todo(newId, req.body.title, ctx.identity.value.id, false)
              && x.db == db.(todos := db.todos + [t])
  {
    match RequireIdentity(ctx)
    case Failure(status, _) => Refuse(db, ctx, status)
    case Success(user) =>
      match RequestDecoder.Decode(req.contentType)
      case Failure(status, _) => Refuse(db, ctx, status)
      case Success(_) =>
        if req.authority.None? then Refuse(db, ctx, BadRequest)
        else
          var todo := NewTodo(newId, req.body.title, user.id);
          Exchange(Content(Created, todo), db.(todos := db.todos + [todo]), ctx)
  }

  /**
   A todo as `get` and `update` encode it. Both queries eager-load the
   `owner` parent, and a loaded parent is encoded as the whole parent row,
   so the body carries the owner's name, email and password hash.
   */
  datatype TodoWithOwner = TodoWithOwner(todo: Todo, owner: User)

  /**
   `.with(\.$owner)` on a query that found `todo`: the owner row is
   attached, or, when no user has the todo's owner id, the eager load
   throws, which the framework answers with 500.
   */
  function LoadOwner(db: Db, todo: Todo): (r: Result<TodoWithOwner>)
    ensures r.Success? <==> HasUser(db.users, todo.ownerId)
    ensures r.Success? ==> && r.value.todo == todo
                           && r.value.owner in db.users
                           && r.value.owner.id == todo.ownerId
    ensures r.Failure? ==> r.status == InternalServerError
  {
    match FindUser(db.users, todo.ownerId)
    case None => Failure(InternalServerError, None)
    case Some(owner) => Success(TodoWithOwner(todo, owner))
  }

  /**
   `GET /api/todos/:id`: the todo with that id, whoever owns it, together
   with its owner's full user row, or no todo (which the framework answers
   with 204 No Content). A path segment that is not a UUID is a 400.
   */
  function Get(ctx: Context, db: Db, id: Option<Uuid>): (x: Exchange<Option<TodoWithOwner>>)
    ensures x.db == db && x.ctx == ctx
    ensures ctx.identity.None? ==> x.response == Error(Unauthorized)
    ensures ctx.identity.Some? && id.None? ==> x.response == Error(BadRequest)
    ensures ctx.identity.Some? && id.Some? && !HasTodo(db.todos, id.value) ==>
              x.response == Content(NoContent, None)
    ensures ctx.identity.Some? && id.Some? && HasTodo(db.todos, id.value) ==>
              var t := FindTodo(db.todos, id.value).value;
              && (!HasUser(db.users, t.ownerId) ==> x.response == Error(InternalServerError))
              && (HasUser(db.users, t.ownerId) ==>
                    && x.response.Content? && x.response.status == OK && x.response.body.Some?
                    && x.response.body.value.todo in db.todos
                    && x.response.body.value.todo.id == id.value
                    && x.response.body.value.owner in db.users
                    && x.response.body.value.owner.id == x.response.body.value.todo.ownerId)
  {
    match RequireIdentity(ctx)
    case Failure(status, _) => Refuse(db, ctx, status)
    case Success(_) =>
      match id
      case None => Refuse(db, ctx, BadRequest)
      case Some(key) =>
        match FindTodo(db.todos, key)
        case None => Exchange(Content(NoContent, None), db, ctx)
        case Some(todo) =>
          match LoadOwner(db, todo)
          case Failure(status, _) => Refuse(db, ctx, status)
          case Success(loaded) => Exchange(Content(OK, Some(loaded)), db, ctx)
  }

  /**
   `PATCH /api/todos/:id`: parse the id, decode the patch, look the todo up
   with its owner (404 when absent), check that the caller owns it (401
   otherwise), then store the merge-patched todo and return it, still with
   the owner row attached.
   */
  function Edit(ctx: Context, db: Db, id: Option<Uuid>, req: Request<EditTodoRequest>): (x: Exchange<TodoWithOwner>)
    ensures x.ctx == ctx
    ensures x.response.Error? ==> x.db == db
    ensures ctx.identity.None? ==> x.response == Error(Unauthorized)
    ensures ctx.identity.Some? && (id.None? || RequestDecoder.Decode(req.contentType).Failure?) ==>
              x.response == Error(BadRequest)
    ensures ctx.identity.Some? && id.Some? && RequestDecoder.Decode(req.contentType).Success? ==>
              && (!HasTodo(db.todos, id.value) ==> x.response == Error(NotFound))
              && (HasTodo(db.todos, id.value) ==>
                    var t := FindTodo(db.todos, id.value).value;
                    && (!HasUser(db.users, t.ownerId) ==> x.response == Error(InternalServerError))
                    && (HasUser(db.users, t.ownerId) && t.ownerId != ctx.identity.value.id ==>
                          x.response == Error(Unauthorized))
                    && (HasUser(db.users, t.ownerId) && t.ownerId == ctx.identity.value.id ==>
                          var u := Update(t, req.body.title, req.body.completed);
                          && x.response.Content? && x.response.status == OK
                          && x.response.body.todo == u
                          && x.response.body.owner in db.users
                          && x.response.body.owner.id == ctx.identity.value.id
                          && x.db == db.(todos := ReplaceTodo(db.todos, id.value, u))))
  {
    match RequireIdentity(ctx)
    case Failure(status, _) => Refuse(db, ctx, status)
    case Success(user) =>
      match id
      case None => Refuse(db, ctx, BadRequest)
      case Some(key) =>
        match RequestDecoder.Decode(req.contentType)
        case Failure(status, _) => Refuse(db, ctx, status)
        case Success(_) =>
          match FindTodo(db.todos, key)
          case None => Refuse(db, ctx, NotFound)
          case Some(todo) =>
            match LoadOwner(db, todo)
            case Failure(status, _) => Refuse(db, ctx, status)
            case Success(loaded) =>
              if loaded.owner.id != user.id then Refuse(db, ctx, Unauthorized)
              else
                var patched := Update(todo, req.body.title, req.body.completed);
                Exchange(Content(OK, TodoWithOwner(patched, loaded.owner)),
                         db.(todos := ReplaceTodo(db.todos, key, patched)), ctx)
  }

  /**
   `get` as its security intent asks: the todo without `.with(\.$owner)`,
   so its owner is encoded as the owner id alone, as `UserResponse` does
   for the user routes.
   */
  function GetIdOnly(ctx: Context, db: Db, id: Option<Uuid>): (x: Exchange<Option<Todo>>)
    ensures x.db == db && x.ctx == ctx
    ensures ctx.identity.None? ==> x.response == Error(Unauthorized)
    ensures ctx.identity.Some? && id.None? ==> x.response == Error(BadRequest)
    ensures ctx.identity.Some? && id.Some? ==>
              && x.response.Content?
              && (x.response.body.Some? <==> HasTodo(db.todos, id.value))
              && (x.response.body.Some? ==> x.response.status == OK
                                            && x.response.body.value in db.todos
                                            && x.response.body.value.id == id.value)
              && (x.response.body.None? ==> x.response.status == NoContent)
  {
    match RequireIdentity(ctx)
    case Failure(status, _) => Refuse(db, ctx, status)
    case Success(_) =>
      match id
      case None => Refuse(db, ctx, BadRequest)
      case Some(key) =>
        match FindTodo(db.todos, key)
        case None => Exchange(Content(NoContent, None), db, ctx)
        case Some(todo) => Exchange(Content(OK, Some(todo)), db, ctx)
  }

  /**
   `update` as its security intent asks: the ownership check reads the
   stored owner id (`todo.$owner.id`), nothing is eager-loaded, and the
   patched todo is returned with its owner id alone.
   */
  function EditIdOnly(ctx: Context, db: Db, id: Option<Uuid>, req: Request<EditTodoRequest>): (x: Exchange<Todo>)
    ensures x.ctx == ctx
    ensures x.response.Error? ==> x.db == db
    ensures ctx.identity.None? ==> x.response == Error(Unauthorized)
    ensures ctx.identity.Some? && (id.None? || RequestDecoder.Decode(req.contentType).Failure?) ==>
              x.response == Error(BadRequest)
    ensures ctx.identity.Some? && id.Some? && RequestDecoder.Decode(req.contentType).Success? ==>
              && (!HasTodo(db.todos, id.value) ==> x.response == Error(NotFound))
              && (HasTodo(db.todos, id.value) ==>
                    var t := FindTodo(db.todos, id.value).value;
                    && (t.ownerId != ctx.identity.value.id ==> x.response == Error(Unauthorized))
                    && (t.ownerId == ctx.identity.value.id ==>
                          var u := Update(t, req.body.title, req.body.completed);
                          && x.response == Content(OK, u)
                          && x.db == db.(todos := ReplaceTodo(db.todos, id.value, u))))
  {
    match RequireIdentity(ctx)
    case Failure(status, _) => Refuse(db, ctx, status)
    case Success(user) =>
      match id
      case None => Refuse(db, ctx, BadRequest)
      case Some(key) =>
        match RequestDecoder.Decode(req.contentType)
        case Failure(status, _) => Refuse(db, ctx, status)
        case Success(_) =>
          match FindTodo(db.todos, key)
          case None => Refuse(db, ctx, NotFound)
          case Some(todo) =>
            if todo.ownerId != user.id then Refuse(db, ctx, Unauthorized)
            else
              var patched := Update(todo, req.body.title, req.body.completed);
              Exchange(Content(OK, patched), db.(todos := ReplaceTodo(db.todos, key, patched)), ctx)
  }

  /**
   `DELETE /api/todos/:id`: parse the id, look the todo up with its owner
   (404 when absent), check that the caller owns it (401 otherwise), then
   delete it and answer 200 OK.
   */
  function Delete(ctx: Context, db: Db, id: Option<Uuid>): (x: Exchange<()>)
    ensures x.ctx == ctx
    ensures x.response.Error? ==> x.db == db
    ensures ctx.identity.None? ==> x.response == Error(Unauthorized)
    ensures ctx.identity.Some? && id.None? ==> x.response == Error(BadRequest)
    ensures ctx.identity.Some? && id.Some? ==>
              && (!HasTodo(db.todos, id.value) ==> x.response == Error(NotFound))
              && (HasTodo(db.todos, id.value) ==>
                    var t := FindTodo(db.todos, id.value).value;
                    && (!HasUser(db.users, t.ownerId) ==> x.response == Error(InternalServerError))
                    && (HasUser(db.users, t.ownerId) && t.ownerId != ctx.identity.value.id ==>
                          x.response == Error(Unauthorized))
                    && (HasUser(db.users, t.ownerId) && t.ownerId == ctx.identity.value.id ==>
                          && x.response == Content(OK, ())
                          && x.db == db.(todos := RemoveTodo(db.todos, id.value))))
  {
    match RequireIdentity(ctx)
    case Failure(status, _) => Refuse(db, ctx, status)
    case Success(user) =>
      match id
      case None => Refuse(db, ctx, BadRequest)
      case Some(key) =>
        match FindTodo(db.todos, key)
        case None => Refuse(db, ctx, NotFound)
        case Some(todo) =>
          match LoadOwner(db, todo)
          case Failure(status, _) => Refuse(db, ctx, status)
          case Success(loaded) =>
            if loaded.owner.id != user.id then Refuse(db, ctx, Unauthorized)
            else Exchange(Content(OK, ()), db.(todos := RemoveTodo(db.todos, key)), ctx)
  }
}
