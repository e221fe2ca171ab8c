/**
 The two tables the application stores, `user` and `todos`, as sequences
 of rows in table order, with the queries the handlers run against them
 and the invariants the schema backs: unique ids, unique emails, and every
 todo referring to an existing user.
 */
module Database {
  import opened Wrappers
  import opened Identifiers
  import opened TodoModel
  import opened UserModel
  import opened Http

  /** The whole persistent state. */
  datatype Db = Db(users: seq<User>, todos: seq<Todo>)

  /** A transition of the store: an outcome and the store after it. */
  datatype Step<+T> = Step(result: Result<T>, db: Db)

  // ---------------------------------------------------------------- todos

  /** True iff some row of the todo table has this id. */
  predicate HasTodo(todos: seq<Todo>, id: Uuid)
  {
    exists i :: 0 <= i < |todos| && todos[i].id == id
  }

  /** `Todo.query.filter(\.$id == id).first()`: the first row with this id. */
  function FindTodo(todos: seq<Todo>, id: Uuid): (r: Option<Todo>)
    ensures r.None? <==> !HasTodo(todos, id)
    ensures r.Some? ==> r.value in todos && r.value.id == id
  {
    if |todos| == 0 then None
    else if todos[0].id == id then Some(todos[0])
    else
      var r := FindTodo(todos[1..], id);
      assert HasTodo(todos, id) ==> HasTodo(todos[1..], id) by {
        if HasTodo(todos, id) {
          var i :| 0 <= i < |todos| && todos[i].id == id;
          assert todos[1..][i - 1].id == id;
        }
      }
      r
  }

  /** `user.$todos.get()`: the rows whose owner is the given user, in table order. */
  function OwnedBy(todos: seq<Todo>, owner: Uuid): (r: seq<Todo>)
    ensures |r| <= |todos|
    ensures forall t :: t in r <==> t in todos && t.ownerId == owner
  {
    if |todos| == 0 then []
    else
      var rest := OwnedBy(todos[1..], owner);
      assert forall t :: t in todos <==> t == todos[0] || t in todos[1..];
      if todos[0].ownerId == owner then [todos[0]] + rest else rest
  }

  /** Each of the owner's rows is listed as many times as it is stored; no other row is listed. */
  lemma {:induction false} OwnedByCounts(todos: seq<Todo>, owner: Uuid)
    ensures forall t :: multiset(OwnedBy(todos, owner))[t] == if t.ownerId == owner then multiset(todos)[t] else 0
  {
    if |todos| > 0 {
      OwnedByCounts(todos[1..], owner);
      var rest := OwnedBy(todos[1..], owner);
      assert todos == [todos[0]] + todos[1..];
      assert multiset(todos) == multiset([todos[0]]) + multiset(todos[1..]);
      if todos[0].ownerId == owner {
        assert OwnedBy(todos, owner) == [todos[0]] + rest;
        assert multiset([todos[0]] + rest) == multiset([todos[0]]) + multiset(rest);
      } else {
        assert OwnedBy(todos, owner) == rest;
      }
    }
  }

  /** An owner none of whose todos are stored has an empty list. */
  lemma {:induction false} OwnedByNone(todos: seq<Todo>, owner: Uuid)
    requires forall t :: t in todos ==> t.ownerId != owner
    ensures OwnedBy(todos, owner) == []
  {
    if |todos| > 0 {
      assert todos[0] in todos;
      assert forall t :: t in todos[1..] ==> t in todos;
      OwnedByNone(todos[1..], owner);
    }
  }

  /** `todo.update(on:)`: every row with this id is replaced by `t`. */
  function ReplaceTodo(todos: seq<Todo>, id: Uuid, t: Todo): (r: seq<Todo>)
    ensures |r| == |todos|
    ensures forall i :: 0 <= i < |todos| && todos[i].id == id ==> r[i] == t
    ensures forall i :: 0 <= i < |todos| && todos[i].id != id ==> r[i] == todos[i]
  {
    if |todos| == 0 then []
    else [if todos[0].id == id then t else todos[0]] + ReplaceTodo(todos[1..], id, t)
  }

  /** `todo.delete(on:)`: every row with this id is removed, the rest keep their order. */
  function RemoveTodo(todos: seq<Todo>, id: Uuid): (r: seq<Todo>)
    ensures |r| <= |todos|
    ensures forall t :: t in r <==> t in todos && t.id != id
  {
    if |todos| == 0 then []
    else
      var rest := RemoveTodo(todos[1..], id);
      assert forall t :: t in todos <==> t == todos[0] || t in todos[1..];
      if todos[0].id == id then rest else [todos[0]] + rest
  }

  /** Listing a table with a row appended lists the old rows, then the new one if it qualifies. */
  lemma {:induction false} OwnedByAppend(todos: seq<Todo>, t: Todo, owner: Uuid)
    ensures OwnedBy(todos + [t], owner) == OwnedBy(todos, owner) + (if t.ownerId == owner then [t] else [])
  {
    if |todos| > 0 {
      assert (todos + [t])[1..] == todos[1..] + [t];
      OwnedByAppend(todos[1..], t, owner);
    } else {
      assert todos + [t] == [t];
    }
  }

  // ---------------------------------------------------------------- users

  /** True iff some row of the user table has this id. */
  predicate HasUser(users: seq<User>, id: Uuid)
  {
    exists i :: 0 <= i < |users| && users[i].id == id
  }

  /** True iff some row of the user table has this email. */
  predicate EmailTaken(users: seq<User>, email: string)
  {
    exists i :: 0 <= i < |users| && users[i].email == email
  }

  /** `User.find(id)`: the row with this id. */
  function FindUser(users: seq<User>, id: Uuid): (r: Option<User>)
    ensures r.None? <==> !HasUser(users, id)
    ensures r.Some? ==> r.value in users && r.value.id == id
  {
    if |users| == 0 then None
    else if users[0].id == id then Some(users[0])
    else
      var r := FindUser(users[1..], id);
      assert HasUser(users, id) ==> HasUser(users[1..], id) by {
        if HasUser(users, id) {
          var i :| 0 <= i < |users| && users[i].id == id;
          assert users[1..][i - 1].id == id;
        }
      }
      r
  }

  /** `User.query.filter(\.$email == email).first()`: the first row with this email. */
  function FindUserByEmail(users: seq<User>, email: string): (r: Option<User>)
    ensures r.None? <==> !EmailTaken(users, email)
    ensures r.Some? ==> r.value in users && r.value.email == email
  {
    if |users| == 0 then None
    else if users[0].email == email then Some(users[0])
    else
      var r := FindUserByEmail(users[1..], email);
      assert EmailTaken(users, email) ==> EmailTaken(users[1..], email) by {
        if EmailTaken(users, email) {
          var i :| 0 <= i < |users| && users[i].email == email;
          assert users[1..][i - 1].email == email;
        }
      }
      r
  }

  // ----------------------------------------------------------- invariants

  /** The primary key of the todo table. */
  ghost predicate UniqueTodoIds(todos: seq<Todo>)
  {
    forall i, j :: 0 <= i < j < |todos| ==> todos[i].id != todos[j].id
  }

  /** The primary key of the user table. */
  ghost predicate UniqueUserIds(users: seq<User>)
  {
    forall i, j :: 0 <= i < j < |users| ==> users[i].id != users[j].id
  }

  /** `.unique(on: "email")` on the user table. */
  ghost predicate UniqueEmails(users: seq<User>)
  {
    forall i, j :: 0 <= i < j < |users| ==> users[i].email != users[j].email
  }

  /** `.references("user", "id")` on `owner_id`: no orphaned todo. */
  ghost predicate OwnersExist(db: Db)
  {
    forall t :: t in db.todos ==> HasUser(db.users, t.ownerId)
  }

  /** Everything the schema guarantees about a stored state. */
  ghost predicate Valid(db: Db)
  {
    && UniqueTodoIds(db.todos)
    && UniqueUserIds(db.users)
    && UniqueEmails(db.users)
    && OwnersExist(db)
  }

  /** The empty database, as the migrations create it, satisfies the schema. */
  lemma EmptyIsValid()
    ensures Valid(Db([], []))
  {
  }

  /**
   Replacing rows by a todo with the same id and an existing owner keeps
   every schema invariant: ids are untouched and no todo is orphaned.
   */
  lemma ReplacePreservesValid(db: Db, id: Uuid, t: Todo)
    requires Valid(db)
    requires t.id == id && HasUser(db.users, t.ownerId)
    ensures Valid(db.(todos := ReplaceTodo(db.todos, id, t)))
  {
    var r := ReplaceTodo(db.todos, id, t);
    assert forall i :: 0 <= i < |r| ==> r[i].id == db.todos[i].id;
    forall u | u in r
      ensures HasUser(db.users, u.ownerId)
    {
      var i :| 0 <= i < |r| && r[i] == u;
      if db.todos[i].id != id {
        assert db.todos[i] in db.todos;
      }
    }
  }

  /** The tail of a table with a primary key has one, and its head's id occurs nowhere in the tail. */
  lemma UniqueTail(todos: seq<Todo>)
    requires UniqueTodoIds(todos) && |todos| > 0
    ensures UniqueTodoIds(todos[1..])
    ensures forall u :: u in todos[1..] ==> u.id != todos[0].id
  {
    forall u | u in todos[1..]
      ensures u.id != todos[0].id
    {
      var k :| 0 <= k < |todos[1..]| && todos[1..][k] == u;
      assert todos[k + 1] == u;
    }
  }

  /** Putting a row with a new id in front of a table with a primary key keeps the key. */
  lemma UniqueCons(t: Todo, rest: seq<Todo>)
    requires UniqueTodoIds(rest)
    requires forall u :: u in rest ==> u.id != t.id
    ensures UniqueTodoIds([t] + rest)
  {
    var r := [t] + rest;
    forall i, j | 0 <= i < j < |r|
      ensures r[i].id != r[j].id
    {
      assert r[j] == rest[j - 1];
      if i > 0 {
        assert r[i] == rest[i - 1];
      } else {
        assert r[j] in rest;
      }
    }
  }

  /** Removing rows from a table with a primary key leaves a table with a primary key. */
  lemma {:induction false} RemovePreservesUniqueIds(todos: seq<Todo>, id: Uuid)
    requires UniqueTodoIds(todos)
    ensures UniqueTodoIds(RemoveTodo(todos, id))
  {
    if |todos| > 0 {
      UniqueTail(todos);
      RemovePreservesUniqueIds(todos[1..], id);
      if todos[0].id != id {
        UniqueCons(todos[0], RemoveTodo(todos[1..], id));
      }
    }
  }

  /** With a primary key, a lookup by id finds the one row that has it. */
  lemma FindTodoUnique(todos: seq<Todo>, t: Todo)
    requires UniqueTodoIds(todos)
    requires t in todos
    ensures FindTodo(todos, t.id) == Some(t)
  {
  }

  /** With a primary key, a lookup by id finds the one user that has it. */
  lemma FindUserUnique(users: seq<User>, u: User)
    requires UniqueUserIds(users)
    requires u in users
    ensures FindUser(users, u.id) == Some(u)
  {
  }

  /** With unique emails, a lookup by email finds the one user that has it. */
  lemma FindUserByEmailUnique(users: seq<User>, u: User)
    requires UniqueEmails(users)
    requires u in users
    ensures FindUserByEmail(users, u.email) == Some(u)
  {
  }
}
