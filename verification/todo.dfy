/**
 The `Todo` record: its constructor defaults and its merge-patch update.
 */
module TodoModel {
  import opened Wrappers
  import opened Identifiers

  /** One todo item, owned by exactly one user. */
  datatype Todo = Todo(id: Uuid, title: string, ownerId: Uuid, completed: bool)

  /** `Todo.init`: the completion flag defaults to false, the owner is fixed. */
  function NewTodo(id: Uuid, title: string, ownerId: Uuid, completed: bool := false): (t: Todo)
    ensures t.id == id && t.title == title
    ensures t.ownerId == ownerId && t.completed == completed
  {
    Todo(id, title, ownerId, completed)
  }

  /** A supplied field wins over the current one; an absent field keeps it. */
  function Merge<T>(patch: Option<T>, current: T): T
  {
    match patch
    case Some(v) => v
    case None => current
  }

  /** `Todo.update`: a merge-patch on the two optional fields. */
  function Update(t: Todo, title: Option<string> := None, completed: Option<bool> := None): (u: Todo)
    ensures u.id == t.id && u.ownerId == t.ownerId
    ensures title.Some? ==> u.title == title.value
    ensures title.None? ==> u.title == t.title
    ensures completed.Some? ==> u.completed == completed.value
    ensures completed.None? ==> u.completed == t.completed
  {
    t.(title := Merge(title, t.title), completed := Merge(completed, t.completed))
  }

  /** A fresh todo is incomplete unless told otherwise and belongs to the given owner. */
  lemma NewTodoDefaults(id: Uuid, title: string, ownerId: Uuid)
    ensures !NewTodo(id, title, ownerId).completed
    ensures NewTodo(id, title, ownerId).ownerId == ownerId
  {
  }

  /** The empty patch changes nothing. */
  lemma UpdateEmptyPatch(t: Todo)
    ensures Update(t, None, None) == t
  {
  }

  /** A title-only patch sets the title and keeps the completion flag. */
  lemma UpdateTitleOnly(t: Todo, title: string)
    ensures Update(t, Some(title), None) == t.(title := title)
  {
  }

  /** A completion-only patch sets the flag and keeps the title. */
  lemma UpdateCompletedOnly(t: Todo, completed: bool)
    ensures Update(t, None, Some(completed)) == t.(completed := completed)
  {
  }

  /** Applying the same patch twice is the same as applying it once. */
  lemma UpdateIdempotent(t: Todo, title: Option<string>, completed: Option<bool>)
    ensures Update(Update(t, title, completed), title, completed) == Update(t, title, completed)
  {
  }

  /** Two patches in a row act as one patch in which the later fields win. */
  lemma UpdateComposes(t: Todo, title1: Option<string>, completed1: Option<bool>,
                       title2: Option<string>, completed2: Option<bool>)
    ensures Update(Update(t, title1, completed1), title2, completed2)
         == Update(t, if title2.Some? then title2 else title1,
                      if completed2.Some? then completed2 else completed1)
  {
  }
}
