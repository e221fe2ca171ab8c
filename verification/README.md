# todos: a Dafny model of the Hummingbird todo application

This project models the server core of a small Swift todo application and
the two decisions its dashboard script makes in the browser. The server is
built on Hummingbird, Fluent and SQLite. The model covers:

- the `Todo` and `User` records: construction, the merge-patch `update`,
  account creation behind a duplicate-email check, and password login;
- `UserRepository`: the session lookup by id and the login lookup by email;
- the request-body decoder, which picks a decoder from the `Content-Type`
  header or refuses the request with 400;
- the `/api/todos` routes: identity gate, id parsing, 404 before 401, the
  missing ownership check in `get`, and the owner row that `get` and
  `update` eager-load into their replies;
- the `/api/users` routes: create, basic-auth login to session, logout, current;
- the HTML routes: the redirect middleware, the dashboard, and the sign-up
  and log-in form posts, reduced to status, page choice, store change and
  session change;
- `escapeHtml` and the title guard of `handleSubmit` in `Public/dashboard.js`.

The model is a functional state machine:

- The database is `Db(users, todos)`. Each table is a sequence in row
  order, so `.first()` has a meaning.
- Each handler takes the request context (`identity`, `session`), the store
  and the decoded request. It returns an `Exchange`: the response, the store
  after it, and the context after it.
- The UUIDs the server would generate are parameters (`newId`).
- Bcrypt is a `Hasher` parameter. `Sound` (a password verifies against its
  own hash), `CollisionFree` (no password from which bcrypt reads a
  different key does) and `KeyedHash` (the hash depends only on that key)
  are preconditions of the lemmas that need them, never axioms. The key is
  `BcryptKey`: the password's UTF-8 bytes up to the first NUL, at most 72
  of them.
- Swift compares `String`s by canonical equivalence. Its normal form is a
  parameter `nfd` of the sign-up handler, and `SwiftString.Equal` compares
  through it.
- The schema's guarantees form the invariant `Valid`: unique ids, unique
  emails, and an existing owner for every todo. The migrations declare these
  keys in `Sources/App/Migrations/UserMigrations.swift` and
  `Sources/App/Migrations/TodoMigrations.swift`. The user table itself is
  modelled with every field `User` declares, which is more than its
  migration creates (see `UserModel.User` under "## Left out").

Files (one module each, except `common.dfy`):

| file | module(s) |
|---|---|
| common.dfy | `Wrappers` (Option), `Identifiers` (Uuid), `Http` (statuses, `Result`, `Response`), `SwiftString` (string equality) |
| todo.dfy | `TodoModel` |
| user.dfy | `UserModel` |
| database.dfy | `Database`: tables, queries, schema invariants |
| repository.dfy | `UserRepository` |
| request_context.dfy | `RequestContext`: the request context, requests, exchanges |
| request_decoder.dfy | `RequestDecoder` |
| accounts.dfy | `Accounts`: `User.create`, `User.login` |
| todo_controller.dfy | `TodoController` |
| todo_properties.dfy | `TodoProperties`: properties across todo routes |
| user_controller.dfy | `UserController` |
| view_controller.dfy | `ViewController` |
| sessions.dfy | `Sessions`: multi-request properties and an end-to-end scenario |
| dashboard_js.dfy | `DashboardScript`: `escapeHtml` and the submit guard |

Three behaviours of the code are easy to miss:

- The server accepts an empty todo title. Only the dashboard script trims
  the title and drops an empty one.
- `GET /api/todos/:id` checks no ownership, and its reply carries the
  owner's whole user row (see "## Findings").
- `GET /api/todos/:id` on a missing or deleted todo returns `nil`, which the
  framework answers with 204 No Content rather than 404.

## Model

| member | source | states |
|---|---|---|
| TodoModel.NewTodo | Sources/App/Models/Todo.swift:35-40 | a new todo has the given id, title and owner, and its completion flag defaults to false |
| TodoModel.Update | Sources/App/Models/Todo.swift:50-57 | a supplied title or flag replaces the current one, an absent one is kept, and id and owner never change |
| TodoModel.NewTodoDefaults | Sources/App/Models/Todo.swift:35-40 | a todo created without a flag is incomplete and belongs to the given owner |
| TodoModel.UpdateEmptyPatch | Sources/App/Models/Todo.swift:50-57 | a patch with neither field changes nothing |
| TodoModel.UpdateTitleOnly | Sources/App/Models/Todo.swift:50-57 | a title-only patch sets the title and keeps the flag |
| TodoModel.UpdateCompletedOnly | Sources/App/Models/Todo.swift:50-57 | a flag-only patch sets the flag and keeps the title |
| TodoModel.UpdateIdempotent | Sources/App/Models/Todo.swift:50-57 | applying the same patch twice equals applying it once |
| TodoModel.UpdateComposes | Sources/App/Models/Todo.swift:50-57 | two patches in a row equal one patch in which the later supplied fields win |
| UserModel.NewUser | Sources/App/Models/User.swift:52-58 | a new account stores the hash, not the password, and starts unconfirmed with no tokens |
| UserModel.ResponseFrom | Sources/App/Models/User.swift:178-180 | the public user view carries the user's id |
| UserModel.ResponseRevealsOnlyId | Sources/App/Models/User.swift:164-180 | users with equal ids have equal `UserResponse`s, so the user routes that answer with one expose nothing but the id |
| UserModel.Utf8Char | Sources/App/Models/User.swift:96 | one character's UTF-8 encoding has one to four bytes, and only U+0000 encodes to a zero byte |
| UserModel.Utf8 | Sources/App/Models/User.swift:96 | a string's encoding is at least as long as the string and holds a zero byte exactly when the string holds NUL |
| UserModel.Utf8Append | Sources/App/Models/User.swift:96 | encoding distributes over concatenation |
| UserModel.UpToNul | Sources/App/Models/User.swift:96 | what C sees of a string is its longest NUL-free prefix |
| UserModel.UpToNulAppend | Sources/App/Models/User.swift:96 | a NUL-free prefix reaches C whole, followed by what C sees of the rest |
| UserModel.BcryptKey | Sources/App/Models/User.swift:96 | bcrypt's key is the C string's first 72 bytes, or the whole C string and its terminating NUL when shorter |
| UserModel.SharedPrefixKey | Sources/App/Models/User.swift:96 | for a long NUL-free prefix, the key is that prefix's first 72 bytes whatever follows |
| UserModel.BcryptIgnoresTail | Sources/App/Models/User.swift:96 | two passwords sharing a NUL-free prefix of at least 72 encoded bytes have the same key |
| Database.FindTodo | Sources/App/Controllers/TodoController.swift:79-82 | the lookup by id finds nothing exactly when no row has the id, and otherwise returns a stored row with that id |
| Database.FindUser | Sources/App/Repositories/UserRepository.swift:21 | `User.find` finds nothing exactly when no user has the id, and otherwise a stored user with that id |
| Database.FindUserByEmail | Sources/App/Repositories/UserRepository.swift:30-32 | the email query finds nothing exactly when no user has the email, and otherwise a stored user with that email |
| Database.ReplaceTodo | Sources/App/Controllers/TodoController.swift:110 | `todo.update(on:)` replaces the rows with the todo's id and keeps every other row in place |
| Database.OwnedBy | Sources/App/Controllers/TodoController.swift:46 | the caller's list holds exactly the stored todos whose owner is the caller |
| Database.RemoveTodo | Sources/App/Controllers/TodoController.swift:132 | after a delete the table holds exactly the old rows with a different id |
| Database.OwnedByCounts | Sources/App/Controllers/TodoController.swift:46 | each of the owner's stored todos is listed as many times as it is stored, and no other todo is listed |
| Database.OwnedByNone | Sources/App/Controllers/TodoController.swift:46 | an owner with no stored todo gets an empty list |
| Database.OwnedByAppend | Sources/App/Controllers/TodoController.swift:46 | after a row is appended, the owner's list is the old list followed by the new row if the owner owns it |
| Database.FindTodoUnique | Sources/App/Migrations/TodoMigrations.swift:6-7 | with the primary key, looking up a stored todo's id returns that very todo |
| Database.FindUserUnique | Sources/App/Migrations/UserMigrations.swift:6-7 | with the primary key, looking up a stored user's id returns that very user |
| Database.FindUserByEmailUnique | Sources/App/Migrations/UserMigrations.swift:11 | with unique emails, looking up a stored user's email returns that very user |
| UserRepository.GetUserFrom | Sources/App/Repositories/UserRepository.swift:20-22 | a session value resolves to a stored user with that id, and to nothing exactly when no user has it |
| UserRepository.GetUserNamed | Sources/App/Repositories/UserRepository.swift:29-33 | an email resolves to a stored user with that email, and to nothing exactly when no user has it |
| UserRepository.SessionResolvesStoredUser | Sources/App/Repositories/UserRepository.swift:20-22 | in a valid store a stored user's id resolves back to that user |
| UserRepository.EmailResolvesStoredUser | Sources/App/Repositories/UserRepository.swift:29-33 | in a valid store a stored user's email resolves back to that user |
| RequestContext.Initial | Sources/App/RequestContext.swift:14-18 | a fresh request context has no identity and no session |
| RequestContext.RequireIdentity | Sources/App/Controllers/TodoController.swift:16-20 | the identity is returned exactly when there is one; otherwise the error is 401 |
| RequestContext.SetSession | Sources/App/Controllers/UserController.swift:58 | after `setSession` the session names the user, and the identity is unchanged |
| RequestContext.ClearSession | Sources/App/Controllers/UserController.swift:69 | after `clearSession` there is no session, and the identity is unchanged |
| RequestContext.ClearSessionIdempotent | Sources/App/Controllers/UserController.swift:66-71 | clearing an already empty session changes nothing |
| RequestContext.ClearAfterSet | Sources/App/Controllers/UserController.swift:66-71 | clearing the session undoes any earlier set |
| RequestDecoder.Decode | Sources/App/Extensions/RequestDecoder.swift:6-28 | a missing header, an unparseable media type or any other type is 400; JSON selects the JSON decoder and URL-encoded form the form decoder, each exactly when the header parses to that type |
| RequestDecoder.ParseMediaType | Sources/App/Extensions/RequestDecoder.swift:15 | a header without `/` does not parse; a parsed type has a non-empty type and subtype, neither holding a `/` |
| RequestDecoder.UnparseableIsBadRequest | Sources/App/Extensions/RequestDecoder.swift:15-17 | a header without a `/` is refused with 400 |
| RequestDecoder.ParseWellFormed | Sources/App/Extensions/RequestDecoder.swift:15 | a well-formed lower-case `type/subtype` header, with or without parameters, parses to exactly that type and subtype |
| RequestDecoder.DecodeWellFormed | Sources/App/Extensions/RequestDecoder.swift:15-27 | a well-formed header is accepted or refused by its type and subtype alone |
| RequestDecoder.JsonSelectsJsonDecoder | Sources/App/Extensions/RequestDecoder.swift:19-21 | `application/json`, with any parameters, selects the JSON decoder |
| RequestDecoder.FormSelectsFormDecoder | Sources/App/Extensions/RequestDecoder.swift:22-24 | `application/x-www-form-urlencoded`, with any parameters, selects the form decoder |
| RequestDecoder.OtherMediaTypeIsBadRequest | Sources/App/Extensions/RequestDecoder.swift:25-26 | `text/plain` is refused with 400 |
| Accounts.CreateUser | Sources/App/Models/User.swift:79-102 | creation fails exactly when the email is taken, and then with 409 and "Email address already in use" and no change; otherwise exactly one user is appended, holding the hash of the password |
| Accounts.Login | Sources/App/Models/User.swift:116-133 | login returns a user exactly when the email's user exists, has a stored hash and the password verifies against it; that user is the one found by email |
| Accounts.CreatePreservesValid | Sources/App/Models/User.swift:87-100 | creating an account under a fresh id keeps the schema invariants, email uniqueness included |
| Accounts.CreateThenLookup | Sources/App/Models/User.swift:87-100 | after a creation, the new id and the new email both resolve to the new account |
| Accounts.CreateThenLogin | Sources/App/Models/User.swift:116-133 | with a sound hasher, the password given at creation logs the new account in |
| Accounts.CreateThenWrongPassword | Sources/App/Models/User.swift:128-132 | with a collision-free hasher, a password from which bcrypt reads a different key is refused |
| Accounts.CreateThenSameKeyLogin | Sources/App/Models/User.swift:128-132 | with a sound hasher keyed by `BcryptKey`, a different password with the same key (the same first 72 bytes) logs in too |
| Accounts.DuplicateSignupConflicts | Sources/App/Models/User.swift:91-93 | a second creation with the same email is a 409 and leaves the store as the first left it |
| TodoController.List | Sources/App/Controllers/TodoController.swift:43-47 | without an identity 401; otherwise 200 with exactly the caller's todos, each as many times as it is stored; nothing changes |
| TodoController.Create | Sources/App/Controllers/TodoController.swift:54-72 | 401, then 400 for a bad body, then 400 for a missing Host header; otherwise 201 with a new incomplete todo owned by the caller, appended to the table |
| TodoController.LoadOwner | Sources/App/Controllers/TodoController.swift:81 | the eager load attaches the stored user whose id is the todo's owner id, and fails with 500 exactly when there is none |
| TodoController.Get | Sources/App/Controllers/TodoController.swift:75-83 | 401, then 400 for a bad id; 204 with no body exactly when no todo has the id; otherwise the stored todo with that id, whoever owns it, together with its owner's stored user row (500 if that row is missing) |
| TodoController.Edit | Sources/App/Controllers/TodoController.swift:91-112 | 401, then 400 for a bad id or body, then 404 when absent, 500 when the owner row is missing, then 401 for a foreign todo; otherwise 200 with the patched todo and the caller's stored user row, and the patched todo replaces the stored row |
| TodoController.GetIdOnly | Sources/App/Controllers/TodoController.swift:75-83 | `get` without the eager load: the same statuses, and the body is the stored todo alone, with its owner id |
| TodoController.EditIdOnly | Sources/App/Controllers/TodoController.swift:91-112 | `update` without the eager load: the same statuses and store change, and the body is the patched todo alone |
| TodoController.Delete | Sources/App/Controllers/TodoController.swift:115-134 | 401, then 400 for a bad id, then 404 when absent, 500 when the owner row is missing, then 401 for a foreign todo; otherwise 200 and the row is removed; errors change nothing |
| TodoProperties.UnauthenticatedRoutesFail | Sources/App/Controllers/TodoController.swift:16-20 | without an identity every todo route answers 401 and changes nothing |
| TodoProperties.ListIsolatesOwners | Sources/App/Controllers/TodoController.swift:43-47 | a todo appears in its owner's list and never in another user's list |
| TodoProperties.GetIgnoresOwnership | Sources/App/Controllers/TodoController.swift:75-83 | in a valid store any authenticated caller gets any user's todo by id, with the owner's stored row |
| TodoProperties.GetDisclosesOwner | Sources/App/Controllers/TodoController.swift:79-82 | a caller who is not the owner receives the owner's email and password hash |
| TodoProperties.EditDisclosesOwner | Sources/App/Controllers/TodoController.swift:99-111 | a successful edit returns the caller's own stored user row, password hash included |
| TodoProperties.GetIdOnlyHidesUsers | Sources/App/Controllers/TodoController.swift:75-83 | the id-only reply of `get` is the same whatever the users table holds |
| TodoProperties.EditIdOnlyHidesUsers | Sources/App/Controllers/TodoController.swift:91-112 | the id-only reply and store change of `update` are the same whatever the users table holds |
| TodoProperties.GetIdOnlyRedactsGet | Sources/App/Controllers/TodoController.swift:75-83 | in a valid store the id-only `get` answers as the route does, minus the owner row |
| TodoProperties.EditIdOnlyRedactsEdit | Sources/App/Controllers/TodoController.swift:91-112 | in a valid store the id-only `update` answers and stores as the route does, minus the owner row |
| TodoProperties.EditTouchesOnlyTarget | Sources/App/Controllers/TodoController.swift:106-111 | an owner's edit patches the rows with that id and leaves every other row and the users unchanged |
| TodoProperties.ForeignEditIsRefused | Sources/App/Controllers/TodoController.swift:106-108 | editing someone else's todo with a decodable patch is 401 and changes nothing |
| TodoProperties.ForeignDeleteIsRefused | Sources/App/Controllers/TodoController.swift:129-131 | deleting someone else's todo is 401 and changes nothing |
| TodoProperties.DeleteRemovesOnlyTarget | Sources/App/Controllers/TodoController.swift:129-133 | an owner's delete removes exactly the rows with that id and keeps the rest |
| TodoProperties.DeleteTwiceIsNotFound | Sources/App/Controllers/TodoController.swift:121-128 | deleting the same id again is 404 |
| TodoProperties.CreatePreservesValid | Sources/App/Controllers/TodoController.swift:64-70 | a create by a stored user under a fresh id keeps the schema invariants |
| TodoProperties.EditPreservesValid | Sources/App/Controllers/TodoController.swift:109-110 | an edit keeps the schema invariants |
| TodoProperties.DeletePreservesValid | Sources/App/Controllers/TodoController.swift:132 | a delete keeps the schema invariants |
| Database.RemovePreservesUniqueIds | Sources/App/Controllers/TodoController.swift:132 | removing rows keeps the primary key unique |
| Database.ReplacePreservesValid | Sources/App/Controllers/TodoController.swift:110 | replacing a row by one with the same id and an existing owner keeps every schema invariant |
| UserController.Create | Sources/App/Controllers/UserController.swift:32-48 | 400 for a bad body, 409 for a taken email with no change; otherwise 201 with the new id, exactly when the body decodes and the email is free |
| UserController.CreatePreservesValid | Sources/App/Controllers/UserController.swift:32-48 | a registration under a fresh id keeps the schema invariants: unique ids, unique emails, existing owners |
| UserController.Login | Sources/App/Controllers/UserController.swift:52-63 | without an identity 401 and no session; otherwise the session names the caller and the answer is 303 to `/dashboard` |
| UserController.Logout | Sources/App/Controllers/UserController.swift:66-71 | the session is always empty afterwards and the answer is 302 to `/` |
| UserController.Current | Sources/App/Controllers/UserController.swift:74-79 | without an identity 401; otherwise 200 with the caller's id |
| UserController.LoginThenLogout | Sources/App/Controllers/UserController.swift:52-71 | a login followed by a logout leaves the session empty |
| UserController.LogoutTwice | Sources/App/Controllers/UserController.swift:66-71 | a second logout changes nothing further |
| ViewController.Redirecting | Sources/App/Controllers/ViewController.swift:30-41 | with an identity the next handler's outcome is the outcome; without one, 302 to the configured path and nothing changes |
| ViewController.Dashboard | Sources/App/Controllers/ViewController.swift:247-257 | without an identity 401; otherwise 200 with the dashboard of exactly the caller's todos, each as many times as it is stored |
| ViewController.GuardedDashboard | Sources/App/Controllers/ViewController.swift:94-97 | the dashboard route redirects to `/log-in` exactly when there is no identity |
| ViewController.SignupDetailsPost | Sources/App/Controllers/ViewController.swift:141-180 | 400 for a bad body; passwords that are not equal as Swift strings (canonical equivalence) re-render the form with 400; a taken email re-renders it with 409; otherwise the account is created, the session names it and the answer is 302 to `/dashboard`; the store changes exactly on that redirect |
| SwiftString.Equal | Sources/App/Controllers/ViewController.swift:145 | Swift's `String` equality compares canonical decompositions, so identical strings are always equal and canonically equivalent spellings are equal too |
| ViewController.MatchingPasswordsSignUp | Sources/App/Controllers/ViewController.swift:145-162 | passwords equal as Swift strings, identical ones included, pass the check, and with a free email the account holding the hash of `password` is created and the browser sent to `/dashboard` |
| ViewController.LoginDetailsPost | Sources/App/Controllers/ViewController.swift:193-217 | 400 for a bad body; a successful login sets the session and redirects to `/dashboard`; a failed one re-renders the form with "Invalid credentials" and 400; the store never changes |
| Sessions.Resume | Sources/App/Repositories/UserRepository.swift:20-22 | the next request's identity is the stored user the session names, or none |
| Sessions.UnknownSessionIsUnauthenticated | Sources/App/Repositories/UserRepository.swift:20-22 | a session naming no stored user gives no identity |
| Sessions.SignupEstablishesSession | Sources/App/Controllers/ViewController.swift:151-162 | a successful sign-up keeps the store valid and its session resolves to the new account |
| Sessions.LoginEstablishesSession | Sources/App/Controllers/ViewController.swift:198-206 | a successful form login sets a session that resolves to the user with that email |
| Sessions.FailedLoginSetsNoSession | Sources/App/Controllers/ViewController.swift:208-216 | a failed form login leaves the context as it was and does not redirect |
| Sessions.LoginThenCurrent | Sources/App/Controllers/UserController.swift:52-79 | after a basic-auth login, `GET /api/users` on the session it set answers with the caller's id |
| Sessions.SignupThenLogin | Sources/App/Controllers/ViewController.swift:141-217 | after sign-up the same credentials log in to the new account; with a collision-free hasher, a password from which bcrypt reads a different key is refused with 400 |
| Sessions.UnknownUserOwnsNothing | Sources/App/Migrations/TodoMigrations.swift:9 | in a valid store, an id naming no user owns no todo, so a new account starts with an empty list |
| Sessions.CreateThenList | Sources/App/Controllers/TodoController.swift:43-72 | a user who owned no todos and creates one then lists exactly that todo |
| Sessions.DeleteThenGet | Sources/App/Controllers/TodoController.swift:75-134 | after an owner's delete, a get of that id answers 204 with no todo |
| Sessions.TodoLifecycle | Sources/App/Controllers/TodoController.swift:43-134 | create, list, complete, delete and get again give 201, the one todo, the completed todo with the caller's user row, 200 and 204 |
| Sessions.SignupToDeleteScenario | Sources/App/Controllers/ViewController.swift:141-162 | a sign-up followed by the todo lifecycle on the session it set behaves as above |
| DashboardScript.ReplaceAll | Public/dashboard.js:204-208 | a global replacement removes its character when the replacement lacks it, and leaves a string without it unchanged |
| DashboardScript.ReplaceAllLength | Public/dashboard.js:204-208 | each occurrence grows the text by the replacement's length minus one |
| DashboardScript.ReplaceAllIntroducesNothing | Public/dashboard.js:204-208 | a replacement pass adds no character that neither the input nor the replacement contains |
| DashboardScript.ReplaceAllConcat | Public/dashboard.js:204-208 | a replacement pass distributes over concatenation |
| DashboardScript.EscapeHtml | Public/dashboard.js:202-209 | no `<`, `>`, `"` or `'` survives escaping |
| DashboardScript.LaterPassesKeepMarkupOut | Public/dashboard.js:205-208 | the `>`, `"` and `'` passes bring back no character an earlier pass removed |
| DashboardScript.EscapeHtmlChar | Public/dashboard.js:202-209 | on one character the five passes give exactly that character's entity |
| DashboardScript.EscapeHtmlIsPerCharMap | Public/dashboard.js:202-209 | because `&` is replaced first, the chained replacements equal the per-character escaping: no entity is escaped twice |
| DashboardScript.EscapeHtmlLength | Public/dashboard.js:202-209 | escaping never shortens the text |
| DashboardScript.EscapeHtmlSameLength | Public/dashboard.js:202-209 | escaping keeps the length exactly when none of the five characters occurs |
| DashboardScript.UnescapeEscape | Public/dashboard.js:202-209 | undoing the five replacements gives back exactly the original title: escaping loses nothing |
| DashboardScript.IsJsWhitespace | Public/dashboard.js:110 | the characters `trim()` removes: ECMAScript's WhiteSpace (tab, vertical tab, form feed, space, no-break space, byte order mark, the space separators) and LineTerminator (LF, CR, U+2028, U+2029); none of them is one of the five characters `escapeHtml` rewrites, and the only printable ASCII one is the space |
| DashboardScript.Trim | Public/dashboard.js:110 | the trimmed title is a slice of the input, everything cut off is white space, and it neither starts nor ends with white space |
| DashboardScript.TrimCut | Public/dashboard.js:110 | `trim` cuts only white space and keeps a slice that neither starts nor ends with it |
| DashboardScript.TrimNoop | Public/dashboard.js:110 | a string that neither starts nor ends with white space is its own trim |
| DashboardScript.TrimIdempotent | Public/dashboard.js:110 | trimming twice equals trimming once |
| DashboardScript.TrimEmpty | Public/dashboard.js:110-111 | trimming leaves nothing exactly when the input is all white space |
| DashboardScript.SubmitTitle | Public/dashboard.js:110-111 | nothing is sent exactly when the input is all white space; otherwise the trimmed, non-empty title is sent |

## Left out

- Bcrypt and the thread pool it runs on are left out. A `Hasher` parameter stands for them, with `Sound`, `CollisionFree` and `KeyedHash` as lemma preconditions. The cost factor 12 is not modelled.
- Accounts.CreateThenWrongPassword: refusal is promised only for a password whose `BcryptKey` differs. Bcrypt reads at most 72 bytes of the password (User.swift:96, :129), so a different password with the same first 72 bytes logs in (`Accounts.CreateThenSameKeyLogin`). That the real hash separates different keys is an assumption (`CollisionFree`), not a proof.
- Sessions.SignupThenLogin: the same restriction: the wrong password is refused only when its `BcryptKey` differs from the right one's.
- UserModel.BcryptKey: the `$2b$` reading of the key (the terminating NUL counts for keys under 72 bytes) is taken from OpenBSD's bcrypt, which the hashing library wraps; the library's C code is not part of this model.
- UserModel.User: the model assumes a user table holding all seven fields `User` declares (User.swift:19-38). The `CreateUser` migration (UserMigrations.swift:6-12), the only user migration `Application+build.swift` adds, creates just `id`, `name`, `email` and `password`: it has no `emailConfirmed`, `confirmationToken` or `resetToken` column. Fluent reads and writes every declared field, so on a database built by that migration the account queries (`User.create`, `User.login`, `UserRepository`) would fail with a database error, and so would every route that authenticates. The model describes the behaviour the code is written for, with a schema that has those columns; the failing queries are not modelled.
- Fluent, SQLite and the cookie transport of sessions are left out. The store is two sequences. A session is the UUID the context holds, and `Sessions.Resume` is the next request's session lookup.
- UUID generation is left out. New ids are parameters, and the lemmas that need freshness require it.
- JSON and form body parsing are left out. Bodies arrive decoded; only the media-type decision that precedes parsing is modelled, so a malformed body is not a case of the model.
- RequestDecoder.Decode: Hummingbird's `MediaType(from:)` is not part of this model. It is replaced by a simpler grammar: the part before the first `;`, trimmed of spaces and tabs, split at the first `/` into two non-empty halves without a further `/`, then ASCII lower-cased.
- `context.parameters.require("id", as: UUID.self)` is modelled only by its outcome: the id arrives as `Option<Uuid>`, and `None` is the 400 it throws.
- `todo.isCompleted` and `todo.url` in `TodoController.create` (lines 68-69) are left out. They name properties `Todo` does not declare, and the second `todo.update(on:)` after them is not modelled.
- ViewController.SignupDetailsPost: Unicode canonical decomposition is not modelled. The handler takes the normal form as a parameter `nfd`, so the model holds for whatever decomposition Swift's `String` uses.
- ViewController.SignupDetailsPost: the re-rendered error text is the thrown error's message. The source's slicing of the error's description at the first comma (ViewController.swift:172) is not modelled. Errors other than 400 and 409 are rethrown, which the model keeps, though no such error can arise in it.
- ViewController.LoginDetailsPost: the catch-all 500 page (ViewController.swift:219-227) is left out. It only catches database and thread-pool failures, which the model has none of.
- DashboardScript.UnescapeEscape: `Unescape` only undoes the five replacements. When the list's markup is assigned to `innerHTML` (dashboard.js:72-91), the HTML parser also turns CR and CRLF into LF and drops NUL. So the title shown on the page can differ from the typed title in those characters, and the model does not claim otherwise.
- The HTML views are left out: the model returns the `Page` a handler would render, not its markup. The GET pages `home`, `login`, `signup` and `reset`, and `resetDetails`, only render or print and are also left out.
- `BasicAuthenticator`'s internals are left out. `UserController.Login` receives its outcome as the context's identity.
- `WebController`, `MailController`, `watch.swift`, the router wiring in `Application+build.swift`, `layout.js` and the DOM and fetch parts of `dashboard.js` are outside the modelled core.
- Concurrency is left out. Two sign-ups racing on one email are serialised by the store's unique index, and the model runs requests one at a time.

## Findings

| source | as written | input that shows it | evidently intended | confidence | as-written member | corrected member |
|---|---|---|---|---|---|---|
| Sources/App/Controllers/TodoController.swift:79-82 | `get` queries with `.with(\.$owner)` and checks no ownership; a loaded `@Parent` is encoded as the whole parent row | user B requests `GET /api/todos/<id of A's todo>`; the reply holds A's email and password hash (`passwordHash`, User.swift:28-29) | the owner appears by id only, as `UserResponse` does "for security" (User.swift:160-166); `TodoProperties.GetIdOnlyHidesUsers` proves the corrected reply independent of the users table | medium, not executed | TodoProperties.GetDisclosesOwner | TodoController.GetIdOnly |
| Sources/App/Controllers/TodoController.swift:99-111 | `update` also eager-loads the owner and returns the todo with it | the owner's own `PATCH` reply holds the owner's password hash | the patched todo with the owner id only; `TodoProperties.EditIdOnlyHidesUsers` proves the corrected reply independent of the users table | medium, not executed | TodoProperties.EditDisclosesOwner | TodoController.EditIdOnly |
