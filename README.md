# To-do list backend: ownership, accounts and the token gate, in Dafny

This project models the decision layer of a small multi-user to-do backend (an
Express/Prisma service). Users register and log in to obtain a signed token. Every
to-do route sits behind an access-token middleware that turns the `Authorization`
header into an identity. The to-do service then lists the owner's to-dos, creates
to-dos for the owner, and updates and deletes a to-do only through a lookup by the
pair (to-do id, owner id). Each HTTP handler is a total
map from request fields and the service's outcome to one status and JSON body.

Modules, one per core source file, plus the shared `Results` and `Http` and the `Scenarios` module:

- `Results` (`results.dfy`): the two error channels. `Reply` is the `{success, ...}`
  object a service returns. `Outcome` is "returned a value" or "threw a `Fault`"; a
  fault carries the store's error code, such as `P2002`.
- `TodosService` (`todos_service.dfy`): the to-do table is a `seq<Todo>` held by the
  class `TodoStore`. `create`, `update` and `deleteTodo` are methods on that class.
  Their `ensures` tie the new table to `old(rows) + [t]`, `Edited(...)` or
  `Removed(...)`. `getAllTodos` is the pure function `ListTodos` over the table:
  `Owned`, then `NewestFirst` (an insertion sort), then `Window`, with the count
  given by `CountOwned`.
- `UsersService` (`users_service.dfy`): the user table is a `map` keyed by email,
  held by `UserStore`; `register` is a method on it. `login` is the pure function
  `Login` over the map. Hashing (`encrypt`), password comparison (`compare`) and token
  signing (`generate`) are passed in as functions.
- `AccessToken` (`access_token.dfy`): `split(' ')` as `Split` with its inverse
  `Join`, the token extraction and the 401/403/next decision. The verifier is a
  function from token text to `Option<Identity>`.
- `Http`, `TodosController`, `UsersController`: the response type and the six
  handlers. Each handler receives its service call as a function argument, so
  "the service is not called" is stated as "the response does not depend on it".
- `Scenarios`: whole request flows run through the stores and the handlers.

Inputs the model makes explicit: every store fault (a `bool` for the todo
operations, an `Option<Fault>` for the login lookup, and the `StoreMode` of a
registration), the creation timestamp (`now`), and the four token and password
collaborators (`encrypt`, `compare`, `generate` and the token verifier `verify`).

Three behaviours of the code that a reader might not expect, modelled as written:

- The access-token middleware takes the second space-separated segment of the
  `Authorization` header and never checks the scheme word, so `Bearer` is not
  required (`AccessToken.SchemeIsIgnored`).
- `register` in the account service has no `try`: a unique-constraint fault of the
  store passes through unchanged, and the controller answers 409 when its `code`
  is `P2002` (`UsersController.RegisterUser`).
- A todo may have an empty description, and `createTodo` stores one when the field
  is omitted, but `updateTodo` answers 400 to an empty description
  (src/controllers/todosController.js:39; `TodosController.DescriptionAsymmetry`).

## Model

| member | source | states |
|---|---|---|
| `TodosService.Owned` | src/services/todosService.js:5-6 | the result holds exactly the table's rows whose `userId` is the requester's, and is no longer than the table |
| `TodosService.OwnedCounts` | src/services/todosService.js:5-6 | the filter keeps each owned row as many times as the table holds it, and no row of another user |
| `TodosService.CountOwned` | src/services/todosService.js:12 | the owner count query equals the number of rows the owner filter selects |
| `TodosService.NewestFirst` | src/services/todosService.js:7 | the result is ordered by `createdAt` descending and is a permutation (same multiset) of its input |
| `TodosService.Window` | src/services/todosService.js:8-9 | at most `take` elements, element k is input element `skip + k`, and a short page reaches the end of the input |
| `TodosService.Skip` | src/services/todosService.js:8 | the offset `(page-1)*limit` is negative exactly when page is 0 and limit is not |
| `TodosService.ListTodos` | src/services/todosService.js:3-23 | throws 'Error buscando todos' iff there is a store fault or a negative offset. Otherwise: every listed todo is a table row owned by the requester; at most `limit` items and fewer only when the owner has no more rows past the offset, newest first; item k is owned item number `(page-1)*limit + k` in newest-first order; `total` is the owner's full count |
| `TodosService.ListDefaults` | src/services/todosService.js:3 | with `page` and `limit` omitted, the listing equals page 1 of 10 (skip 0) |
| `TodosService.Lookup` | src/services/todosService.js:45-47 | finds a row matching both id and owner iff one exists, and returns the first such position |
| `TodosService.ForeignRowLooksMissing` | src/services/todosService.js:45-49 | with unique ids, a row with the id but another owner gives the same lookup result as no row |
| `TodosService.EditedChangesOneRow` | src/services/todosService.js:51-54 | with unique ids, the owner-scoped update rewrites title and description of exactly the matched row, and no other row |
| `TodosService.RemovedTakesOneRow` | src/services/todosService.js:71-73 | with unique ids, the owner-scoped delete removes exactly the matched row and keeps the order of the rest |
| `TodosService.OwnedAppend` | src/services/todosService.js:28-34 | inserting a todo adds it to its owner's rows only, at the end; every other user's rows are unchanged |
| `TodosService.EditedKeepsOthers` | src/services/todosService.js:51-54 | an update on behalf of one user leaves every other user's rows unchanged |
| `TodosService.RemovedKeepsOthers` | src/services/todosService.js:71-73 | a delete on behalf of one user leaves every other user's rows unchanged |
| `TodosService.OthersListingUnchanged` | src/services/todosService.js:26-80 | no create, update or delete made for one user changes another user's listing, on any page |
| `TodosService.TodoStore.Create` | src/services/todosService.js:26-41 | appends exactly one todo with a fresh id and the given owner, title and description, and returns it; on a fault throws 'Error creando todo' and leaves the table alone |
| `TodosService.TodoStore.Update` | src/services/todosService.js:43-61 | with no row matching (id, owner), missing or foreign alike: 'Este todo no existe o no te pertenece', table unchanged. Otherwise the table becomes `Edited(...)` and the edited row is returned. A fault throws 'Error actualizando todo'. Ids stay unique |
| `TodosService.TodoStore.DeleteTodo` | src/services/todosService.js:63-80 | with no matching row: the same not-found/not-owned reply, table unchanged. Otherwise the table becomes `Removed(...)` and the reply is 'Todo eliminado con éxito'. A fault throws 'Error eliminando todo' |
| `UsersService.Login` | src/services/usersService.js:17-30 | a token iff the email is known and `compare(password, stored hash)` holds, and it is generated from that user; every failure is 'Credenciales inválidas'; a store fault propagates |
| `UsersService.UnknownEmailSkipsCompare` | src/services/usersService.js:22 | for an unknown email the result does not depend on `compare` |
| `UsersService.WrongPasswordLooksLikeUnknownEmail` | src/services/usersService.js:22-26 | a wrong password gives exactly the result of the same login against a table without the account |
| `UsersService.RegisteredUserCanLogIn` | src/services/usersService.js:5-29 | if the hasher accepts a password against its own hash, a stored user logs in with that password and gets the token generated from itself |
| `UsersService.UserStore.Register` | src/services/usersService.js:5-15 | stores `encrypt(password)` with name and email under a fresh id and returns the token generated from the created user. A duplicate email throws the `P2002` conflict fault unchanged. A store that returns nothing gives 'Error al registrar el usuario'. A fault before the insert propagates. All three leave the table unchanged. A fault from token signing propagates after the insert, so the new user stays stored |
| `UsersService.UserStore.LoginIssuesTokenForThatAccount` | src/services/usersService.js:18-30 | in a valid user table, a successful login issues `generate` of the account stored under the given email; that account carries the email, an id already handed out, and an id no other account shares |
| `AccessToken.Split` | src/middlewares/accesTokenMiddleware.js:4 | at least one segment, none containing a space, and joining them with single spaces gives back the header |
| `AccessToken.SplitJoin` | src/middlewares/accesTokenMiddleware.js:4 | splitting undoes joining space-free segments (the other half of the round trip) |
| `AccessToken.ExtractToken` | src/middlewares/accesTokenMiddleware.js:4 | no token iff the header is absent or has no space; a token never contains a space |
| `AccessToken.SchemeIsIgnored` | src/middlewares/accesTokenMiddleware.js:4 | for any space-free scheme word, the token is the segment after the first space, up to the next space or the end |
| `AccessToken.AccessTokenMiddleware` | src/middlewares/accesTokenMiddleware.js:3-18 | 401 'Token no proporcionado' iff the token is missing or empty; 403 'Token inválido' iff a token is present and the verifier rejects it; `next` with `req.user` set to the decoded value iff the verifier accepts |
| `AccessToken.VerifierSeesOnlyTheToken` | src/middlewares/accesTokenMiddleware.js:10 | the decision depends on the verifier only through its answer for the extracted token, and not at all when there is none |
| `AccessToken.MissingTokenIs401` | src/middlewares/accesTokenMiddleware.js:4-8 | an absent header, one without a space, or one with two spaces after the scheme gives 401 |
| `TodosController.GetTodos` | src/controllers/todosController.js:3-16 | on success, the service's todos and total with the page and limit it used (defaults 1 and 10) and no explicit status; any fault gives 500 'Error interno del servidor' |
| `TodosController.CreateTodo` | src/controllers/todosController.js:18-31 | 400 iff the title is missing or empty; otherwise the service gets the title and the description (or ''). Success gives 201 `{todo}`; `success:false` gives 500 with its message; a fault gives 500 with the generic message |
| `TodosController.UpdateTodo` | src/controllers/todosController.js:33-48 | 400 iff the title or the description is falsy. `success:false` gives 403 with the service message. Success gives `{todo}` with no explicit status. A fault gives 500 with the generic message |
| `TodosController.DeleteTodo` | src/controllers/todosController.js:50-62 | `success:false` gives 403 with the service message; success gives `{message: 'Todo eliminado con éxito'}`; a fault gives 500 with the generic message |
| `TodosController.CreateChecksTitleFirst` | src/controllers/todosController.js:22 | without a title the response is the same whatever the service would do |
| `TodosController.DescriptionAsymmetry` | src/controllers/todosController.js:20-39 | an omitted description acts as '' in `createTodo`, which accepts it; `updateTodo` answers 400 to the same empty description |
| `TodosController.ListingShowsOwnTodosOnly` | src/controllers/todosController.js:8-11 | served from the table, a 200 listing holds only the requester's todos, at most `limit` of them and fewer only when the owner has no more past the offset, and the owner's full count |
| `UsersController.RegisterUser` | src/controllers/usersController.js:3-24 | only 201/400/409/500. 400 when a field is falsy, and then the service is unused. `success:false` gives 400 with the service message. Success gives 201 `{token}`. A fault with code P2002 gives 409, any other fault 500 |
| `UsersController.LoginUser` | src/controllers/usersController.js:26-42 | only 200/400/401/500, with no 409. 400 iff a field is falsy. `success:false` gives 401 with the message. Success gives an explicit 200 `{token}`. Any fault gives 500 |
| `UsersController.FailedLoginsLookAlike` | src/controllers/usersController.js:31-35 | served from the user table, an unknown email and a wrong password give the identical 401 'Credenciales inválidas' response |
| `Scenarios.ThreeTodosPageTwo` | src/services/todosService.js:5-17 | three todos of one owner at increasing times: page 2 with limit 1 holds only the second newest, and the total is 3 |
| `Scenarios.SecondPageOfOne` | src/services/todosService.js:26-36 | three creates through the store followed by that listing give that page |
| `Scenarios.RegisterLoginCreateForeignDelete` | src/controllers/todosController.js:50-57 | register then login give 201 and 200 with the token of the stored user, the gate lets that token through as user 1, create as that user gives 201 with a todo owned by that user, and another user's delete of it gives 403 |
| `Scenarios.DuplicateRegistration` | src/controllers/usersController.js:18-19 | a second registration with the same email gives 409, and the table keeps the first user |
| `Scenarios.SigningFaultThenRetry` | src/services/usersService.js:7-13 | when token signing fails after the insert, the client sees 500, the user stays stored, and the same registration sent again gives 409 |
| `Scenarios.BearerTokenPasses` | src/middlewares/accesTokenMiddleware.js:4-17 | a non-empty, space-free token the verifier accepts, sent as `Bearer <token>`, lets its identity through the gate |

## Left out

- `src/utils/tokens.js` (JWT signing and verification with a secret from the environment) is not part of this model. Token issue is the parameter `generate: User -> Token`; verification is the parameter `verify: string -> Option<Identity>`. The expiry (one hour) is not modelled, and the round trip `verify(generate(u))` is only a hypothesis of the login-then-create scenario.
- `src/utils/helpers.js` (bcrypt) is not part of this model. Hashing and comparison are the parameters `encrypt` and `compare`. `compare(p, encrypt(p))` is only a hypothesis of `UsersService.RegisteredUserCanLogIn` and of the login scenario.
- `src/app.js` and the route files (Express bootstrap, static files, wiring) are not modelled. The one fact used is that every todo route runs behind the middleware, so the handlers take the owner id as given.
- The relational store is an in-memory table; SQL, transactions and the race between lookup and write are not modelled. A fault is one flag per operation, whether it hits the lookup or the write.
- Order of todos with equal `createdAt`: the store does not specify it; the model keeps table order (a stable sort).
- A negative offset (`page` 0 with a positive `limit`) is rejected by the store in this model, so it surfaces as 'Error buscando todos'. That rejection is an assumption about the store's argument validation.
- `parseInt` on `page`, `limit` and `id`, including the `NaN` cases: the model takes natural numbers. Query and body fields are `Option`s (`None` stands for `undefined`); falsiness is checked on strings only.
- async/await, `console.error` logging and response chaining are left out. Each handler is one call that returns a `Response`; `res.json` without `res.status` is `Response.Json`, whose status is the framework default 200.
- Header-name case-folding (`Authorization` vs `authorization`) is done by the HTTP library and is not modelled.
- Timing properties (a constant-time compare, account enumeration by timing) cannot be stated here.
- Faults inside `register` are not told apart by origin before the insert: `StoreMode.Faults` stands for a fault from `encryptPassword` or from the store, and leaves the table unchanged. A fault from `generateToken` after the insert is `StoreMode.SigningFaults`, which leaves the new user stored.
- `UsersService.UserStore.Register`: with `encrypt` abstract, the model proves the stored password is `encrypt(password)`, not that it differs from the plain password.
- `UsersService.UserStore.Register`: on a store that returns no record, the model assumes nothing was inserted.
- `AccessToken.AccessTokenMiddleware`: the number of calls to `verifyToken` and `next` is not counted. "Called once with the token" is stated as the decision depending only on `verify(token)` (`AccessToken.VerifierSeesOnlyTheToken`), and "next is called" as the `Next` outcome.
- `TodosService.TodoStore.DeleteTodo`: its success reply carries the service's message as the `Success` value, since `Reply` has no separate `message` field on success.
