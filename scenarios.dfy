/**
 * Whole request flows driven through the stores and the handlers together: what a
 * client of the backend can rely on from the contracts alone.
 */
module Scenarios {
  import opened Results
  import opened Http
  import AccessToken
  import TodosService
  import UsersService
  import TodosController
  import UsersController

  /**
   * Three todos created at increasing times: the second page of size one holds
   * exactly the second newest, and the total is three.
   */
  method SecondPageOfOne(userId: nat, t1: int, t2: int, t3: int) returns (page: Outcome<TodosService.TodoPage>)
    requires t1 < t2 < t3
    ensures page == Returned(TodosService.TodoPage([TodosService.Todo(2, userId, "b", "", t2)], 3))
  {
    var store := new TodosService.TodoStore();
    var r1 := store.Create(userId, "a", "", t1, false);
    var r2 := store.Create(userId, "b", "", t2, false);
    var r3 := store.Create(userId, "c", "", t3, false);
    ThreeTodosPageTwo(TodosService.Todo(1, userId, "a", "", t1), TodosService.Todo(2, userId, "b", "", t2),
                      TodosService.Todo(3, userId, "c", "", t3));
    page := TodosService.ListTodos(store.rows, userId, Some(2), Some(1), false);
  }

  lemma ThreeTodosPageTwo(a: TodosService.Todo, b: TodosService.Todo, c: TodosService.Todo)
    requires a.userId == b.userId == c.userId
    requires a.createdAt < b.createdAt < c.createdAt
    ensures TodosService.ListTodos([a, b, c], a.userId, Some(2), Some(1), false)
         == Returned(TodosService.TodoPage([b], 3))
  {
    var u := a.userId;
    OwnedThree(a, b, c);
    NewestFirstThree(a, b, c);
    assert TodosService.Skip(2, 1) == 1;
    assert TodosService.CountOwned([a, b, c], u) == 3;
    WindowSecondOfThree(c, b, a);
    assert TodosService.ListTodos([a, b, c], u, Some(2), Some(1), false)
        == Returned(TodosService.TodoPage(TodosService.Window([c, b, a], 1, 1), 3));
  }

  lemma WindowSecondOfThree(x: TodosService.Todo, y: TodosService.Todo, z: TodosService.Todo)
    ensures TodosService.Window([x, y, z], 1, 1) == [y]
  {
    var r := TodosService.Window([x, y, z], 1, 1);
    assert |r| == 1 && r[0] == y;
  }

  lemma OwnedThree(a: TodosService.Todo, b: TodosService.Todo, c: TodosService.Todo)
    requires a.userId == b.userId == c.userId
    ensures TodosService.Owned([a, b, c], a.userId) == [a, b, c]
  {
    assert [a, b, c][1..] == [b, c] && [b, c][1..] == [c] && [c][1..] == [];
  }

  lemma NewestFirstThree(a: TodosService.Todo, b: TodosService.Todo, c: TodosService.Todo)
    requires a.createdAt < b.createdAt < c.createdAt
    ensures TodosService.NewestFirst([a, b, c]) == [c, b, a]
  {
    assert [a, b, c][1..] == [b, c] && [b, c][1..] == [c] && [c][1..] == [];
    assert TodosService.NewestFirst([c]) == [c];
    assert TodosService.InsertByDate(b, [c]) == [c, b];
    assert TodosService.InsertByDate(a, [b]) == [b, a];
    assert TodosService.InsertByDate(a, [c, b]) == [c, b, a];
  }

  /**
   * Register, log in with the same credentials, present the token as
   * `Bearer <token>` to the access-token gate, create a todo as the identity the gate
   * attaches, then try to delete it as another user: 201, 200 with a token for the
   * stored user, the gate lets user 1 through, 201 with a todo owned by user 1, and
   * 403.  The signed token is assumed free of spaces, as a JWT is, and to decode to
   * the stored user's id and email.
   */
  method RegisterLoginCreateForeignDelete(encrypt: string -> string, compare: (string, string) -> bool,
                                          generate: UsersService.User -> UsersService.Token,
                                          verify: string -> Option<AccessToken.Identity>, now: int)
    returns (registered: Response, loggedIn: Response, gate: AccessToken.Decision,
             created: Response, foreignDelete: Response)
    requires compare("p", encrypt("p"))
    requires var token := generate(UsersService.User(1, "A", "a@x.com", encrypt("p")));
      token != "" && ' ' !in token && verify(token) == Some(AccessToken.Identity(1, "a@x.com"))
    ensures var user := UsersService.User(1, "A", "a@x.com", encrypt("p"));
      && registered == StatusJson(201, TokenBody(generate(user)))
      && loggedIn == StatusJson(200, TokenBody(generate(user)))
    ensures gate == AccessToken.Next(AccessToken.Identity(1, "a@x.com"))
    ensures created.Code() == 201 && created.body.TodoBody? && created.body.todo.userId == 1
    ensures foreignDelete == StatusJson(403, ErrorBody(TodosService.NotOwnedMessage))
  {
    var users := new UsersService.UserStore();
    var todos := new TodosService.TodoStore();

    var reg := users.Register("A", "a@x.com", "p", encrypt, generate, UsersService.Healthy);
    registered := UsersController.RegisterUser(
      UsersController.RegisterFields(Some("A"), Some("a@x.com"), Some("p")), (n, e, p) => reg);

    var table := users.users;
    loggedIn := UsersController.LoginUser(
      UsersController.LoginFields(Some("a@x.com"), Some("p")),
      (e, p) => UsersService.Login(table, e, p, compare, generate, None));

    var token := loggedIn.body.token;
    assert token == generate(UsersService.User(1, "A", "a@x.com", encrypt("p")));
    BearerTokenPasses(token, verify, AccessToken.Identity(1, "a@x.com"));
    gate := AccessToken.AccessTokenMiddleware(Some("Bearer " + token), verify);
    var owner := gate.user.id;

    var made := todos.Create(owner, "t", "", now, false);
    created := TodosController.CreateTodo(TodosController.TodoFields(Some("t"), None), owner, (u, t, d) => made);

    var removed := todos.DeleteTodo(2, 1, false);
    assert !TodosService.Matches(todos.rows[0], 2, 1);
    foreignDelete := TodosController.DeleteTodo(1, 2, (u, i) => removed);
  }

  /** A space-free token the verifier accepts, sent as `Bearer <token>`, lets its identity through. */
  lemma BearerTokenPasses(token: string, verify: string -> Option<AccessToken.Identity>, id: AccessToken.Identity)
    requires token != "" && ' ' !in token && verify(token) == Some(id)
    ensures AccessToken.AccessTokenMiddleware(Some("Bearer " + token), verify) == AccessToken.Next(id)
  {
    AccessToken.SchemeIsIgnored("Bearer", token, "");
    assert "Bearer " + token == "Bearer" + " " + token;
  }

  /**
   * Token signing fails after the insert: the client sees 500, yet the user is
   * stored, so the same registration sent again is a 409 conflict.
   */
  method SigningFaultThenRetry(encrypt: string -> string, generate: UsersService.User -> UsersService.Token,
                               f: Fault)
    returns (first: Response, retry: Response, stored: UsersService.User)
    requires f.code != Some(UsersService.UniqueViolation)
    ensures first == StatusJson(500, ErrorBody(InternalErrorMessage))
    ensures retry == StatusJson(409, ErrorBody(UsersController.EmailInUseMessage))
    ensures stored == UsersService.User(1, "A", "a@x.com", encrypt("p"))
  {
    var users := new UsersService.UserStore();
    var body := UsersController.RegisterFields(Some("A"), Some("a@x.com"), Some("p"));
    var r1 := users.Register("A", "a@x.com", "p", encrypt, generate, UsersService.SigningFaults(f));
    first := UsersController.RegisterUser(body, (n, e, p) => r1);
    var r2 := users.Register("A", "a@x.com", "p", encrypt, generate, UsersService.Healthy);
    retry := UsersController.RegisterUser(body, (n, e, p) => r2);
    stored := users.users["a@x.com"];
  }

  /** A second registration with the same email is a conflict: 409, and the table keeps the first user. */
  method DuplicateRegistration(encrypt: string -> string, generate: UsersService.User -> UsersService.Token)
    returns (first: Response, second: Response, stored: UsersService.User)
    ensures first.Code() == 201
    ensures second == StatusJson(409, ErrorBody(UsersController.EmailInUseMessage))
    ensures stored == UsersService.User(1, "A", "a@x.com", encrypt("p"))
  {
    var users := new UsersService.UserStore();
    var body := UsersController.RegisterFields(Some("A"), Some("a@x.com"), Some("p"));
    var r1 := users.Register("A", "a@x.com", "p", encrypt, generate, UsersService.Healthy);
    first := UsersController.RegisterUser(body, (n, e, p) => r1);
    var again := UsersController.RegisterFields(Some("B"), Some("a@x.com"), Some("q"));
    var r2 := users.Register("B", "a@x.com", "q", encrypt, generate, UsersService.Healthy);
    second := UsersController.RegisterUser(again, (n, e, p) => r2);
    stored := users.users["a@x.com"];
  }
}
