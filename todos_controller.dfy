/**
 * The todo handlers: each maps the request fields and what the service yields to
 * one response.  The service is passed in as a function, so that "the service is
 * not called" reads as "the response does not depend on the service".  The owner
 * id is the one the access-token gate attached to the request.
 */
module TodosController {
  import opened Results
  import opened Http
  import TodosService

  /** The `page` and `limit` query parameters, already parsed to numbers. */
  datatype PageQuery = PageQuery(page: Option<nat>, limit: Option<nat>)

  /** The `title` and `description` body fields. */
  datatype TodoFields = TodoFields(title: Option<string>, description: Option<string>)

  /** `getTodos`: `page` and `limit` default to 1 and 10 and are echoed back. */
  function GetTodos(query: PageQuery, userId: nat, list: (nat, nat, nat) -> Outcome<TodosService.TodoPage>)
    : (res: Response)
    ensures var page, limit := query.page.GetOr(1), query.limit.GetOr(10);
      var out := list(userId, page, limit);
      && (res.Code() == 500 <==> out.Thrown?)
      && (out.Thrown? ==> res == StatusJson(500, ErrorBody(InternalErrorMessage)))
      && (out.Returned? ==> res.Json? && res.body == TodoListBody(out.result.todos, page, limit, out.result.total))
  {
    var page, limit := query.page.GetOr(1), query.limit.GetOr(10);
    match list(userId, page, limit)
    case Thrown(_) => StatusJson(500, ErrorBody(InternalErrorMessage))
    case Returned(p) => Json(TodoListBody(p.todos, page, limit, p.total))
  }

  /** `createTodo`: a missing `description` is sent to the service as the empty string. */
  function CreateTodo(body: TodoFields, userId: nat, create: (nat, string, string) -> Outcome<Reply<TodosService.Todo>>)
    : (res: Response)
    ensures !Truthy(body.title) <==> res == StatusJson(400, ErrorBody(MissingFieldsMessage))
    ensures Truthy(body.title) ==>
      var out := create(userId, body.title.value, body.description.GetOr(""));
      && (res.Code() == 201 <==> out.Returned? && out.result.Success?)
      && (res.Code() == 201 ==> res.body == TodoBody(out.result.value))
      && (res.Code() == 500 <==> !(out.Returned? && out.result.Success?))
      && (out.Thrown? ==> res.body == ErrorBody(InternalErrorMessage))
      && (out.Returned? && out.result.Failure? ==> res.body == ErrorBody(out.result.message))
  {
    if !Truthy(body.title) then StatusJson(400, ErrorBody(MissingFieldsMessage))
    else
      match create(userId, body.title.value, body.description.GetOr(""))
      case Thrown(_) => StatusJson(500, ErrorBody(InternalErrorMessage))
      case Returned(Failure(message)) => StatusJson(500, ErrorBody(message))
      case Returned(Success(todo)) => StatusJson(201, TodoBody(todo))
  }

  /** `updateTodo`: both fields are required, so an empty description is refused. */
  function UpdateTodo(id: nat, body: TodoFields, userId: nat,
                      update: (nat, nat, string, string) -> Outcome<Reply<TodosService.Todo>>)
    : (res: Response)
    ensures !Truthy(body.title) || !Truthy(body.description) <==>
      res == StatusJson(400, ErrorBody(MissingFieldsMessage))
    ensures Truthy(body.title) && Truthy(body.description) ==>
      var out := update(userId, id, body.title.value, body.description.value);
      && (res.Code() == 403 <==> out.Returned? && out.result.Failure?)
      && (res.Code() == 403 ==> res.body == ErrorBody(out.result.message))
      && (out.Returned? && out.result.Success? ==> res == Json(TodoBody(out.result.value)))
      && (out.Thrown? ==> res == StatusJson(500, ErrorBody(InternalErrorMessage)))
  {
    if !Truthy(body.title) || !Truthy(body.description) then StatusJson(400, ErrorBody(MissingFieldsMessage))
    else
      match update(userId, id, body.title.value, body.description.value)
      case Thrown(_) => StatusJson(500, ErrorBody(InternalErrorMessage))
      case Returned(Failure(message)) => StatusJson(403, ErrorBody(message))
      case Returned(Success(todo)) => Json(TodoBody(todo))
  }

  /** `deleteTodo`: the success body is the handler's own message, not the service's. */
  function DeleteTodo(id: nat, userId: nat, delete: (nat, nat) -> Outcome<Reply<string>>): (res: Response)
    ensures var out := delete(userId, id);
      && (res.Code() == 403 <==> out.Returned? && out.result.Failure?)
      && (res.Code() == 403 ==> res.body == ErrorBody(out.result.message))
      && (out.Returned? && out.result.Success? ==> res == Json(MessageBody(TodosService.DeletedMessage)))
      && (out.Thrown? ==> res == StatusJson(500, ErrorBody(InternalErrorMessage)))
  {
    match delete(userId, id)
    case Thrown(_) => StatusJson(500, ErrorBody(InternalErrorMessage))
    case Returned(Failure(message)) => StatusJson(403, ErrorBody(message))
    case Returned(Success(_)) => Json(MessageBody(TodosService.DeletedMessage))
  }

  /** Without a title the response is fixed before the service could be consulted. */
  lemma CreateChecksTitleFirst(body: TodoFields, userId: nat,
                               create1: (nat, string, string) -> Outcome<Reply<TodosService.Todo>>,
                               create2: (nat, string, string) -> Outcome<Reply<TodosService.Todo>>)
    requires !Truthy(body.title)
    ensures CreateTodo(body, userId, create1) == CreateTodo(body, userId, create2)
  {
  }

  /**
   * An omitted description is an empty one for `createTodo`; `updateTodo` rejects
   * an empty description that `createTodo` accepts.
   */
  lemma DescriptionAsymmetry(id: nat, title: string, userId: nat,
                             create: (nat, string, string) -> Outcome<Reply<TodosService.Todo>>,
                             update: (nat, nat, string, string) -> Outcome<Reply<TodosService.Todo>>)
    requires title != ""
    ensures CreateTodo(TodoFields(Some(title), None), userId, create)
         == CreateTodo(TodoFields(Some(title), Some("")), userId, create)
    ensures CreateTodo(TodoFields(Some(title), Some("")), userId, create).Code() != 400
    ensures UpdateTodo(id, TodoFields(Some(title), Some("")), userId, update).Code() == 400
  {
  }

  /**
   * Served from the todo table, a successful listing shows only the requester's
   * todos, at most `limit` of them and fewer only when the owner has no more past
   * the offset, and the requester's full count.
   */
  lemma ListingShowsOwnTodosOnly(rows: seq<TodosService.Todo>, userId: nat, query: PageQuery, fault: bool)
    ensures var res := GetTodos(query, userId,
                                (u: nat, p: nat, l: nat) => TodosService.ListTodos(rows, u, Some(p), Some(l), fault));
      res.Code() == 200 ==>
        && res.body.TodoListBody?
        && (forall t :: t in res.body.todos ==> t in rows && t.userId == userId)
        && |res.body.todos| <= res.body.limit
        && (|res.body.todos| < res.body.limit ==>
              TodosService.Skip(res.body.page, res.body.limit) + |res.body.todos| >= |TodosService.Owned(rows, userId)|)
        && res.body.total == |TodosService.Owned(rows, userId)|
  {
  }
}
