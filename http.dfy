/**
 * What a handler writes: a JSON body, with or without an explicit status.  A
 * bare `res.json(...)` leaves the framework's default status, 200.
 */
module Http {
  import opened Results
  import TodosService

  const MissingFieldsMessage := "Todos los campos son obligatorios"
  const InternalErrorMessage := "Error interno del servidor"

  datatype Body =
    | ErrorBody(error: string)
    | TodoListBody(todos: seq<TodosService.Todo>, page: nat, limit: nat, total: nat)
    | TodoBody(todo: TodosService.Todo)
    | MessageBody(message: string)
    | TokenBody(token: string)

  /** `res.json(body)` or `res.status(status).json(body)`. */
  datatype Response = Json(body: Body) | StatusJson(status: nat, body: Body) {

    /** The status the client sees. */
    function Code(): nat {
      if Json? then 200 else status
    }
  }

  /** JavaScript truthiness of an optional request-body string field. */
  predicate Truthy(field: Option<string>) {
    field.Some? && field.value != ""
  }
}
