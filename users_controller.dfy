/**
 * The account handlers: validation, then the service's reply or fault mapped to a
 * status.  Only registration distinguishes the store's unique-constraint fault.
 */
module UsersController {
  import opened Results
  import opened Http
  import UsersService

  const EmailInUseMessage := "El correo electrónico ya está en uso"

  datatype RegisterFields = RegisterFields(name: Option<string>, email: Option<string>, password: Option<string>)
  datatype LoginFields = LoginFields(email: Option<string>, password: Option<string>)

  /** `registerUser`. */
  function RegisterUser(body: RegisterFields, register: (string, string, string) -> Outcome<Reply<UsersService.Token>>)
    : (res: Response)
    ensures res.Code() in {201, 400, 409, 500}
    ensures !(Truthy(body.name) && Truthy(body.email) && Truthy(body.password)) ==>
      res == StatusJson(400, ErrorBody(MissingFieldsMessage))
    ensures Truthy(body.name) && Truthy(body.email) && Truthy(body.password) ==>
      var out := register(body.name.value, body.email.value, body.password.value);
      && (res.Code() == 201 <==> out.Returned? && out.result.Success?)
      && (res.Code() == 201 ==> res.body == TokenBody(out.result.value))
      && (out.Returned? && out.result.Failure? ==> res == StatusJson(400, ErrorBody(out.result.message)))
      && (res.Code() == 409 <==> out.Thrown? && out.fault.code == Some(UsersService.UniqueViolation))
      && (res.Code() == 409 ==> res.body == ErrorBody(EmailInUseMessage))
      && (res.Code() == 500 <==> out.Thrown? && out.fault.code != Some(UsersService.UniqueViolation))
      && (res.Code() == 500 ==> res.body == ErrorBody(InternalErrorMessage))
  {
    if !Truthy(body.name) || !Truthy(body.email) || !Truthy(body.password) then
      StatusJson(400, ErrorBody(MissingFieldsMessage))
    else
      match register(body.name.value, body.email.value, body.password.value)
      case Returned(Failure(message)) => StatusJson(400, ErrorBody(message))
      case Returned(Success(token)) => StatusJson(201, TokenBody(token))
      case Thrown(fault) =>
        if fault.code == Some(UsersService.UniqueViolation) then StatusJson(409, ErrorBody(EmailInUseMessage))
        else StatusJson(500, ErrorBody(InternalErrorMessage))
  }

  /** `loginUser`: there is no conflict branch; every fault is a 500. */
  function LoginUser(body: LoginFields, login: (string, string) -> Outcome<Reply<UsersService.Token>>)
    : (res: Response)
    ensures res.Code() in {200, 400, 401, 500}
    ensures !(Truthy(body.email) && Truthy(body.password)) <==>
      res == StatusJson(400, ErrorBody(MissingFieldsMessage))
    ensures Truthy(body.email) && Truthy(body.password) ==>
      var out := login(body.email.value, body.password.value);
      && (res.Code() == 200 <==> out.Returned? && out.result.Success?)
      && (res.Code() == 200 ==> res == StatusJson(200, TokenBody(out.result.value)))
      && (res.Code() == 401 <==> out.Returned? && out.result.Failure?)
      && (res.Code() == 401 ==> res.body == ErrorBody(out.result.message))
      && (out.Thrown? ==> res == StatusJson(500, ErrorBody(InternalErrorMessage)))
  {
    if !Truthy(body.email) || !Truthy(body.password) then StatusJson(400, ErrorBody(MissingFieldsMessage))
    else
      match login(body.email.value, body.password.value)
      case Returned(Failure(message)) => StatusJson(401, ErrorBody(message))
      case Returned(Success(token)) => StatusJson(200, TokenBody(token))
      case Thrown(_) => StatusJson(500, ErrorBody(InternalErrorMessage))
  }

  /**
   * Served from the user table, an unknown email and a wrong password give the
   * same response: 401 with the generic invalid-credentials message.
   */
  lemma {:induction false} FailedLoginsLookAlike(users: map<string, UsersService.User>, known: string, unknown: string,
                                                 password: string, compare: (string, string) -> bool,
                                                 generate: UsersService.User -> UsersService.Token)
    requires known != "" && unknown != "" && password != ""
    requires unknown !in users
    requires known in users && !compare(password, users[known].password)
    ensures var login := (e, p) => UsersService.Login(users, e, p, compare, generate, None);
      && LoginUser(LoginFields(Some(known), Some(password)), login)
         == LoginUser(LoginFields(Some(unknown), Some(password)), login)
      && LoginUser(LoginFields(Some(known), Some(password)), login)
         == StatusJson(401, ErrorBody(UsersService.InvalidCredentials))
  {
  }
}
