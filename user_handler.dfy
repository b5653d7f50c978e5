/** The HTTP handlers for `/api/v1/users`. Each is a fixed early-return chain:
    parse the `:id` path segment, parse the JSON body, validate it, call the
    service, and turn the outcome into a status code and a `fiber.Map`
    envelope. Body parsing is an input (`None` when `BodyParser` fails), the
    email-syntax rule of the validator is an input, and so is the service's
    answer, which only matters when the chain reaches the call. */
module Handlers {
  import opened Results
  import opened Json
  import opened Models
  import Decimal

  const StatusOK := 200
  const StatusCreated := 201
  const StatusBadRequest := 400
  const StatusNotFound := 404
  const StatusInternalServerError := 500

  datatype Response = Response(status: int, body: map<string, Json>)

  /** Where a handler's chain of input checks ends: an immediate reply, or a
      call of the service with these arguments. */
  datatype Step<T> = Reply(response: Response) | CallService(input: T)

  /** `{"error": ..., "message": ...}` */
  function ErrorBody(error: string, message: string): (b: map<string, Json>)
    ensures b.Keys == {"error", "message"} && KeyAbsent(JObj(b), "password")
  {
    map["error" := JStr(error), "message" := JStr(message)]
  }

  /** `{"message": ..., "data": ...}` */
  function DataBody(message: string, data: Json): map<string, Json>
  {
    map["message" := JStr(message), "data" := data]
  }

  const InvalidJson := Response(StatusBadRequest, ErrorBody("Invalid JSON format", "Please check your request body format"))
  const InvalidId := Response(StatusBadRequest, ErrorBody("Invalid user ID", "User ID must be a valid number"))

  function ValidationFailed(errs: seq<FieldError>): Response
  {
    Response(StatusBadRequest, ErrorBody("Validation failed", ValidationErrorsText(errs)))
  }

  /** `c.ParamsInt("id")`: Fiber reads the path segment with `strconv.Atoi`. */
  function ParamsInt(segment: string): (id: Option<int>)
    ensures id.Some? ==> Decimal.MinInt64 <= id.value <= Decimal.MaxInt64
    ensures id.Some? ==> |segment| > 0 && (Decimal.IsDigit(segment[0]) || segment[0] in "+-")
    ensures segment == "" ==> id == None
  {
    Decimal.Atoi(segment)
  }

  /** The `:id` check each of `GetUserByID`, `UpdateUser` and `DeleteUser`
      starts with. */
  function IdGuard(segment: string): (s: Step<int>)
    ensures s.CallService? <==> ParamsInt(segment).Some?
    ensures s.CallService? ==> s.input == ParamsInt(segment).value
    ensures s.Reply? ==> s == Reply(InvalidId)
    ensures s.Reply? ==> KeyAbsent(JObj(s.response.body), "password")
  {
    match ParamsInt(segment)
    case None => Reply(InvalidId)
    case Some(id) => CallService(id)
  }

  // ---------------------------------------------------------------------------
  // POST /api/v1/users

  function CreateUserGuard(body: Option<CreateUserRequest>, isEmail: string -> bool): (s: Step<CreateUserRequest>)
    ensures s.CallService? <==> body.Some? && CreateRequestValid(body.value, isEmail)
    ensures s.CallService? ==> s.input == body.value
    ensures s.Reply? ==> s.response.status == StatusBadRequest
    ensures s.Reply? ==> KeyAbsent(JObj(s.response.body), "password")
    // the body is parsed before it is validated
    ensures body.None? ==> s == Reply(InvalidJson)
    ensures body.Some? && !CreateRequestValid(body.value, isEmail) ==>
      s == Reply(ValidationFailed(ValidateCreateRequest(body.value, isEmail)))
  {
    if body.None? then Reply(InvalidJson)
    else
      var errs := ValidateCreateRequest(body.value, isEmail);
      if errs != [] then Reply(ValidationFailed(errs)) else CallService(body.value)
  }

  /** The handler's response, given what `CreateUser` answers if it is called. */
  function CreateUser(body: Option<CreateUserRequest>, isEmail: string -> bool, created: Result<User>): (r: Response)
    ensures r.status == StatusBadRequest <==> body.None? || !CreateRequestValid(body.value, isEmail)
    ensures r.status == StatusInternalServerError <==>
      body.Some? && CreateRequestValid(body.value, isEmail) && created.Err?
    ensures r.status == StatusCreated <==>
      body.Some? && CreateRequestValid(body.value, isEmail) && created.Ok?
    // a duplicate email is not a client error here: it is a 500 with the service's text
    ensures r.status == StatusInternalServerError ==>
      r.body == ErrorBody("Failed to create user", ErrorText(created.error))
    ensures r.status == StatusCreated ==>
      r.body == DataBody("User created successfully", ResponseJson(ToResponse(created.value)))
    ensures KeyAbsent(JObj(r.body), "password")
  {
    match CreateUserGuard(body, isEmail)
    case Reply(response) => response
    case CallService(_) =>
      match created
      case Err(e) => Response(StatusInternalServerError, ErrorBody("Failed to create user", ErrorText(e)))
      case Ok(user) =>
        EncodingsAgree(user);
        Response(StatusCreated, DataBody("User created successfully", ResponseJson(ToResponse(user))))
  }

  // ---------------------------------------------------------------------------
  // GET /api/v1/users

  /** No input checks: the service is always called. */
  function GetAllUsers(listed: Result<seq<User>>): (r: Response)
    ensures r.status == StatusInternalServerError <==> listed.Err?
    ensures r.status == StatusOK <==> listed.Ok?
    ensures listed.Err? ==> r.body == ErrorBody("Failed to retrieve users", ErrorText(listed.error))
    // the users themselves are encoded, which leaves their passwords out by the `json:"-"` tag
    ensures listed.Ok? ==> r.body == DataBody("Users retrieved successfully", UsersJson(listed.value))
    ensures KeyAbsent(JObj(r.body), "password")
  {
    match listed
    case Err(e) => Response(StatusInternalServerError, ErrorBody("Failed to retrieve users", ErrorText(e)))
    case Ok(users) =>
      UsersJsonHasNoPassword(users);
      Response(StatusOK, DataBody("Users retrieved successfully", UsersJson(users)))
  }

  // ---------------------------------------------------------------------------
  // GET /api/v1/users/:id

  function GetUserByID(segment: string, fetched: Result<User>): (r: Response)
    ensures r.status == StatusBadRequest <==> ParamsInt(segment).None?
    // every service error is reported as "not found", a store failure included
    ensures r.status == StatusNotFound <==> ParamsInt(segment).Some? && fetched.Err?
    ensures r.status == StatusOK <==> ParamsInt(segment).Some? && fetched.Ok?
    ensures r.status == StatusNotFound ==> r.body == ErrorBody("User not found", ErrorText(fetched.error))
    ensures r.status == StatusOK ==>
      r.body == DataBody("User retrieved successfully", ResponseJson(ToResponse(fetched.value)))
    ensures KeyAbsent(JObj(r.body), "password")
  {
    match IdGuard(segment)
    case Reply(response) => response
    case CallService(_) =>
      match fetched
      case Err(e) => Response(StatusNotFound, ErrorBody("User not found", ErrorText(e)))
      case Ok(user) =>
        EncodingsAgree(user);
        Response(StatusOK, DataBody("User retrieved successfully", ResponseJson(ToResponse(user))))
  }

  // ---------------------------------------------------------------------------
  // PUT /api/v1/users/:id

  function UpdateUserGuard(segment: string, body: Option<UpdateUserRequest>, isEmail: string -> bool)
    : (s: Step<(int, UpdateUserRequest)>)
    ensures s.CallService? <==>
      ParamsInt(segment).Some? && body.Some? && UpdateRequestValid(body.value, isEmail)
    ensures s.CallService? ==> s.input == (ParamsInt(segment).value, body.value)
    ensures s.Reply? ==> s.response.status == StatusBadRequest
    ensures s.Reply? ==> KeyAbsent(JObj(s.response.body), "password")
    // the checks run in the order id, body, validation
    ensures ParamsInt(segment).None? ==> s == Reply(InvalidId)
    ensures ParamsInt(segment).Some? && body.None? ==> s == Reply(InvalidJson)
    ensures ParamsInt(segment).Some? && body.Some? && !UpdateRequestValid(body.value, isEmail) ==>
      s == Reply(ValidationFailed(ValidateUpdateRequest(body.value, isEmail)))
  {
    match IdGuard(segment)
    case Reply(response) => Reply(response)
    case CallService(id) =>
      if body.None? then Reply(InvalidJson)
      else
        var errs := ValidateUpdateRequest(body.value, isEmail);
        if errs != [] then Reply(ValidationFailed(errs)) else CallService((id, body.value))
  }

  function UpdateUser(segment: string, body: Option<UpdateUserRequest>, isEmail: string -> bool, updated: Result<User>)
    : (r: Response)
    ensures r.status == StatusBadRequest <==>
      ParamsInt(segment).None? || body.None? || !UpdateRequestValid(body.value, isEmail)
    // every service error is a 500, a missing id included
    ensures r.status == StatusInternalServerError <==>
      ParamsInt(segment).Some? && body.Some? && UpdateRequestValid(body.value, isEmail) && updated.Err?
    ensures r.status == StatusOK <==>
      ParamsInt(segment).Some? && body.Some? && UpdateRequestValid(body.value, isEmail) && updated.Ok?
    ensures r.status == StatusInternalServerError ==>
      r.body == ErrorBody("Failed to update user", ErrorText(updated.error))
    ensures r.status == StatusOK ==>
      r.body == DataBody("User updated successfully", ResponseJson(ToResponse(updated.value)))
    ensures KeyAbsent(JObj(r.body), "password")
  {
    match UpdateUserGuard(segment, body, isEmail)
    case Reply(response) => response
    case CallService(_) =>
      match updated
      case Err(e) => Response(StatusInternalServerError, ErrorBody("Failed to update user", ErrorText(e)))
      case Ok(user) =>
        EncodingsAgree(user);
        Response(StatusOK, DataBody("User updated successfully", ResponseJson(ToResponse(user))))
  }

  // ---------------------------------------------------------------------------
  // DELETE /api/v1/users/:id

  function DeleteUser(segment: string, deleted: Result<()>): (r: Response)
    ensures r.status == StatusBadRequest <==> ParamsInt(segment).None?
    ensures r.status == StatusNotFound <==> ParamsInt(segment).Some? && deleted.Err?
    ensures r.status == StatusOK <==> ParamsInt(segment).Some? && deleted.Ok?
    ensures r.status == StatusNotFound ==> r.body == ErrorBody("User not found", ErrorText(deleted.error))
    // success carries a message and no `data` member
    ensures r.status == StatusOK ==>
      r.body == map["message" := JStr("User deleted successfully")] && "data" !in r.body
    ensures KeyAbsent(JObj(r.body), "password")
  {
    match IdGuard(segment)
    case Reply(response) => response
    case CallService(_) =>
      match deleted
      case Err(e) => Response(StatusNotFound, ErrorBody("User not found", ErrorText(e)))
      case Ok(_) => Response(StatusOK, map["message" := JStr("User deleted successfully")])
  }

  /** A path segment that is not a number is refused before any service call:
      `GET /api/v1/users/abc` answers 400 whatever the service would say. */
  lemma NonNumericIdIsBadRequest(fetched: Result<User>)
    ensures IdGuard("abc").Reply?
    ensures GetUserByID("abc", fetched).status == StatusBadRequest
  {
    Decimal.AtoiRejectsWords();
  }

  /** Every id the table can hold is accepted from its own `%d` rendering. */
  lemma DecimalIdReachesService(id: int)
    requires Decimal.MinInt64 <= id <= Decimal.MaxInt64
    ensures IdGuard(Decimal.DecimalString(id)) == CallService(id)
  {
    Decimal.AtoiDecimalString(id);
  }
}
