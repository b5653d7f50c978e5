/** The user entity, its request payloads, its password-free projection and
    the validation rules that the request structs declare as `validate` tags.
    Timestamps are ticks of the repository's logical clock. */
module Models {
  import opened Results
  import opened Json

  /** A row of the `users` table. `password` holds the hash, never the plaintext. */
  datatype User = User(
    id: int,
    name: string,
    email: string,
    password: string,
    createdAt: nat,
    updatedAt: nat)

  datatype CreateUserRequest = CreateUserRequest(name: string, email: string, password: string)

  /** An empty field means "not supplied" (`omitempty`). */
  datatype UpdateUserRequest = UpdateUserRequest(name: string, email: string)

  /** What a client may see of a user: no password member at all. */
  datatype UserResponse = UserResponse(
    id: int,
    name: string,
    email: string,
    createdAt: nat,
    updatedAt: nat)

  const MaxFieldLength := 255
  const MinNameLength := 2
  const MinPasswordLength := 6

  // ---------------------------------------------------------------------------
  // Projection and encoding

  /** `User.ToResponse`: keeps every field but the password. */
  function ToResponse(u: User): (r: UserResponse)
    ensures r.id == u.id && r.name == u.name && r.email == u.email
    ensures r.createdAt == u.createdAt && r.updatedAt == u.updatedAt
  {
    UserResponse(u.id, u.name, u.email, u.createdAt, u.updatedAt)
  }

  /** The `json` tags of `UserResponse`, which `User` shares but for its password. */
  const ResponseKeys: set<string> := {"id", "name", "email", "created_at", "updated_at"}

  /** The JSON encoding of a `UserResponse`. */
  function ResponseJson(r: UserResponse): (j: Json)
    ensures j.JObj? && j.fields.Keys == ResponseKeys
    ensures j.fields["id"] == JInt(r.id) && j.fields["name"] == JStr(r.name) && j.fields["email"] == JStr(r.email)
    ensures j.fields["created_at"] == JTime(r.createdAt) && j.fields["updated_at"] == JTime(r.updatedAt)
  {
    JObj(map[
      "id" := JInt(r.id),
      "name" := JStr(r.name),
      "email" := JStr(r.email),
      "created_at" := JTime(r.createdAt),
      "updated_at" := JTime(r.updatedAt)])
  }

  /** The JSON encoding of a `User` itself: the `json:"-"` tag drops the password. */
  function UserJson(u: User): (j: Json)
    ensures j.JObj? && j.fields.Keys == ResponseKeys && "password" !in j.fields
  {
    JObj(map[
      "id" := JInt(u.id),
      "name" := JStr(u.name),
      "email" := JStr(u.email),
      "created_at" := JTime(u.createdAt),
      "updated_at" := JTime(u.updatedAt)])
  }

  /** The JSON encoding of a `[]*User` slice. */
  function UsersJson(users: seq<User>): (j: Json)
    ensures j.JArr? && |j.items| == |users|
    ensures forall i :: 0 <= i < |users| ==> j.items[i] == UserJson(users[i])
  {
    JArr(seq(|users|, i requires 0 <= i < |users| => UserJson(users[i])))
  }

  /** Encoding a user directly and encoding its projection give the same JSON,
      and neither mentions a password: the two routes by which the handlers
      publish users agree. */
  lemma EncodingsAgree(u: User)
    ensures UserJson(u) == ResponseJson(ToResponse(u))
    ensures KeyAbsent(UserJson(u), "password")
  {
  }

  /** Changing only the stored hash changes nothing a client can see. */
  lemma ResponseIgnoresPassword(u: User, hash: string)
    ensures ToResponse(u.(password := hash)) == ToResponse(u)
    ensures UserJson(u.(password := hash)) == UserJson(u)
  {
  }

  /** A list of users never carries a password member, however long. */
  lemma UsersJsonHasNoPassword(users: seq<User>)
    ensures KeyAbsent(UsersJson(users), "password")
  {
    var j := UsersJson(users);
    forall i | 0 <= i < |j.items| ensures KeyAbsent(j.items[i], "password") {
      EncodingsAgree(users[i]);
    }
  }

  // ---------------------------------------------------------------------------
  // Validation: the `validate` tags, written out

  /** `min=2,max=255` on a string: length counted in characters. */
  predicate LengthBetween(s: string, lo: nat, hi: nat) { lo <= |s| <= hi }

  /** The `CreateUserRequest` tags:
      name `required,min=2,max=255`, email `required,email,max=255`,
      password `required,min=6,max=255`. `required` on a string means non-empty. */
  predicate CreateRequestValid(req: CreateUserRequest, isEmail: string -> bool)
  {
    && req.name != "" && LengthBetween(req.name, MinNameLength, MaxFieldLength)
    && req.email != "" && isEmail(req.email) && |req.email| <= MaxFieldLength
    && req.password != "" && LengthBetween(req.password, MinPasswordLength, MaxFieldLength)
  }

  /** The `UpdateUserRequest` tags: `omitempty` skips an empty field; a supplied
      name must be 2 to 255 characters, a supplied email well formed and at most 255. */
  predicate UpdateRequestValid(req: UpdateUserRequest, isEmail: string -> bool)
  {
    && (req.name == "" || LengthBetween(req.name, MinNameLength, MaxFieldLength))
    && (req.email == "" || (isEmail(req.email) && |req.email| <= MaxFieldLength))
  }

  /** One violated tag: the struct, the field and the first tag that failed. */
  datatype FieldError = FieldError(structName: string, field: string, tag: string)

  /** The first failing tag of a `min,max` length rule, after `required` or
      `omitempty` have been dealt with. */
  function LengthTag(s: string, lo: nat, hi: nat): (t: Option<string>)
    ensures t == None <==> LengthBetween(s, lo, hi)
  {
    if |s| < lo then Some("min") else if |s| > hi then Some("max") else None
  }

  /** The first failing tag of an `email,max=255` rule. */
  function EmailTag(s: string, isEmail: string -> bool): (t: Option<string>)
    ensures t == None <==> isEmail(s) && |s| <= MaxFieldLength
  {
    if !isEmail(s) then Some("email") else if |s| > MaxFieldLength then Some("max") else None
  }

  /** `Some(tag)` when `required` fails, otherwise the rest of the rule. */
  function Required(s: string, rest: Option<string>): (t: Option<string>)
    ensures t == None <==> s != "" && rest == None
  {
    if s == "" then Some("required") else rest
  }

  /** `None` when `omitempty` skips an empty field, otherwise the rest of the rule. */
  function OmitEmpty(s: string, rest: Option<string>): (t: Option<string>)
    ensures t == None <==> s == "" || rest == None
  {
    if s == "" then None else rest
  }

  function Report(structName: string, field: string, tag: Option<string>): (errs: seq<FieldError>)
    ensures errs == [] <==> tag == None
  {
    match tag
    case None => []
    case Some(t) => [FieldError(structName, field, t)]
  }

  /** The fields a violation list names, in list order. */
  function Fields(errs: seq<FieldError>): (fs: seq<string>)
    ensures |fs| == |errs| && forall i :: 0 <= i < |errs| ==> fs[i] == errs[i].field
  {
    seq(|errs|, i requires 0 <= i < |errs| => errs[i].field)
  }

  /** `[f]` when the field's rule fails, `[]` when it holds. */
  function IfFails(ok: bool, f: string): seq<string>
  {
    if ok then [] else [f]
  }

  /** `validate.Struct(&req)` for a create request: the violations, one per
      failing field, in field order, each naming the first of the field's
      tags that fails. */
  function ValidateCreateRequest(req: CreateUserRequest, isEmail: string -> bool): (errs: seq<FieldError>)
    ensures errs == [] <==> CreateRequestValid(req, isEmail)
    ensures forall i :: 0 <= i < |errs| ==> errs[i].structName == "CreateUserRequest"
    // exactly the failing fields, in the order Name, Email, Password
    ensures Fields(errs) ==
      IfFails(req.name != "" && LengthBetween(req.name, MinNameLength, MaxFieldLength), "Name")
      + IfFails(req.email != "" && isEmail(req.email) && |req.email| <= MaxFieldLength, "Email")
      + IfFails(req.password != "" && LengthBetween(req.password, MinPasswordLength, MaxFieldLength), "Password")
    // the tags are tried left to right: `required`, then the rest
    ensures forall i :: 0 <= i < |errs| && errs[i].field == "Name" ==>
      errs[i].tag == (if req.name == "" then "required" else if |req.name| < MinNameLength then "min" else "max")
    ensures forall i :: 0 <= i < |errs| && errs[i].field == "Email" ==>
      errs[i].tag == (if req.email == "" then "required" else if !isEmail(req.email) then "email" else "max")
    ensures forall i :: 0 <= i < |errs| && errs[i].field == "Password" ==>
      errs[i].tag == (if req.password == "" then "required" else if |req.password| < MinPasswordLength then "min" else "max")
  {
    var s := "CreateUserRequest";
    Report(s, "Name", Required(req.name, LengthTag(req.name, MinNameLength, MaxFieldLength)))
    + Report(s, "Email", Required(req.email, EmailTag(req.email, isEmail)))
    + Report(s, "Password", Required(req.password, LengthTag(req.password, MinPasswordLength, MaxFieldLength)))
  }

  /** `validate.Struct(&req)` for an update request: `omitempty` skips an
      empty field, and a supplied one is checked as on create. */
  function ValidateUpdateRequest(req: UpdateUserRequest, isEmail: string -> bool): (errs: seq<FieldError>)
    ensures errs == [] <==> UpdateRequestValid(req, isEmail)
    ensures forall i :: 0 <= i < |errs| ==> errs[i].structName == "UpdateUserRequest"
    ensures Fields(errs) ==
      IfFails(req.name == "" || LengthBetween(req.name, MinNameLength, MaxFieldLength), "Name")
      + IfFails(req.email == "" || (isEmail(req.email) && |req.email| <= MaxFieldLength), "Email")
    ensures forall i :: 0 <= i < |errs| && errs[i].field == "Name" ==>
      errs[i].tag == (if |req.name| < MinNameLength then "min" else "max")
    ensures forall i :: 0 <= i < |errs| && errs[i].field == "Email" ==>
      errs[i].tag == (if !isEmail(req.email) then "email" else "max")
  {
    var s := "UpdateUserRequest";
    Report(s, "Name", OmitEmpty(req.name, LengthTag(req.name, MinNameLength, MaxFieldLength)))
    + Report(s, "Email", OmitEmpty(req.email, EmailTag(req.email, isEmail)))
  }

  /** An update that supplies nothing is always valid, whatever the email rule says. */
  lemma EmptyUpdateIsValid(isEmail: string -> bool)
    ensures ValidateUpdateRequest(UpdateUserRequest("", ""), isEmail) == []
  {
  }

  // ---------------------------------------------------------------------------
  // Validation error text (go-playground/validator v10)

  function FieldErrorText(e: FieldError): string
  {
    "Key: '" + e.structName + "." + e.field + "' Error:Field validation for '"
    + e.field + "' failed on the '" + e.tag + "' tag"
  }

  /** `ValidationErrors.Error()`: the field errors, one per line. */
  function ValidationErrorsText(errs: seq<FieldError>): (s: string)
    ensures errs == [] <==> s == ""
    ensures |errs| == 1 ==> s == FieldErrorText(errs[0])
  {
    if errs == [] then ""
    else if |errs| == 1 then FieldErrorText(errs[0])
    else FieldErrorText(errs[0]) + "\n" + ValidationErrorsText(errs[1..])
  }

  /** The message of two violation lists is their two messages on separate
      lines: one line per violation, in list order. */
  lemma {:induction false} ValidationErrorsTextAppend(a: seq<FieldError>, b: seq<FieldError>)
    requires a != [] && b != []
    ensures ValidationErrorsText(a + b) == ValidationErrorsText(a) + "\n" + ValidationErrorsText(b)
  {
    if |a| == 1 {
      assert (a + b)[1..] == b;
    } else {
      ValidationErrorsTextAppend(a[1..], b);
      assert (a + b)[1..] == a[1..] + b;
    }
  }

  // ---------------------------------------------------------------------------
  // The partial-update merge

  /** What `UpdateUser` makes of a stored row: each supplied field overwrites
      its own, an empty one leaves the stored value. */
  function Merge(u: User, req: UpdateUserRequest): (m: User)
    ensures m.id == u.id && m.password == u.password
    ensures m.createdAt == u.createdAt && m.updatedAt == u.updatedAt
    ensures m.name == (if req.name == "" then u.name else req.name)
    ensures m.email == (if req.email == "" then u.email else req.email)
  {
    u.(name := if req.name != "" then req.name else u.name,
       email := if req.email != "" then req.email else u.email)
  }

  /** Supplying a field's current value, or nothing, is no change. */
  lemma MergeIdempotent(u: User, req: UpdateUserRequest)
    ensures Merge(Merge(u, req), req) == Merge(u, req)
    ensures Merge(u, UpdateUserRequest("", "")) == u
  {
  }
}
