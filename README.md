# User CRUD service: a verified Dafny model

This project models the user workflow of a small Go REST service (Fiber over
GORM/MySQL). It covers four pieces:

- the **user service**, which holds the business rules over the `users` table.
  It rejects duplicate emails on create and on update. It merges a partial
  update, where an empty field leaves the stored value in place. It checks that
  a row exists before deleting it, and it passes errors through unchanged.
- the **user model**: the password-free projection `ToResponse`, the JSON
  encodings, and the `validate` struct tags written out as predicates and as
  the violation list the validator produces.
- the **HTTP handlers**: each one is an early-return chain (id, body,
  validation, service call) that ends in a status code and a `fiber.Map`
  envelope.
- the **configuration helpers**: fallback rules for environment variables,
  `strconv.Atoi` parsing, the `Load` defaults, and the server-address and DSN
  builders.

The repository package that the service calls is not part of this model. It
is replaced by `Repository.UserRepository`, an in-memory table. The table has
a `map<int, User>` of rows, an auto-increment counter, a logical clock for
`created_at`/`updated_at`, and a constant `faults` map. `faults` names the
operations the store fails and the error text it returns for each one. It
stands for connection and driver errors, and it makes every error branch of
the service reachable. The table invariant (`TableInvariant`) combines the
primary key (`id`) with the unique index on `email`. Every mutating method
keeps it.

Modules, leaf first: `Results` (errors), `Json`, `Decimal` (base-10 text as
`strconv.Atoi` reads it and `%d` writes it), `Models`, `Repository`,
`Services`, `Handlers`, `Config`, and `Scenarios`. `Scenarios` holds request
sequences run against a fresh table, such as create then fetch, or delete then
fetch.

Two behaviours of the code differ from what a reader of the API would expect,
and the model keeps them as written:

- Not every not-found error becomes a 404, and not every other error becomes
  a 500. `GetUserByID` and `DeleteUser` answer 404 for **every** service error,
  a store failure included. `UpdateUser` answers 500 for every service error,
  an unknown id included.
- `Load` reads `DB_CHARSET` into `Database.Charset`, but `GetDatabaseURL`
  always writes `charset=utf8mb4` and never uses it
  (`Config.DatabaseUrlIgnoresCharset`).

Inputs that the model takes as parameters: `hash`, the bcrypt call with its
salt and its possible error; `isEmail`, the validator's email-syntax rule; the
`BodyParser` outcome, as an `Option`; the service's answer, for the pure
handler functions; and the process environment, as a `map<string, string>`.

## Model

| member | source | states |
|---|---|---|
| `Services.UserService.CreateUser` | internal/services/user_service.go:34-63 | When the email is already stored, the result is `EmailExists`. A lookup error other than not-found, a hashing error or an insert error is returned unchanged. On every error the table is as it was. On success exactly one row is added, under a fresh id, with the request's name and email and `hash(password)` as the stored password. |
| `Services.UserService.constructor` | internal/services/user_service.go:27-31 | `NewUserService`: the service holds the repository it is given |
| `Services.UserService.GetAllUsers` | internal/services/user_service.go:65-67 | Returns every stored row exactly once (as many users as rows, each row listed, each listed user stored, no id twice), or the store's error. |
| `Services.UserService.GetUserByID` | internal/services/user_service.go:69-71 | Returns the row stored under the id; `NotFound` exactly when there is none; the store's error when the lookup fails |
| `Services.UserService.UpdateUser` | internal/services/user_service.go:73-102 | An unknown id gives the lookup's error and changes nothing. A supplied email held by a different id gives `EmailExists` and nothing is written, even when a name was also supplied. An email held by the same id is no conflict. On success the row becomes `Merge(old row, req)` with a fresh `updatedAt`, and every other row is untouched. |
| `Services.UserService.DeleteUser` | internal/services/user_service.go:104-113 | An unknown id gives the lookup's `NotFound` before any delete is tried, even when the store would also fail the delete. Otherwise only that id's row is removed, and the counter and the clock stay as they were. |
| `Repository.UserRepository.GetByID` | internal/services/user_service.go:70 | Looks up a row by primary key: the row itself, or `NotFound`, or the store's error |
| `Repository.UserRepository.GetByEmail` | internal/services/user_service.go:36 | Succeeds exactly when some row holds the email, and returns that row. With no row it gives `NotFound`, and on a store failure it gives the store's error. |
| `Repository.UserRepository.GetAll` | internal/services/user_service.go:66 | Returns as many users as there are rows; each stored row appears in the list, each listed user is the row stored under its id, and no id appears twice. |
| `Repository.UserRepository.Create` | internal/services/user_service.go:58 | Inserts under the next auto-increment id and stamps both timestamps with the clock. The unique index refuses a stored email as a duplicate entry. After an error the table is unchanged. |
| `Repository.UserRepository.Update` | internal/services/user_service.go:97 | Saves the row over the stored one with the same id and refreshes `updatedAt`. It fails with `NotFound` for a missing id, and with a duplicate entry for an email another row holds. |
| `Repository.UserRepository.Delete` | internal/services/user_service.go:112 | Hard-deletes the row; `NotFound` for a missing id |
| `Repository.TableInvariant` | internal/models/user.go:9-11 | The table's invariant: each row is stored under its own positive id, below the auto-increment counter (`primaryKey;autoIncrement`), and no two rows share an email (`uniqueIndex`) |
| `Repository.HolderIsUnique` | internal/models/user.go:11 | Under the unique index, the row that holds an email is the only row holding it |
| `Repository.StoreKeepsUnique` | internal/models/user.go:11 | Writing a row whose email no other row holds keeps every email unique |
| `Models.ResponseJson` | internal/models/user.go:31-37 | A `UserResponse` encodes as an object with exactly the members `id`, `name`, `email`, `created_at`, `updated_at`, holding its fields |
| `Models.UserJson` | internal/models/user.go:9-15 | A `User` encodes with the same five members and no `password` member (`json:"-"`) |
| `Models.ToResponse` | internal/models/user.go:40-48 | Copies id, name, email, created and updated time unchanged |
| `Models.EncodingsAgree` | internal/models/user.go:12 | Encoding a `User` (password dropped by `json:"-"`) is the same JSON as encoding its `UserResponse`, and it has no `password` member |
| `Models.ResponseIgnoresPassword` | internal/models/user.go:30-48 | The stored hash has no influence on what a client sees |
| `Models.UsersJson` | internal/models/user.go:12 | A user list encodes element by element with the user encoding |
| `Models.UsersJsonHasNoPassword` | internal/models/user.go:12 | No password member anywhere in an encoded user list |
| `Models.CreateRequestValid` | internal/models/user.go:19-21 | The create tags as one predicate: name non-empty with 2 to 255 characters, email non-empty, well formed and at most 255 characters, password non-empty with 6 to 255 characters |
| `Models.UpdateRequestValid` | internal/models/user.go:26-27 | The update tags as one predicate: an empty field is skipped, a supplied name has 2 to 255 characters, a supplied email is well formed with at most 255 |
| `Models.ValidateCreateRequest` | internal/models/user.go:19-21 | No violation exactly when `CreateRequestValid` holds. The violations name exactly the failing fields, one each, in the order Name, Email, Password. Each names the first failing tag of its field: `required` for an empty value, then `min`, `email` or `max`. |
| `Models.ValidateUpdateRequest` | internal/models/user.go:26-27 | No violation exactly when `UpdateRequestValid` holds. The violations name exactly the failing fields, one each, Name before Email; an empty field is never reported. Each names the first failing tag: `min` or `max` for a name, `email` or `max` for an email. |
| `Models.EmptyUpdateIsValid` | internal/models/user.go:26-27 | An update that supplies nothing is always valid |
| `Models.ValidationErrorsText` | internal/handlers/user_handler.go:38-42 | The validation message is empty exactly when there is no violation, and a single violation's message is its own line |
| `Models.ValidationErrorsTextAppend` | internal/handlers/user_handler.go:41 | The message of two violation lists is the two messages joined by a newline: one line per violation, in order |
| `Models.Merge` | internal/services/user_service.go:80-94 | The partial-update merge: an empty name or email keeps the stored value and a non-empty one overwrites only its own field. Id, password hash and timestamps are kept. |
| `Models.MergeIdempotent` | internal/services/user_service.go:80-94 | Merging twice is merging once; merging an empty request changes nothing |
| `Handlers.ParamsInt` | internal/handlers/user_handler.go:78 | `c.ParamsInt("id")` reads the segment as `strconv.Atoi` does: a success is a 64-bit value from text that starts with a digit or a sign, and the empty segment is refused |
| `Handlers.CreateUserGuard` | internal/handlers/user_handler.go:26-43 | Calls the service, with the parsed request, exactly when the body parses and validates. Otherwise it answers 400: a parse failure answers "Invalid JSON format" before validation is considered, and a validation failure answers "Validation failed" with the violations' text. |
| `Handlers.CreateUser` | internal/handlers/user_handler.go:26-59 | 400 exactly for a parse or validation failure. 500 exactly when the service fails, a duplicate email included, with the service's text. 201 exactly on success, with `ToResponse(user)` as `data`. No password member in any response. |
| `Handlers.GetAllUsers` | internal/handlers/user_handler.go:61-74 | 500 exactly on a service error; 200 exactly on success, with the encoded user list as `data`; no password member |
| `Handlers.IdGuard` | internal/handlers/user_handler.go:78-84 | The `:id` check that `GetUserByID`, `UpdateUser` and `DeleteUser` each start with: the service is called exactly when the segment parses as an integer, with that integer; otherwise "Invalid user ID" (400) |
| `Handlers.GetUserByID` | internal/handlers/user_handler.go:76-100 | 400 exactly for a non-integer id, 404 exactly for any service error, 200 exactly on success with `ToResponse(user)`; no password member |
| `Handlers.UpdateUserGuard` | internal/handlers/user_handler.go:102-128 | The checks run in the order id, then body, then validation, each answering 400 with its own envelope. The service is called, with `(id, request)`, exactly when all three pass. |
| `Handlers.UpdateUser` | internal/handlers/user_handler.go:102-144 | 400 exactly when one of the three checks fails, 500 exactly for any service error, 200 exactly on success with `ToResponse(user)`; no password member |
| `Handlers.DeleteUser` | internal/handlers/user_handler.go:146-169 | 400 exactly for a bad id, 404 exactly for any service error, 200 exactly on success with a message and no `data` member |
| `Handlers.NonNumericIdIsBadRequest` | internal/handlers/user_handler.go:78-84 | `GET /api/v1/users/abc` answers 400 before the service is called |
| `Handlers.DecimalIdReachesService` | internal/handlers/user_handler.go:78 | The decimal rendering of any 64-bit id reaches the service as that id |
| `Decimal.Atoi` | internal/config/config.go:98 | Succeeds exactly for an optional sign followed by at least one ASCII digit whose value lies inside the 64-bit range, and then gives that value; the empty string is refused |
| `Decimal.AtoiAcceptsSignsAndZeros` | internal/config/config.go:98 | A `+` sign, leading zeros and `-0` are accepted: `"+5"`, `"007"`, `"-0"` and `"08082"` read as 5, 7, 0 and 8082 |
| `Decimal.NatString` | internal/config/config.go:84 | `%d` of a natural number is a non-empty digit string without a leading zero |
| `Decimal.DecimalString` | internal/config/config.go:84 | `%d` starts with `-` exactly for negative numbers, and writes no `+`, no leading zero and no `-0` |
| `Decimal.NatStringValue` | internal/config/config.go:84 | The digits `%d` writes for a natural number read back as that number |
| `Decimal.NumeralOfDecimalString` | internal/config/config.go:84 | The text `%d` writes for any integer is a numeral whose value is that integer |
| `Decimal.AtoiDecimalString` | internal/config/config.go:96-103 | `strconv.Atoi` reads back every 64-bit integer from its `%d` rendering |
| `Results.ErrorText` | internal/handlers/user_handler.go:50 | `err.Error()`: "record not found" for GORM's not-found error, "email already exists" for the service's conflict, and a store or hashing error's own text otherwise |
| `Decimal.AtoiRejectsWords` | internal/config/config.go:98-100 | Non-numeric text, the empty string and a lone sign are parse errors |
| `Config.Getenv` | internal/config/config.go:89 | `os.Getenv`: the variable's value when set, the empty string when unset |
| `Config.GetEnv` | internal/config/config.go:88-93 | The variable's value when it is set and non-empty, otherwise the fallback |
| `Config.GetEnvAsInt` | internal/config/config.go:96-103 | The parsed value only when the variable is set and parses; the fallback otherwise, a parse or range error included |
| `Config.Load` | internal/config/config.go:43-69 | The error is always nil. Each field comes from its own variable with its documented default, and both ports are 64-bit values. |
| `Config.LoadWithoutVariables` | internal/config/config.go:47-66 | An environment with nothing set (or only empty values) gives the defaults: `localhost:8082`, database `root@localhost:3306/rest_api_db`, charset `utf8mb4` |
| `Config.GetServerAddress` | internal/config/config.go:83-85 | The address starts with the host followed by `:` |
| `Config.ServerAddressRoundTrip` | internal/config/config.go:83-85 | The address is `host`, then `:`, then the port; no colon follows the separator, and the text after it is written as `%d` writes it (no `+`, no leading zero) and reads back as the port |
| `Config.NatStringNoColon` | internal/config/config.go:84 | A rendered port contains no colon |
| `Config.GetDatabaseURL` | internal/config/config.go:72-80 | The DSN starts with `username:` and ends with `?charset=utf8mb4&parseTime=True&loc=Local` |
| `Config.DatabaseUrlRoundTrip` | internal/config/config.go:72-80 | The DSN is `username:password@tcp(host:` then a port text then `)/dbname` and the options, and the port text is as `%d` writes it and reads back as the port |
| `Config.DatabaseUrlIgnoresCharset` | internal/config/config.go:72-80 | The DSN does not depend on `Database.Charset` |
| `Scenarios.CreateThenFetch` | internal/services/user_service.go:34-71 | A POST of a valid user answers 201, and a GET of the returned id answers 200 with the same `data` (name and email). Neither answer has a password. |
| `Scenarios.DuplicateEmail` | internal/services/user_service.go:36-39 | A second create with a stored email fails with "email already exists" (500 at the handler), and only the first row exists |
| `Scenarios.DeleteThenFetch` | internal/services/user_service.go:104-113 | After a delete, fetching the id gives not-found (404), deleting it again gives not-found, and the table is empty |
| `Scenarios.UpdateToOwnEmail` | internal/services/user_service.go:86-93 | Updating to the email the row already holds succeeds. The new name is taken, and id, hash and creation time are kept. |
| `Scenarios.UpdateToOthersEmail` | internal/services/user_service.go:86-89 | Taking another row's email is a conflict even with a name supplied, and both rows are unchanged |
| `Scenarios.CreateWhileStoreDown` | internal/services/user_service.go:40-42 | A store failure on the email lookup is returned untouched, answered with 500 echoing it, and nothing is written |

## Left out

- The process entry point (`cmd/rest-api-project-with-go/main.go`) is not part of this model. It does log-file I/O, signal handling, the server goroutine and shutdown with a timeout.
- The database connection (`internal/database/connection.go`) is not part of this model. It opens the GORM/MySQL connection and the pool, which are foreign calls; the in-memory repository stands in for the table.
- The route table (`internal/routes/routes.go`) and its informational `/`, `/health` and `/hello` routes are not part of this model. The id guard they rely on is modelled in the handlers.
- `NewUserHandler` and the `UserHandler` struct: the handlers are pure functions of their inputs and of the service's answer; the wiring of a handler to a service object is not modelled.
- `User.TableName` (the constant table name `users`) is not modelled: it only names the table for GORM.
- bcrypt is the parameter `hash`, answering a `HashOutcome`: a digest, or an error text, which the service returns unchanged as a `Failure`; it is never a not-found or a conflict. Its randomness, its cost factor and its length limit are whatever that parameter answers.
- The validator's email-syntax check is the parameter `isEmail`. Lengths are counted in characters, as the validator counts runes. The violation text follows validator v10's message format, and that text comes from the library.
- JSON body parsing is an `Option` input. Field names, missing members and wrong JSON types are not modelled.
- JSON timestamps are logical-clock ticks, not RFC 3339 times.
- Scenarios.UpdateToOwnEmail: its strictly later `updatedAt` holds only because the model's clock advances by one on every write. GORM stamps `autoCreateTime`/`autoUpdateTime` from the wall clock, so two writes in the same millisecond get equal stamps, and a clock stepped back gives an earlier one.
- Go's `int` is taken to be 64 bits wide (`Decimal.MinInt64`/`MaxInt64`), so `strconv.Atoi` and `c.ParamsInt` accept the 64-bit range; on a 32-bit build that range is 32 bits.
- `.env` file loading (`godotenv.Load`): the environment map is taken to be already merged.
- Concurrency is not modelled. Requests run one at a time, so the gap between the email check and the write (two concurrent creates with one email) is not modelled. The repository's unique-index check is the backstop that gap would hit.
- MySQL compares emails under a case-insensitive collation. The model compares them exactly.
- `uint(id)` in the service: negative ids are not wrapped. They match no row, because every stored id is positive.
- Repository.UserRepository.Update: the repository package is not part of this model, and how its `Update` treats an unknown id is an assumption here. If it calls GORM's `Save`, that would insert a new row; the model fails with `NotFound`, following the repository contract the service relies on. The service never reaches that case, because it fetches the row first.
- Repository.UserRepository.GetAll: the order of the list is unspecified, so the contract states its contents and not its order.
- The service returns a pointer that it updated in place. The model returns the new row as a value, so aliasing between the returned user and the stored row is not modelled.
