/** Request sequences against a fresh table, through the service and the
    handlers: what a client observes across several calls follows from the
    single-call contracts alone. */
module Scenarios {
  import opened Results
  import opened Json
  import opened Models
  import opened Repository
  import opened Services
  import Handlers
  import Decimal

  /** POST a valid user, then GET it by the id in the answer: both answers
      carry the same name and email, and neither carries a password. */
  method CreateThenFetch(req: CreateUserRequest, isEmail: string -> bool, hash: string -> HashOutcome)
    returns (post: Handlers.Response, get: Handlers.Response)
    requires CreateRequestValid(req, isEmail) && hash(req.password).Hashed?
    ensures post.status == Handlers.StatusCreated && get.status == Handlers.StatusOK
    ensures "data" in post.body && "data" in get.body && post.body["data"] == get.body["data"]
    ensures post.body["data"] == ResponseJson(UserResponse(1, req.name, req.email, 0, 0))
    ensures KeyAbsent(JObj(post.body), "password") && KeyAbsent(JObj(get.body), "password")
  {
    var repo := new UserRepository(map[]);
    var service := new UserService(repo);
    var created := service.CreateUser(req, hash);
    post := Handlers.CreateUser(Some(req), isEmail, created);
    var segment := Decimal.DecimalString(created.value.id);
    Handlers.DecimalIdReachesService(created.value.id);
    var fetched := service.GetUserByID(created.value.id);
    get := Handlers.GetUserByID(segment, fetched);
  }

  /** Two creates with one email: the second is refused as a conflict, its
      answer is a 500 with the conflict's text, and one row remains. */
  method DuplicateEmail(first: CreateUserRequest, second: CreateUserRequest, isEmail: string -> bool,
                        hash: string -> HashOutcome)
    returns (r1: Result<User>, r2: Result<User>, post: Handlers.Response, rows: map<int, User>)
    requires first.email == second.email
    requires hash(first.password).Hashed?
    ensures r1.Ok? && r2 == Err(EmailExists)
    ensures CreateRequestValid(second, isEmail) ==>
      post.status == Handlers.StatusInternalServerError
      && post.body == Handlers.ErrorBody("Failed to create user", EmailExistsText)
    ensures rows == map[1 := r1.value]
  {
    var repo := new UserRepository(map[]);
    var service := new UserService(repo);
    r1 := service.CreateUser(first, hash);
    assert EmailHeld(repo.rows, second.email) by {
      assert 1 in repo.rows && repo.rows[1].email == second.email;
    }
    r2 := service.CreateUser(second, hash);
    post := Handlers.CreateUser(Some(second), isEmail, r2);
    rows := repo.rows;
  }

  /** Create, delete, then fetch the same id: not found. A second delete is
      refused as not found too, and the table stays empty. */
  method DeleteThenFetch(req: CreateUserRequest, hash: string -> HashOutcome)
    returns (deleted: Result<()>, fetched: Result<User>, again: Result<()>, rows: map<int, User>)
    requires hash(req.password).Hashed?
    ensures deleted == Ok(()) && fetched == Err(NotFound) && again == Err(NotFound)
    ensures rows == map[]
    ensures Handlers.GetUserByID("1", fetched).status == Handlers.StatusNotFound
  {
    var repo := new UserRepository(map[]);
    var service := new UserService(repo);
    var created := service.CreateUser(req, hash);
    deleted := service.DeleteUser(created.value.id);
    fetched := service.GetUserByID(created.value.id);
    again := service.DeleteUser(created.value.id);
    rows := repo.rows;
    Handlers.DecimalIdReachesService(1);
  }

  /** Updating a user's email to the one it already holds is no conflict;
      a new name is taken and everything else the row had is kept. */
  method UpdateToOwnEmail(req: CreateUserRequest, name: string, hash: string -> HashOutcome)
    returns (created: Result<User>, updated: Result<User>)
    requires hash(req.password).Hashed? && name != ""
    ensures created.Ok? && updated.Ok?
    ensures updated.value.id == created.value.id && updated.value.email == req.email
    ensures updated.value.name == name && updated.value.password == created.value.password
    ensures updated.value.createdAt == created.value.createdAt && updated.value.updatedAt > created.value.updatedAt
  {
    var repo := new UserRepository(map[]);
    var service := new UserService(repo);
    created := service.CreateUser(req, hash);
    HolderIsUnique(repo.rows, req.email, created.value.id);
    updated := service.UpdateUser(created.value.id, UpdateUserRequest(name, req.email));
  }

  /** Taking another user's email on update is refused, even with a new name
      in the same request, and both rows stay as they were. */
  method UpdateToOthersEmail(a: CreateUserRequest, b: CreateUserRequest, name: string, hash: string -> HashOutcome)
    returns (ra: Result<User>, rb: Result<User>, updated: Result<User>, rows: map<int, User>)
    requires a.email != b.email && a.email != ""
    requires hash(a.password).Hashed? && hash(b.password).Hashed?
    ensures ra.Ok? && rb.Ok? && updated == Err(EmailExists)
    ensures rows == map[1 := ra.value, 2 := rb.value]
  {
    var repo := new UserRepository(map[]);
    var service := new UserService(repo);
    ra := service.CreateUser(a, hash);
    assert !EmailHeld(repo.rows, b.email) by {
      assert repo.rows.Keys == {1};
    }
    rb := service.CreateUser(b, hash);
    assert EmailHeldByOther(repo.rows, a.email, 2) by {
      assert 1 in repo.rows && repo.rows[1].email == a.email;
    }
    updated := service.UpdateUser(2, UpdateUserRequest(name, a.email));
    rows := repo.rows;
  }

  /** When the store is down, a create returns the store's error untouched,
      the answer is a 500 echoing it, and nothing is written. */
  method CreateWhileStoreDown(req: CreateUserRequest, text: string, isEmail: string -> bool,
                              hash: string -> HashOutcome)
    returns (created: Result<User>, post: Handlers.Response, rows: map<int, User>)
    requires CreateRequestValid(req, isEmail)
    ensures created == Err(Failure(text))
    ensures post == Handlers.Response(Handlers.StatusInternalServerError, Handlers.ErrorBody("Failed to create user", text))
    ensures rows == map[]
  {
    var repo := new UserRepository(map[FindByEmail := text]);
    var service := new UserService(repo);
    created := service.CreateUser(req, hash);
    post := Handlers.CreateUser(Some(req), isEmail, created);
    rows := repo.rows;
  }
}
