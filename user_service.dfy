/** The user service: the business rules over the repository's table.
    Each method changes the table through the repository only, and its
    contract says what the table is afterwards and what was returned. The
    hashing function is a parameter: bcrypt, its random salt and its own
    failure are folded into what `hash` answers. */
module Services {
  import opened Results
  import opened Models
  import opened Repository

  /** What `bcrypt.GenerateFromPassword` answers: a digest, or its own error.
      It never answers a not-found or a conflict. */
  datatype HashOutcome = Hashed(digest: string) | HashFailed(text: string)

  class UserService {
    const userRepo: UserRepository

    /** `NewUserService`. */
    constructor (userRepo: UserRepository)
      ensures this.userRepo == userRepo
    {
      this.userRepo := userRepo;
    }

    /** `CreateUser`: rejects an email that is already stored, hashes the
        password and inserts the new row. */
    method CreateUser(req: CreateUserRequest, hash: string -> HashOutcome) returns (r: Result<User>)
      requires userRepo.Valid()
      modifies userRepo
      ensures userRepo.Valid()
      // the email lookup fails: its error, nothing stored
      ensures FindByEmail in userRepo.faults ==> r == Err(Failure(userRepo.faults[FindByEmail]))
      // the email is taken
      ensures FindByEmail !in userRepo.faults && EmailHeld(old(userRepo.rows), req.email) ==> r == Err(EmailExists)
      // hashing fails: its error
      ensures (FindByEmail !in userRepo.faults && !EmailHeld(old(userRepo.rows), req.email) && hash(req.password).HashFailed?) ==>
        r == Err(Failure(hash(req.password).text))
      // the insert fails: its error
      ensures (&& FindByEmail !in userRepo.faults && !EmailHeld(old(userRepo.rows), req.email)
               && hash(req.password).Hashed? && Insert in userRepo.faults) ==>
        r == Err(Failure(userRepo.faults[Insert]))
      // whatever went wrong, the table is as it was
      ensures r.Err? ==> userRepo.rows == old(userRepo.rows)
      ensures userRepo.nextId == if r.Ok? then old(userRepo.nextId) + 1 else old(userRepo.nextId)
      ensures userRepo.now == if r.Ok? then old(userRepo.now) + 1 else old(userRepo.now)
      // success: exactly one new row, under a fresh id, holding the hash
      ensures (&& FindByEmail !in userRepo.faults && !EmailHeld(old(userRepo.rows), req.email)
               && hash(req.password).Hashed? && Insert !in userRepo.faults) ==>
        r.Ok?
      ensures r.Ok? ==>
        && r.value == User(old(userRepo.nextId), req.name, req.email, hash(req.password).digest, old(userRepo.now), old(userRepo.now))
        && r.value.id !in old(userRepo.rows)
        && userRepo.rows == old(userRepo.rows)[r.value.id := r.value]
    {
      var existing := userRepo.GetByEmail(req.email);
      if existing.Ok? {
        return Err(EmailExists);
      }
      if existing.error != NotFound {
        return Err(existing.error);
      }
      var hashed := hash(req.password);
      if hashed.HashFailed? {
        return Err(Failure(hashed.text));
      }
      var user := User(0, req.name, req.email, hashed.digest, 0, 0);
      r := userRepo.Create(user);
    }

    /** `GetAllUsers`: every stored user, or the store's error. */
    method GetAllUsers() returns (r: Result<seq<User>>)
      requires userRepo.Valid()
      ensures FindAll in userRepo.faults ==> r == Err(Failure(userRepo.faults[FindAll]))
      ensures FindAll !in userRepo.faults ==> r.Ok?
      ensures r.Ok? ==> |r.value| == |userRepo.rows|
      ensures r.Ok? ==> forall id :: id in userRepo.rows ==> userRepo.rows[id] in r.value
      ensures r.Ok? ==> forall u :: u in r.value ==> u.id in userRepo.rows && userRepo.rows[u.id] == u
      ensures r.Ok? ==> forall i, j :: 0 <= i < j < |r.value| ==> r.value[i].id != r.value[j].id
    {
      r := userRepo.GetAll();
    }

    /** `GetUserByID`: the stored user with this id; `NotFound` when none. */
    method GetUserByID(id: int) returns (r: Result<User>)
      requires userRepo.Valid()
      ensures FindByID in userRepo.faults ==> r == Err(Failure(userRepo.faults[FindByID]))
      ensures FindByID !in userRepo.faults ==> (r.Ok? <==> id in userRepo.rows)
      ensures FindByID !in userRepo.faults && r.Err? ==> r == Err(NotFound)
      ensures r.Ok? ==> r.value == userRepo.rows[id] && r.value.id == id
    {
      r := userRepo.GetByID(id);
    }

    /** `UpdateUser`: fetches the row, overwrites each supplied field (an email
        only when no other row holds it) and saves it. */
    method UpdateUser(id: int, req: UpdateUserRequest) returns (r: Result<User>)
      requires userRepo.Valid()
      modifies userRepo
      ensures userRepo.Valid() && userRepo.nextId == old(userRepo.nextId)
      // the lookup of the id fails: its error
      ensures FindByID in userRepo.faults ==> r == Err(Failure(userRepo.faults[FindByID]))
      ensures FindByID !in userRepo.faults && id !in old(userRepo.rows) ==> r == Err(NotFound)
      // a supplied email held by another row is a conflict, whatever else was supplied
      ensures (&& FindByID !in userRepo.faults && id in old(userRepo.rows) && req.email != ""
               && FindByEmail !in userRepo.faults && EmailHeldByOther(old(userRepo.rows), req.email, id)) ==>
        r == Err(EmailExists)
      // the email lookup fails: its error
      ensures (&& FindByID !in userRepo.faults && id in old(userRepo.rows) && req.email != ""
               && FindByEmail in userRepo.faults) ==>
        r == Err(Failure(userRepo.faults[FindByEmail]))
      // the save fails: its error
      ensures (&& FindByID !in userRepo.faults && id in old(userRepo.rows)
               && (req.email == "" || (FindByEmail !in userRepo.faults && !EmailHeldByOther(old(userRepo.rows), req.email, id)))
               && Save in userRepo.faults) ==>
        r == Err(Failure(userRepo.faults[Save]))
      // whatever went wrong, the table is as it was
      ensures r.Err? ==> userRepo.rows == old(userRepo.rows)
      ensures userRepo.now == if r.Ok? then old(userRepo.now) + 1 else old(userRepo.now)
      // success: the merged row replaces the old one, and nothing else changes
      ensures (&& FindByID !in userRepo.faults && id in old(userRepo.rows)
               && (req.email == "" || (FindByEmail !in userRepo.faults && !EmailHeldByOther(old(userRepo.rows), req.email, id)))
               && Save !in userRepo.faults) ==>
        r.Ok?
      ensures r.Ok? ==>
        && id in old(userRepo.rows)
        && r.value == Merge(old(userRepo.rows)[id], req).(updatedAt := old(userRepo.now))
        && userRepo.rows == old(userRepo.rows)[id := r.value]
    {
      var found := userRepo.GetByID(id);
      if found.Err? {
        return Err(found.error);
      }
      var user := found.value;
      if req.name != "" {
        user := user.(name := req.name);
      }
      if req.email != "" {
        var existing := userRepo.GetByEmail(req.email);
        if existing.Ok? && existing.value.id != id {
          return Err(EmailExists);
        }
        if existing.Err? && existing.error != NotFound {
          return Err(existing.error);
        }
        assert !EmailHeldByOther(userRepo.rows, req.email, id) by {
          if existing.Ok? {
            HolderIsUnique(userRepo.rows, req.email, id);
          }
        }
        user := user.(email := req.email);
      }
      r := userRepo.Update(user);
    }

    /** `DeleteUser`: confirms the row exists, then deletes it. */
    method DeleteUser(id: int) returns (r: Result<()>)
      requires userRepo.Valid()
      modifies userRepo
      ensures userRepo.Valid() && userRepo.nextId == old(userRepo.nextId) && userRepo.now == old(userRepo.now)
      ensures FindByID in userRepo.faults ==> r == Err(Failure(userRepo.faults[FindByID]))
      // a missing id is reported by the lookup, before the store's delete is tried
      ensures FindByID !in userRepo.faults && id !in old(userRepo.rows) ==> r == Err(NotFound)
      ensures FindByID !in userRepo.faults && id in old(userRepo.rows) && Remove in userRepo.faults ==>
        r == Err(Failure(userRepo.faults[Remove]))
      ensures r.Err? ==> userRepo.rows == old(userRepo.rows)
      ensures FindByID !in userRepo.faults && id in old(userRepo.rows) && Remove !in userRepo.faults ==> r == Ok(())
      ensures r.Ok? ==> id in old(userRepo.rows) && userRepo.rows == old(userRepo.rows) - {id}
    {
      var found := userRepo.GetByID(id);
      if found.Err? {
        return Err(found.error);
      }
      r := userRepo.Delete(id);
    }
  }
}
