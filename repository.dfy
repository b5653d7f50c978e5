/** The user repository the service calls, as an in-memory `users` table.
    The Go repository package (GORM over MySQL) is not part of this model;
    this class keeps the contract the service relies on: `id` is an
    auto-increment primary key, `email` carries a unique index, lookups fail
    with `NotFound`, and the store may fail any operation with an error of its
    own (a lost connection, a driver error), which `faults` stands for. */
module Repository {
  import opened Results
  import opened Models

  /** The repository's operations, for saying which ones the store fails. */
  datatype Op = FindByID | FindByEmail | FindAll | Insert | Save | Remove

  /** Text of the unique-index violation MySQL reports. */
  const DuplicateEntryText := "Error 1062: Duplicate entry for key 'users.email'"

  /** Some row of the table holds this email. */
  predicate EmailHeld(rows: map<int, User>, email: string)
  {
    exists id :: id in rows && rows[id].email == email
  }

  /** Some row other than `id` holds this email. */
  predicate EmailHeldByOther(rows: map<int, User>, email: string, id: int)
  {
    exists k :: k in rows && k != id && rows[k].email == email
  }

  /** The unique index on `email`. */
  predicate UniqueEmails(rows: map<int, User>)
  {
    forall i, j :: i in rows && j in rows && rows[i].email == rows[j].email ==> i == j
  }

  /** The primary key: each row is stored under its own id, ids are positive
      and below the next auto-increment value. */
  predicate KeyedById(rows: map<int, User>, nextId: int)
  {
    forall id :: id in rows ==> rows[id].id == id && 1 <= id < nextId
  }

  /** The table invariant. */
  predicate TableInvariant(rows: map<int, User>, nextId: int)
  {
    1 <= nextId && KeyedById(rows, nextId) && UniqueEmails(rows)
  }

  /** With the unique index, the holder of an email is the only row that has it. */
  lemma HolderIsUnique(rows: map<int, User>, email: string, id: int)
    requires UniqueEmails(rows)
    requires id in rows && rows[id].email == email
    ensures !EmailHeldByOther(rows, email, id)
  {
  }

  /** Storing a row whose email no other row holds keeps the index unique. */
  lemma {:induction false} StoreKeepsUnique(rows: map<int, User>, id: int, u: User)
    requires UniqueEmails(rows)
    requires !EmailHeldByOther(rows, u.email, id)
    ensures UniqueEmails(rows[id := u])
  {
    var r := rows[id := u];
    forall i, j | i in r && j in r && r[i].email == r[j].email ensures i == j {
      if i != id && j != id {
        assert rows[i].email == rows[j].email;
      }
    }
  }

  /** A non-empty set of keys has a member to pick. */
  lemma NonEmptyHasMember(s: set<int>)
    requires |s| > 0
    ensures exists k :: k in s
  {
    if forall k :: k !in s {
      assert false;
    }
  }

  class UserRepository {
    /** The `users` table, by primary key. */
    var rows: map<int, User>
    /** The next auto-increment value. */
    var nextId: int
    /** The logical clock that `autoCreateTime` and `autoUpdateTime` read. */
    var now: nat
    /** The operations the store fails, with the error text it returns. */
    const faults: map<Op, string>

    ghost predicate Valid()
      reads this
    {
      TableInvariant(rows, nextId)
    }

    constructor (faults: map<Op, string>)
      ensures Valid()
      ensures rows == map[] && nextId == 1 && now == 0 && this.faults == faults
    {
      rows := map[];
      nextId := 1;
      now := 0;
      this.faults := faults;
    }

    /** `GetByID`: the row with this primary key. */
    method GetByID(id: int) returns (r: Result<User>)
      requires Valid()
      ensures FindByID in faults ==> r == Err(Failure(faults[FindByID]))
      ensures FindByID !in faults && id in rows ==> r == Ok(rows[id])
      ensures FindByID !in faults && id !in rows ==> r == Err(NotFound)
    {
      if FindByID in faults {
        return Err(Failure(faults[FindByID]));
      }
      if id in rows {
        r := Ok(rows[id]);
      } else {
        r := Err(NotFound);
      }
    }

    /** `GetByEmail`: the row holding this email. */
    method GetByEmail(email: string) returns (r: Result<User>)
      requires Valid()
      ensures FindByEmail in faults ==> r == Err(Failure(faults[FindByEmail]))
      ensures FindByEmail !in faults ==> (r.Ok? <==> EmailHeld(rows, email))
      ensures FindByEmail !in faults && r.Err? ==> r.error == NotFound
      ensures r.Ok? ==> r.value.id in rows && rows[r.value.id] == r.value && r.value.email == email
    {
      if FindByEmail in faults {
        return Err(Failure(faults[FindByEmail]));
      }
      if exists id :: id in rows && rows[id].email == email {
        var id :| id in rows && rows[id].email == email;
        r := Ok(rows[id]);
      } else {
        r := Err(NotFound);
      }
    }

    /** `GetAll`: every row once, in no particular order. */
    method GetAll() returns (r: Result<seq<User>>)
      requires Valid()
      ensures FindAll in faults ==> r == Err(Failure(faults[FindAll]))
      ensures FindAll !in faults ==> r.Ok?
      ensures r.Ok? ==> |r.value| == |rows|
      ensures r.Ok? ==> forall i :: 0 <= i < |r.value| ==> r.value[i].id in rows && rows[r.value[i].id] == r.value[i]
      ensures r.Ok? ==> forall id :: id in rows ==> rows[id] in r.value
      ensures r.Ok? ==> forall i, j :: 0 <= i < j < |r.value| ==> r.value[i].id != r.value[j].id
    {
      if FindAll in faults {
        return Err(Failure(faults[FindAll]));
      }
      var users: seq<User> := [];
      var pending := rows.Keys;
      while |pending| > 0
        invariant pending <= rows.Keys
        invariant |users| + |pending| == |rows.Keys|
        invariant forall i :: 0 <= i < |users| ==> users[i].id in rows.Keys - pending && rows[users[i].id] == users[i]
        invariant forall id :: id in rows.Keys - pending ==> rows[id] in users
        invariant forall i, j :: 0 <= i < j < |users| ==> users[i].id != users[j].id
        decreases |pending|
      {
        NonEmptyHasMember(pending);
        var id :| id in pending;
        users := users + [rows[id]];
        pending := pending - {id};
      }
      r := Ok(users);
    }

    /** `Create`: inserts the row under a fresh id, stamping both timestamps. */
    method Create(u: User) returns (r: Result<User>)
      requires Valid()
      modifies this
      ensures Valid()
      ensures Insert in faults ==> r == Err(Failure(faults[Insert]))
      ensures Insert !in faults && EmailHeld(old(rows), u.email) ==> r == Err(Failure(DuplicateEntryText))
      ensures r.Err? ==> rows == old(rows) && nextId == old(nextId) && now == old(now)
      ensures Insert !in faults && !EmailHeld(old(rows), u.email) ==>
        && r == Ok(u.(id := old(nextId), createdAt := old(now), updatedAt := old(now)))
        && old(nextId) !in old(rows)
        && rows == old(rows)[old(nextId) := r.value]
        && nextId == old(nextId) + 1 && now == old(now) + 1
    {
      if Insert in faults {
        return Err(Failure(faults[Insert]));
      }
      if exists id :: id in rows && rows[id].email == u.email {
        return Err(Failure(DuplicateEntryText));
      }
      var row := u.(id := nextId, createdAt := now, updatedAt := now);
      StoreKeepsUnique(rows, nextId, row);
      rows := rows[nextId := row];
      nextId := nextId + 1;
      now := now + 1;
      r := Ok(row);
    }

    /** `Update`: saves the given row over the stored one with the same id,
        refreshing `updatedAt`. */
    method Update(u: User) returns (r: Result<User>)
      requires Valid()
      modifies this
      ensures Valid() && nextId == old(nextId)
      ensures Save in faults ==> r == Err(Failure(faults[Save]))
      ensures Save !in faults && u.id !in old(rows) ==> r == Err(NotFound)
      ensures Save !in faults && u.id in old(rows) && EmailHeldByOther(old(rows), u.email, u.id) ==>
        r == Err(Failure(DuplicateEntryText))
      ensures r.Err? ==> rows == old(rows) && now == old(now)
      ensures Save !in faults && u.id in old(rows) && !EmailHeldByOther(old(rows), u.email, u.id) ==>
        && r == Ok(u.(updatedAt := old(now)))
        && rows == old(rows)[u.id := r.value]
        && now == old(now) + 1
    {
      if Save in faults {
        return Err(Failure(faults[Save]));
      }
      if u.id !in rows {
        return Err(NotFound);
      }
      if exists k :: k in rows && k != u.id && rows[k].email == u.email {
        return Err(Failure(DuplicateEntryText));
      }
      var row := u.(updatedAt := now);
      StoreKeepsUnique(rows, u.id, row);
      rows := rows[u.id := row];
      now := now + 1;
      r := Ok(row);
    }

    /** `Delete`: removes the row with this id (a hard delete). */
    method Delete(id: int) returns (r: Result<()>)
      requires Valid()
      modifies this
      ensures Valid() && nextId == old(nextId) && now == old(now)
      ensures Remove in faults ==> r == Err(Failure(faults[Remove]))
      ensures Remove !in faults && id !in old(rows) ==> r == Err(NotFound)
      ensures r.Err? ==> rows == old(rows)
      ensures Remove !in faults && id in old(rows) ==> r == Ok(()) && rows == old(rows) - {id}
    {
      if Remove in faults {
        return Err(Failure(faults[Remove]));
      }
      if id !in rows {
        return Err(NotFound);
      }
      rows := rows - {id};
      r := Ok(());
    }
  }
}
