/** `UserService` over the user table (`UserRepository`'s derived lookups folded in):
    uniqueness-checked create and update, and delete. Its errors are plain
    `RuntimeException`s whose message ends with the offending value. */
module UserService {
  import opened Base
  import opened Store
  import opened Query

  /** The condition `u.username = :username`. */
  function UsernameIs(username: string): UserRow -> bool {
    (u: UserRow) => u.fields.username == username
  }

  /** The condition `u.email = :email`. */
  function EmailIs(email: string): UserRow -> bool {
    (u: UserRow) => u.fields.email == email
  }

  /** `existsByUsername`: the derived query selecting the rows with `username` is not empty. */
  predicate ExistsByUsername(users: map<int, UserRow>, username: string)
    ensures ExistsByUsername(users, username) <==> Select(users, UsernameIs(username)) != []
  {
    SelectContains(users, UsernameIs(username));
    assert (exists k | k in users :: users[k].fields.username == username) ==> Select(users, UsernameIs(username)) != [] by {
      if exists k | k in users :: users[k].fields.username == username {
        var k :| k in users && users[k].fields.username == username;
        assert users[k] in Select(users, UsernameIs(username));
      }
    }
    assert Select(users, UsernameIs(username)) != [] ==> exists k | k in users :: users[k].fields.username == username by {
      var hits := Select(users, UsernameIs(username));
      if hits != [] {
        assert UsernameIs(username)(hits[0]);
        var k :| k in users && users[k] == hits[0];
      }
    }
    exists k | k in users :: users[k].fields.username == username
  }

  /** `existsByEmail`: the derived query selecting the rows with `email` is not empty. */
  predicate ExistsByEmail(users: map<int, UserRow>, email: string)
    ensures ExistsByEmail(users, email) <==> Select(users, EmailIs(email)) != []
  {
    SelectContains(users, EmailIs(email));
    assert (exists k | k in users :: users[k].fields.email == email) ==> Select(users, EmailIs(email)) != [] by {
      if exists k | k in users :: users[k].fields.email == email {
        var k :| k in users && users[k].fields.email == email;
        assert users[k] in Select(users, EmailIs(email));
      }
    }
    assert Select(users, EmailIs(email)) != [] ==> exists k | k in users :: users[k].fields.email == email by {
      var hits := Select(users, EmailIs(email));
      if hits != [] {
        assert EmailIs(email)(hits[0]);
        var k :| k in users && users[k] == hits[0];
      }
    }
    exists k | k in users :: users[k].fields.email == email
  }

  /** `findByUsername`: the row holding `username`, if any. */
  function FindByUsername(users: map<int, UserRow>, username: string): (r: Option<UserRow>)
    ensures r.None? <==> !ExistsByUsername(users, username)
    ensures r.Some? ==> InTable(users, r.value) && r.value.fields.username == username
  {
    var hits := Select(users, (u: UserRow) => u.fields.username == username);
    SelectContains(users, (u: UserRow) => u.fields.username == username);
    if hits == [] then None else Some(hits[0])
  }

  /** The four columns `updateUser` copies from the request. */
  datatype UserUpdate = UserUpdate(username: string, email: string, firstName: Option<string>, lastName: Option<string>)

  /** `createUser`: the username is checked first, then the email; a user passing both is
      saved under the next key. */
  method CreateUser(db: Database, f: UserFields) returns (r: Result<UserRow>)
    requires db.Valid()
    modifies db`users, db`nextUserId
    ensures db.Valid()
    ensures ExistsByUsername(old(db.users), f.username) ==>
              r == Failure(Runtime("Username already exists: ", NameKey(f.username)))
    ensures !ExistsByUsername(old(db.users), f.username) && ExistsByEmail(old(db.users), f.email) ==>
              r == Failure(Runtime("Email already exists: ", NameKey(f.email)))
    ensures r.Success? <==> !ExistsByUsername(old(db.users), f.username) && !ExistsByEmail(old(db.users), f.email)
    ensures r.Failure? ==> db.users == old(db.users) && db.nextUserId == old(db.nextUserId)
    ensures r.Success? ==> r.value.fields == f && r.value.id !in old(db.users)
    ensures r.Success? ==> db.users == old(db.users)[r.value.id := r.value]
  {
    if ExistsByUsername(db.users, f.username) {
      return Failure(Runtime("Username already exists: ", NameKey(f.username)));
    }
    if ExistsByEmail(db.users, f.email) {
      return Failure(Runtime("Email already exists: ", NameKey(f.email)));
    }
    var row := db.InsertUser(f);
    r := Success(row);
  }

  /** `updateUser`: an unknown key is not found; a changed username or email must be
      free; then exactly username, email, first and last name are overwritten. */
  method UpdateUser(db: Database, id: int, u: UserUpdate) returns (r: Result<UserRow>)
    requires db.Valid()
    modifies db`users
    ensures db.Valid()
    ensures id !in old(db.users) ==> r == Failure(Runtime("User not found with id: ", IdKey(id)))
    ensures id in old(db.users) && old(db.users)[id].fields.username != u.username
              && ExistsByUsername(old(db.users), u.username) ==>
              r == Failure(Runtime("Username already exists: ", NameKey(u.username)))
    ensures id in old(db.users) && (old(db.users)[id].fields.username == u.username || !ExistsByUsername(old(db.users), u.username))
              && old(db.users)[id].fields.email != u.email && ExistsByEmail(old(db.users), u.email) ==>
              r == Failure(Runtime("Email already exists: ", NameKey(u.email)))
    ensures r.Success? <==> (id in old(db.users)
              && (old(db.users)[id].fields.username == u.username || !ExistsByUsername(old(db.users), u.username))
              && (old(db.users)[id].fields.email == u.email || !ExistsByEmail(old(db.users), u.email)))
    ensures r.Failure? ==> db.users == old(db.users)
    ensures r.Success? ==> r.value == UserRow(id, old(db.users)[id].fields.(username := u.username, email := u.email,
                                                                            firstName := u.firstName, lastName := u.lastName))
    ensures r.Success? ==> db.users == old(db.users)[id := r.value]
  {
    if id !in db.users {
      return Failure(Runtime("User not found with id: ", IdKey(id)));
    }
    var existingUser := db.users[id];
    if existingUser.fields.username != u.username && ExistsByUsername(db.users, u.username) {
      return Failure(Runtime("Username already exists: ", NameKey(u.username)));
    }
    if existingUser.fields.email != u.email && ExistsByEmail(db.users, u.email) {
      return Failure(Runtime("Email already exists: ", NameKey(u.email)));
    }
    var fields := existingUser.fields.(username := u.username, email := u.email,
                                       firstName := u.firstName, lastName := u.lastName);
    var row := UserRow(id, fields);
    db.PutUser(row);
    r := Success(row);
  }

  /** `deleteUser`: an unknown key is not found and nothing is deleted; otherwise the user
      goes, and with it the documents it owns. */
  method DeleteUser(db: Database, id: int) returns (r: Result<Unit>)
    requires db.Valid()
    modifies db`users, db`documents
    ensures db.Valid()
    ensures r.Failure? <==> id !in old(db.users)
    ensures r.Failure? ==> r.error == Runtime("User not found with id: ", IdKey(id))
    ensures r.Failure? ==> db.users == old(db.users) && db.documents == old(db.documents)
    ensures r.Success? ==> db.users == old(db.users) - {id}
    ensures r.Success? ==> db.documents == old(db.documents) - OwnedKeys(old(db.documents), id)
  {
    if id !in db.users {
      return Failure(Runtime("User not found with id: ", IdKey(id)));
    }
    db.DeleteUser(id);
    r := Success(Unit);
  }
}
