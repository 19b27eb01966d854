/** The server's UserServiceImpl over the JPA user repository. Ids are
    counted by the service; e-mails are checked for form by the server's
    ValidationUser and, as written, never for uniqueness. */
module ServerUsers {
  import opened Base
  import opened Domain
  import opened Seqs
  import opened Store
  import opened EmailValidation
  import UserMapper
  import InMemoryUsers

  /** No two stored users share an e-mail. */
  ghost predicate UniqueEmails(users: seq<User>)
  {
    forall i, j :: 0 <= i < j < |users| ==> users[i].email != users[j].email
  }

  /** A stored user other than the one with id `id` has e-mail `email`. */
  predicate HeldByOther(users: seq<User>, email: Option<string>, id: int)
  {
    exists u :: u in users && u.email == email && u.id != id
  }

  /** validateUserByEmail as written: `findAll().contains(user.getEmail())`
      asks a list of users whether it holds a string, which no user equals,
      so the check always passes. */
  function ValidateUserByEmail(users: seq<User>, user: User): Outcome
  {
    Pass
  }

  /** validateUserByEmail as evidently intended: CONFLICT when another stored
      user already has the e-mail. */
  function ValidateUserByEmailChecked(users: seq<User>, user: User): (o: Outcome)
    ensures o.Fail? <==> HeldByOther(users, user.email, user.id)
    ensures o.Fail? ==> o.error == EmailTaken && StatusOf(o.error) == HttpConflict
  {
    if HeldByOther(users, user.email, user.id) then Fail(EmailTaken) else Pass
  }

  /** createUser as written: the form of the e-mail, then the uniqueness
      check that never fails, then the user under the next id. */
  function CreateResult(users: seq<User>, dto: UserDto, newId: int): (r: Result<User>)
    ensures r.Ok? <==> dto.email.Some? && '@' in dto.email.value
    ensures r.Err? ==> r.error == InvalidEmail
    ensures r.Ok? ==> r.value == User(newId, dto.name, dto.email)
  {
    var user := UserMapper.ToUser(dto);
    match ValidateUser(user)
    case Fail(e) => Err(e)
    case Pass =>
      match ValidateUserByEmail(users, user)
      case Fail(e) => Err(e)
      case Pass => Ok(user.(id := newId))
  }

  /** createUser with the intended uniqueness check, made once the new id is known. */
  function CreateResultChecked(users: seq<User>, dto: UserDto, newId: int): (r: Result<User>)
    ensures r.Ok? <==> dto.email.Some? && '@' in dto.email.value && !HeldByOther(users, dto.email, newId)
    ensures ValidateUser(UserMapper.ToUser(dto)).Fail? ==> r == Err(InvalidEmail)
    ensures ValidateUser(UserMapper.ToUser(dto)) == Pass && HeldByOther(users, dto.email, newId) ==> r == Err(EmailTaken)
    ensures r.Ok? ==> r.value == User(newId, dto.name, dto.email)
  {
    var user := UserMapper.ToUser(dto);
    match ValidateUser(user)
    case Fail(e) => Err(e)
    case Pass =>
      match ValidateUserByEmailChecked(users, user.(id := newId))
      case Fail(e) => Err(e)
      case Pass => Ok(user.(id := newId))
  }

  /** getUserById: NOT_FOUND for an unknown id. */
  function GetUserById(users: seq<User>, id: int): (r: Result<User>)
    ensures r.Err? <==> Find(users, UserKey, id).None?
    ensures r.Err? ==> r.error == NotFound(UserEntity)
    ensures r.Ok? ==> r.value in users && r.value.id == id
  {
    match Find(users, UserKey, id)
    case None => Err(NotFound(UserEntity))
    case Some(u) => Ok(u)
  }

  /** updateUser as written: an unknown id, then the uniqueness check that
      never fails, then the form of the e-mail; the null fields of the patch
      are taken from the stored user. */
  function UpdateResult(users: seq<User>, id: int, dto: UserDto): (r: Result<User>)
    ensures r.Err? && GetUserById(users, id).Err? ==> r.error == NotFound(UserEntity)
    ensures GetUserById(users, id).Ok? ==> (
      var u := InMemoryUsers.Patched(GetUserById(users, id).value, id, dto);
      && (r.Ok? <==> ValidateUser(u) == Pass)
      && (r.Err? ==> r.error == InvalidEmail)
      && (r.Ok? ==> r.value == u))
    ensures GetUserById(users, id).Err? ==> r.Err?
  {
    match GetUserById(users, id)
    case Err(e) => Err(e)
    case Ok(stored) =>
      var u := InMemoryUsers.Patched(stored, id, dto);
      match ValidateUserByEmail(users, u)
      case Fail(e) => Err(e)
      case Pass =>
        match ValidateUser(u)
        case Fail(e) => Err(e)
        case Pass => Ok(u)
  }

  /** The tail of a table with unique keys and e-mails keeps both, and no
      row of the tail shares the head's key or e-mail. */
  lemma UniqueTail(users: seq<User>)
    requires users != [] && UniqueKeys(users, UserKey) && UniqueEmails(users)
    ensures UniqueKeys(users[1..], UserKey) && UniqueEmails(users[1..])
    ensures forall y :: y in users[1..] ==> y.id != users[0].id && y.email != users[0].email
  {
    var rest := users[1..];
    forall i, j | 0 <= i < j < |rest| ensures rest[i].id != rest[j].id && rest[i].email != rest[j].email {
      assert rest[i] == users[i + 1] && rest[j] == users[j + 1];
    }
    forall y | y in rest ensures y.id != users[0].id && y.email != users[0].email {
      var k :| 0 <= k < |rest| && rest[k] == y;
      assert users[k + 1] == y;
    }
  }

  /** A user whose e-mail no row has can go in front of a table with unique e-mails. */
  lemma UniqueCons(x: User, users: seq<User>)
    requires UniqueEmails(users)
    requires forall y :: y in users ==> y.email != x.email
    ensures UniqueEmails([x] + users)
  {
    var r := [x] + users;
    forall i, j | 0 <= i < j < |r| ensures r[i].email != r[j].email {
      assert r[j] == users[j - 1];
      if i > 0 {
        assert r[i] == users[i - 1];
      } else {
        assert users[j - 1] in users;
      }
    }
  }

  /** Saving a user that no other stored user shares an e-mail with keeps
      the e-mails unique. */
  lemma {:induction false} SaveKeepsEmailsUnique(users: seq<User>, u: User)
    requires UniqueKeys(users, UserKey) && UniqueEmails(users)
    requires !HeldByOther(users, u.email, u.id)
    ensures UniqueEmails(Upsert(users, u, UserKey))
  {
    if users != [] {
      var rest := users[1..];
      UniqueTail(users);
      assert forall y :: y in rest ==> y in users;
      if users[0].id == u.id {
        assert Upsert(users, u, UserKey) == [u] + rest;
        UniqueCons(u, rest);
      } else {
        SaveKeepsEmailsUnique(rest, u);
        var tail := Upsert(rest, u, UserKey);
        assert Upsert(users, u, UserKey) == [users[0]] + tail;
        assert users[0] in users;
        UniqueCons(users[0], tail);
      }
    }
  }

  /** The corrected createUser keeps the e-mails unique. */
  lemma CheckedCreateKeepsEmailsUnique(users: seq<User>, dto: UserDto, newId: int)
    requires UniqueKeys(users, UserKey) && UniqueEmails(users)
    requires CreateResultChecked(users, dto, newId).Ok?
    ensures UniqueEmails(Upsert(users, CreateResultChecked(users, dto, newId).value, UserKey))
  {
    SaveKeepsEmailsUnique(users, CreateResultChecked(users, dto, newId).value);
  }

  /** What the code does: a second user registers an e-mail the first
      already has, and the table then holds two users with that e-mail;
      the intended check refuses it. */
  lemma DuplicateEmailAccepted()
    ensures var users := [User(1, Some("Ann"), Some("ann@mail"))];
      var dto := UserDto(0, Some("Bob"), Some("ann@mail"));
      && CreateResult(users, dto, 2) == Ok(User(2, Some("Bob"), Some("ann@mail")))
      && !UniqueEmails(Upsert(users, CreateResult(users, dto, 2).value, UserKey))
      && CreateResultChecked(users, dto, 2) == Err(EmailTaken)
  {
    var users := [User(1, Some("Ann"), Some("ann@mail"))];
    var dto := UserDto(0, Some("Bob"), Some("ann@mail"));
    var bob := User(2, Some("Bob"), Some("ann@mail"));
    assert '@' in dto.email.value by {
      assert dto.email.value[3] == '@';
    }
    assert CreateResult(users, dto, 2) == Ok(bob);
    var saved := Upsert(users, bob, UserKey);
    assert saved == users + [bob];
    assert saved[0].email == saved[1].email;
    assert users[0] in users && HeldByOther(users, dto.email, 2);
  }

  class UserService {
    /** The last id handed out by generateUserId. */
    var userId: int
    const db: Database

    /** The database is consistent and no stored user has an id above the counter. */
    ghost predicate Valid()
      reads this, db
    {
      db.Valid() && 0 <= userId && (forall u :: u in db.users ==> u.id <= userId)
    }

    constructor (db: Database)
      requires db.Valid() && db.users == []
      ensures Valid() && this.db == db && userId == 0
    {
      this.db := db;
      userId := 0;
    }

    /** generateUserId: 1, 2, 3, ... in call order. */
    method GenerateUserId() returns (id: int)
      modifies this
      ensures userId == old(userId) + 1 && id == userId
    {
      userId := userId + 1;
      id := userId;
    }

    /** createUser: the id is drawn once the e-mail's form passes and the user
        is appended; on failure nothing changes. */
    method CreateUser(dto: UserDto) returns (r: Result<User>)
      requires Valid()
      modifies this, db
      ensures Valid()
      ensures r == CreateResult(old(db.users), dto, old(userId) + 1)
      ensures r.Ok? ==> userId == old(userId) + 1 && db.users == old(db.users) + [r.value]
      ensures r.Err? ==> userId == old(userId) && db.users == old(db.users)
      ensures db.items == old(db.items) && db.bookings == old(db.bookings) && db.comments == old(db.comments) && db.requests == old(db.requests)
    {
      var user := UserMapper.ToUser(dto);
      var valid := ValidateUser(user);
      if valid.Fail? {
        return Err(valid.error);
      }
      valid := ValidateUserByEmail(db.users, user);
      var id := GenerateUserId();
      user := user.(id := id);
      db.SaveUser(user);
      r := Ok(user);
    }

    /** updateUser: on success the stored user is replaced; on failure nothing changes. */
    method UpdateUser(id: int, dto: UserDto) returns (r: Result<User>)
      requires Valid()
      modifies db
      ensures Valid()
      ensures r == UpdateResult(old(db.users), id, dto)
      ensures r.Ok? ==> db.users == Upsert(old(db.users), r.value, UserKey)
      ensures r.Err? ==> db.users == old(db.users)
      ensures db.items == old(db.items) && db.bookings == old(db.bookings) && db.comments == old(db.comments) && db.requests == old(db.requests)
    {
      var found := GetUserById(db.users, id);
      if found.Err? {
        return Err(found.error);
      }
      var user := UserMapper.ToUser(dto).(id := id);
      if user.email.None? {
        user := user.(email := found.value.email);
      }
      var valid := ValidateUserByEmail(db.users, user);
      valid := ValidateUser(user);
      if valid.Fail? {
        return Err(valid.error);
      }
      if user.name.None? {
        user := user.(name := found.value.name);
      }
      assert user == InMemoryUsers.Patched(found.value, id, dto);
      db.SaveUser(user);
      r := Ok(user);
    }

    /** deleteUser: no existence check; the row with that id, if any, is dropped. */
    method DeleteUser(id: int)
      requires Valid()
      modifies db
      ensures Valid()
      ensures db.users == Filter(old(db.users), KeyIsNot(UserKey, id))
      ensures db.items == old(db.items) && db.bookings == old(db.bookings) && db.comments == old(db.comments) && db.requests == old(db.requests)
    {
      db.DeleteUserById(id);
    }
  }
}
