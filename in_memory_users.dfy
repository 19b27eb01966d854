/** The monolith's first UserService, over the in-memory user storage and its
    set of e-mails in use. Ids are counted by the service. */
module InMemoryUsers {
  import opened Base
  import opened Domain
  import opened EmailValidation
  import opened InMemoryStore
  import UserMapper

  /** createUser given the e-mails in use: validateUser, then
      validateUserEmail, then the user under the next id. */
  function CreateResult(emails: set<Option<string>>, dto: UserDto, newId: int): (r: Result<User>)
    ensures r.Ok? <==> dto.email.Some? && '@' in dto.email.value && dto.email !in emails
    ensures ValidateUser(UserMapper.ToUser(dto)).Fail? ==> r == Err(InvalidEmail)
    ensures ValidateUser(UserMapper.ToUser(dto)) == Pass && dto.email in emails ==> r == Err(EmailTaken)
    ensures r.Ok? ==> r.value == User(newId, dto.name, dto.email)
  {
    var user := UserMapper.ToUser(dto);
    match ValidateUser(user)
    case Fail(e) => Err(e)
    case Pass =>
      if user.email in emails then Err(EmailTaken)
      else Ok(user.(id := newId))
  }

  /** The user updateUser stores: the id from the path, and each field of
      the patch that is null taken from the stored user. */
  function Patched(stored: User, id: int, dto: UserDto): (u: User)
    ensures u.id == id
    ensures u.name == (if dto.name.Some? then dto.name else stored.name)
    ensures u.email == (if dto.email.Some? then dto.email else stored.email)
  {
    var user := UserMapper.ToUser(dto).(id := id);
    var user := if user.email.None? then user.(email := stored.email) else user;
    if user.name.None? then user.(name := stored.name) else user
  }

  /** A patch that sends no field leaves a stored user as it is. */
  lemma EmptyPatchKeepsUser(stored: User, dto: UserDto)
    requires dto.name.None? && dto.email.None?
    ensures Patched(stored, stored.id, dto) == stored
  {
  }

  /** updateUser given the stored users and the e-mails in use, on the
      outcome alone: an unknown id, then an e-mail in use by another user,
      then a malformed e-mail. */
  function UpdateResult(users: map<int, User>, emails: set<Option<string>>, id: int, dto: UserDto): (r: Result<User>)
    ensures id !in users ==> r == Err(NotFound(UserEntity))
    ensures id in users ==> (
      var u := Patched(users[id], id, dto);
      && (u.email != users[id].email && u.email in emails ==> r == Err(EmailTaken))
      && (r.Ok? <==> (u.email == users[id].email || u.email !in emails) && ValidateUser(u) == Pass)
      && (r.Ok? ==> r.value == u))
    ensures id in users && Patched(users[id], id, dto).email !in emails - {users[id].email}
            && ValidateUser(Patched(users[id], id, dto)).Fail?
      ==> r == Err(InvalidEmail)
  {
    if id !in users then Err(NotFound(UserEntity))
    else
      var u := Patched(users[id], id, dto);
      if u.email in emails - {users[id].email} then Err(EmailTaken)
      else if ValidateUser(u).Fail? then Err(InvalidEmail)
      else Ok(u)
  }

  /** An update that keeps the e-mail never conflicts with the user's own e-mail. */
  lemma KeepingEmailNeverConflicts(users: map<int, User>, emails: set<Option<string>>, id: int, dto: UserDto)
    requires id in users && dto.email.None?
    requires ValidateUser(users[id]) == Pass
    ensures UpdateResult(users, emails, id, dto) == Ok(Patched(users[id], id, dto))
  {
    var u := Patched(users[id], id, dto);
    assert u.email == users[id].email;
    assert ValidateUser(u) == ValidateUser(users[id]);
  }

  class UserService {
    const userStorage: UserStorage
    /** The last id handed out by generateUserId. */
    var userId: int

    /** The storage is keyed by id and no stored user has an id above the counter. */
    ghost predicate Valid()
      reads this, userStorage
    {
      userStorage.Valid() && 0 <= userId
      && (forall k :: k in userStorage.userMap ==> k <= userId)
    }

    constructor (userStorage: UserStorage)
      requires userStorage.Valid() && userStorage.userMap == map[]
      ensures Valid() && this.userStorage == userStorage && userId == 0
    {
      this.userStorage := userStorage;
      userId := 0;
    }

    /** generateUserId: 1, 2, 3, ... in call order. */
    method GenerateUserId() returns (id: int)
      modifies this
      ensures userId == old(userId) + 1 && id == userId
    {
      userId := userId + 1;
      id := userId;
    }

    /** createUser: validateUserEmail records the e-mail only once it is
        known to be new; the id is drawn after both checks; on failure
        nothing changes. An exact e-mail set stays exact. */
    method CreateUser(dto: UserDto) returns (r: Result<User>)
      requires Valid()
      modifies this, userStorage
      ensures Valid()
      ensures r == CreateResult(old(userStorage.setEmail), dto, old(userId) + 1)
      ensures r.Ok? ==> (userId == old(userId) + 1 && r.value.id !in old(userStorage.userMap)
                         && userStorage.userMap == old(userStorage.userMap)[r.value.id := r.value]
                         && userStorage.setEmail == old(userStorage.setEmail) + {r.value.email})
      ensures r.Err? ==> (userId == old(userId) && userStorage.userMap == old(userStorage.userMap)
                          && userStorage.setEmail == old(userStorage.setEmail))
      ensures old(EmailsInUse(userStorage.userMap, userStorage.setEmail)) ==> EmailsInUse(userStorage.userMap, userStorage.setEmail)
    {
      var user := UserMapper.ToUser(dto);
      var valid := ValidateUser(user);
      if valid.Fail? {
        return Err(valid.error);
      }
      if user.email in userStorage.setEmail {
        return Err(EmailTaken);
      }
      ghost var users, emails := userStorage.userMap, userStorage.setEmail;
      userStorage.setEmail := userStorage.setEmail + {user.email};
      var id := GenerateUserId();
      user := user.(id := id);
      user := userStorage.CreateUser(user);
      if EmailsInUse(users, emails) {
        AddUserKeepsEmails(users, emails, user);
      }
      r := Ok(user);
    }

    /** updateUser as written: the user's old e-mail is dropped from the set
        before the new one is checked, so a failed check leaves the set
        without it, and a malformed new e-mail is recorded before it is
        rejected. Only a successful update keeps an exact set exact. */
    method UpdateUser(id: int, dto: UserDto) returns (r: Result<User>)
      requires Valid()
      modifies userStorage
      ensures Valid()
      ensures r == UpdateResult(old(userStorage.userMap), old(userStorage.setEmail), id, dto)
      ensures r.Err? ==> userStorage.userMap == old(userStorage.userMap)
      ensures id !in old(userStorage.userMap) ==> userStorage.setEmail == old(userStorage.setEmail)
      ensures id in old(userStorage.userMap) ==> (
        var stored := old(userStorage.userMap)[id];
        var u := Patched(stored, id, dto);
        var kept := old(userStorage.setEmail) - {stored.email};
        && (r == Err(EmailTaken) ==> userStorage.setEmail == kept)
        && (r == Err(InvalidEmail) ==> userStorage.setEmail == kept + {u.email})
        && (r.Ok? ==> userStorage.userMap == old(userStorage.userMap)[id := u] && userStorage.setEmail == kept + {u.email}))
      ensures r.Ok? && old(EmailsInUse(userStorage.userMap, userStorage.setEmail)) ==> EmailsInUse(userStorage.userMap, userStorage.setEmail)
    {
      var user := UserMapper.ToUser(dto).(id := id);
      if id !in userStorage.userMap {
        return Err(NotFound(UserEntity));
      }
      var stored := userStorage.userMap[id];
      if user.email.None? {
        user := user.(email := stored.email);
      }
      ghost var users, emails := userStorage.userMap, userStorage.setEmail;
      userStorage.setEmail := userStorage.setEmail - {stored.email};
      if user.email in userStorage.setEmail {
        return Err(EmailTaken);
      }
      userStorage.setEmail := userStorage.setEmail + {user.email};
      var valid := ValidateUser(user);
      if valid.Fail? {
        return Err(valid.error);
      }
      if user.name.None? {
        user := user.(name := stored.name);
      }
      assert user == Patched(stored, id, dto);
      user := userStorage.UpdateUser(user);
      if EmailsInUse(users, emails) {
        ReplaceUserKeepsEmails(users, emails, user);
      }
      r := Ok(user);
    }

    /** updateUser with both e-mail checks made before the set is touched:
        the same outcome as the code, but a failed update changes nothing, so
        the e-mail set stays exact on every path. */
    method UpdateUserChecked(id: int, dto: UserDto) returns (r: Result<User>)
      requires Valid()
      modifies userStorage
      ensures Valid()
      ensures r == UpdateResult(old(userStorage.userMap), old(userStorage.setEmail), id, dto)
      ensures r.Err? ==> userStorage.userMap == old(userStorage.userMap) && userStorage.setEmail == old(userStorage.setEmail)
      ensures r.Ok? ==> (userStorage.userMap == old(userStorage.userMap)[id := r.value]
                         && userStorage.setEmail == old(userStorage.setEmail) - {old(userStorage.userMap)[id].email} + {r.value.email})
      ensures old(EmailsInUse(userStorage.userMap, userStorage.setEmail)) ==> EmailsInUse(userStorage.userMap, userStorage.setEmail)
    {
      if id !in userStorage.userMap {
        return Err(NotFound(UserEntity));
      }
      var stored := userStorage.userMap[id];
      var user := Patched(stored, id, dto);
      if user.email in userStorage.setEmail - {stored.email} {
        return Err(EmailTaken);
      }
      var valid := ValidateUser(user);
      if valid.Fail? {
        return Err(valid.error);
      }
      ghost var users, emails := userStorage.userMap, userStorage.setEmail;
      userStorage.setEmail := userStorage.setEmail - {stored.email};
      user := userStorage.UpdateUser(user);
      if EmailsInUse(users, emails) {
        ReplaceUserKeepsEmails(users, emails, user);
      }
      r := Ok(user);
    }

    /** getUserById: NOT_FOUND for an unknown id. */
    function GetUserById(id: int): (r: Result<User>)
      reads this, userStorage
      requires Valid()
      ensures r.Err? <==> id !in userStorage.userMap
      ensures r.Err? ==> r.error == NotFound(UserEntity)
      ensures r.Ok? ==> r.value.id == id && r.value == userStorage.userMap[id]
    {
      if id in userStorage.userMap then Ok(userStorage.userMap[id]) else Err(NotFound(UserEntity))
    }

    /** deleteUser: NOT_FOUND for an unknown id; otherwise the user and its
        e-mail are dropped, which keeps an exact e-mail set exact. */
    method DeleteUser(id: int) returns (o: Outcome)
      requires Valid()
      modifies userStorage
      ensures Valid()
      ensures id !in old(userStorage.userMap) ==> (o == Fail(NotFound(UserEntity)) && userStorage.userMap == old(userStorage.userMap)
                                                  && userStorage.setEmail == old(userStorage.setEmail))
      ensures id in old(userStorage.userMap) ==> (o == Pass && userStorage.userMap == old(userStorage.userMap) - {id}
                                                 && userStorage.setEmail == old(userStorage.setEmail) - {old(userStorage.userMap)[id].email})
      ensures old(EmailsInUse(userStorage.userMap, userStorage.setEmail)) ==> EmailsInUse(userStorage.userMap, userStorage.setEmail)
    {
      if id !in userStorage.userMap {
        return Fail(NotFound(UserEntity));
      }
      ghost var users, emails := userStorage.userMap, userStorage.setEmail;
      o := userStorage.DeleteUser(id);
      if EmailsInUse(users, emails) {
        RemoveUserKeepsEmails(users, emails, id);
      }
    }
  }

  /** Ann's and Bob's e-mails: well-formed and distinct. */
  const AnnMail: Option<string> := Some("ann@mail")
  const BobMail: Option<string> := Some("bob@mail")

  /** A fresh service on which Ann registered as user 1 and Bob as user 2. */
  method TwoRegisteredUsers() returns (storage: UserStorage, service: UserService)
    ensures fresh(storage) && fresh(service)
    ensures service.Valid() && service.userStorage == storage && service.userId == 2
    ensures storage.userMap == map[1 := User(1, Some("Ann"), AnnMail), 2 := User(2, Some("Bob"), BobMail)]
    ensures storage.setEmail == {AnnMail, BobMail}
  {
    assert '@' in AnnMail.value && '@' in BobMail.value && AnnMail != BobMail by {
      assert AnnMail.value[3] == '@' && BobMail.value[3] == '@' && AnnMail.value[0] != BobMail.value[0];
    }
    storage := new UserStorage();
    service := new UserService(storage);
    var a := service.CreateUser(UserDto(0, Some("Ann"), AnnMail));
    assert a == Ok(User(1, Some("Ann"), AnnMail));
    var b := service.CreateUser(UserDto(0, Some("Bob"), BobMail));
    assert b == Ok(User(2, Some("Bob"), BobMail));
  }

  /** What the code does: two users are created, the first fails to take the
      second's e-mail, and a third user then registers the first user's
      e-mail, which the failed update dropped from the set. Two stored users
      end up sharing an e-mail. */
  method DuplicateEmailAfterFailedUpdate() returns (first: User, third: User, users: map<int, User>)
    ensures first.id in users && users[first.id] == first
    ensures third.id in users && users[third.id] == third
    ensures first.id != third.id && first.email == third.email
    ensures !UniqueEmailsIn(users)
  {
    var storage, service := TwoRegisteredUsers();
    var failed := service.UpdateUser(1, UserDto(0, None, BobMail));
    assert failed == Err(EmailTaken);
    assert storage.setEmail == {BobMail};
    assert AnnMail != BobMail by {
      assert AnnMail.value[0] != BobMail.value[0];
    }
    assert '@' in AnnMail.value by {
      assert AnnMail.value[3] == '@';
    }
    var c := service.CreateUser(UserDto(0, Some("Cat"), AnnMail));
    assert c == Ok(User(3, Some("Cat"), AnnMail));
    first, third, users := User(1, Some("Ann"), AnnMail), c.value, storage.userMap;
    assert users[1] == first && users[3] == third;
  }

  /** The same calls with the corrected update: the third registration is
      refused, as the first user still holds that e-mail. */
  method DuplicateEmailRefusedWhenChecked() returns (r: Result<User>)
    ensures r == Err(EmailTaken)
  {
    var storage, service := TwoRegisteredUsers();
    var failed := service.UpdateUserChecked(1, UserDto(0, None, BobMail));
    r := service.CreateUser(UserDto(0, Some("Cat"), AnnMail));
  }
}
