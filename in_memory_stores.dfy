/** The monolith's first, in-memory storage: hash maps keyed by id, and the
    set of e-mails in use that the user service keeps beside them. A hash
    map's iteration order is not specified, so every listing takes it as an
    `order` that enumerates the map's keys once each. */
module InMemoryStore {
  import opened Base
  import opened Domain
  import opened Seqs
  import opened ItemQueries

  class ItemStorage {
    /** itemMap: every item under its own id. */
    var itemMap: map<int, Item>

    ghost predicate Valid()
      reads this
    {
      forall k :: k in itemMap ==> itemMap[k].id == k
    }

    constructor ()
      ensures Valid() && itemMap == map[]
    {
      itemMap := map[];
    }

    /** createItem: puts the item under its id and returns it. */
    method CreateItem(item: Item) returns (r: Item)
      requires Valid()
      modifies this
      ensures Valid()
      ensures r == item && itemMap == old(itemMap)[item.id := item]
      ensures GetItemById(item.id) == Some(item)
    {
      itemMap := itemMap[item.id := item];
      r := item;
    }

    /** updateItem: the same put as createItem, replacing any item with that id. */
    method UpdateItem(item: Item) returns (r: Item)
      requires Valid()
      modifies this
      ensures Valid()
      ensures r == item && itemMap == old(itemMap)[item.id := item]
      ensures GetItemById(item.id) == Some(item)
    {
      itemMap := itemMap[item.id := item];
      r := item;
    }

    /** searchItems: every stored item once, in the map's iteration order. */
    function SearchItems(order: seq<int>): (r: seq<Item>)
      reads this
      requires Valid() && IterationOrder(itemMap, order)
      ensures forall k :: k in itemMap ==> itemMap[k] in r
      ensures forall i :: i in r ==> i.id in itemMap && itemMap[i.id] == i
      ensures UniqueKeys(r, ItemKey)
    {
      ValuesWhere(itemMap, order, ItemKey, AnyRow());
      FilterAll(ValuesIn(itemMap, order), AnyRow());
      ValuesIn(itemMap, order)
    }

    /** getItemById: the item stored under `itemId`, or null; a found item carries that id. */
    function GetItemById(itemId: int): (r: Option<Item>)
      reads this
      requires Valid()
      ensures r.Some? <==> itemId in itemMap
      ensures r.Some? ==> r.value == itemMap[itemId] && r.value.id == itemId
    {
      if itemId in itemMap then Some(itemMap[itemId]) else None
    }

    /** getAllItemsByUser: the stored items whose owner has id `userId`, each
        once. Comparing an owner's `int` id with a null `Integer` unboxes it,
        so a null id throws as soon as the map holds an item. */
    function GetAllItemsByUser(userId: Option<int>, order: seq<int>): (r: Result<seq<Item>>)
      reads this
      requires Valid() && IterationOrder(itemMap, order)
      ensures r.Err? ==> userId.None? && r.error == NullDereference
      ensures forall k :: k in itemMap && userId.None? ==> r.Err?
      ensures r.Ok? && userId.None? ==> r.value == []
      ensures r.Ok? && userId.Some? ==> forall k :: k in itemMap ==> (itemMap[k] in r.value <==> itemMap[k].owner.id == userId.value)
      ensures r.Ok? ==> forall i :: i in r.value ==> i.id in itemMap && itemMap[i.id] == i
      ensures r.Ok? ==> UniqueKeys(r.value, ItemKey)
    {
      if userId.None? then
        if order == [] then Ok([]) else Err(NullDereference)
      else
        ValuesWhere(itemMap, order, ItemKey, OwnedBy(userId.value));
        Ok(Filter(ValuesIn(itemMap, order), OwnedBy(userId.value)))
    }

    /** deleteItem: removes the entry, if any. */
    method DeleteItem(itemId: int)
      requires Valid()
      modifies this
      ensures Valid()
      ensures itemMap == old(itemMap) - {itemId}
      ensures GetItemById(itemId).None?
    {
      itemMap := itemMap - {itemId};
    }
  }

  class UserStorage {
    /** userMap: every user under its own id. */
    var userMap: map<int, User>
    /** setEmail: the e-mails in use, kept by the user service. */
    var setEmail: set<Option<string>>

    ghost predicate Valid()
      reads this
    {
      forall k :: k in userMap ==> userMap[k].id == k
    }

    constructor ()
      ensures Valid() && userMap == map[] && setEmail == {}
      ensures EmailsInUse(userMap, setEmail)
    {
      userMap := map[];
      setEmail := {};
    }

    /** createUser: puts the user under its id and records its e-mail. */
    method CreateUser(user: User) returns (r: User)
      requires Valid()
      modifies this
      ensures Valid()
      ensures r == user && userMap == old(userMap)[user.id := user]
      ensures setEmail == old(setEmail) + {user.email}
    {
      userMap := userMap[user.id := user];
      setEmail := setEmail + {user.email};
      r := user;
    }

    /** updateUser: puts the user under its id; removing and re-adding its
        e-mail leaves that e-mail in the set and the other e-mails as they were. */
    method UpdateUser(user: User) returns (r: User)
      requires Valid()
      modifies this
      ensures Valid()
      ensures r == user && userMap == old(userMap)[user.id := user]
      ensures setEmail == old(setEmail) + {user.email}
    {
      userMap := userMap[user.id := user];
      setEmail := setEmail - {user.email};
      setEmail := setEmail + {user.email};
      r := user;
    }

    /** getUserById: the user stored under the id, or null; `HashMap.get(null)` is null. */
    function GetUserById(userId: Option<int>): (r: Option<User>)
      reads this
      requires Valid()
      ensures r.Some? <==> userId.Some? && userId.value in userMap
      ensures r.Some? ==> r.value == userMap[userId.value] && r.value.id == userId.value
    {
      if userId.Some? && userId.value in userMap then Some(userMap[userId.value]) else None
    }

    /** getAllUsers: every stored user once, in the map's iteration order. */
    function GetAllUsers(order: seq<int>): (r: seq<User>)
      reads this
      requires Valid() && IterationOrder(userMap, order)
      ensures forall k :: k in userMap ==> userMap[k] in r
      ensures forall u :: u in r ==> u.id in userMap && userMap[u.id] == u
      ensures UniqueKeys(r, UserKey)
    {
      ValuesWhere(userMap, order, UserKey, AnyRow());
      FilterAll(ValuesIn(userMap, order), AnyRow());
      ValuesIn(userMap, order)
    }

    /** deleteUser: drops the user's e-mail from the set and the user from the
        map; an unknown id dereferences null and changes nothing. */
    method DeleteUser(userId: int) returns (o: Outcome)
      requires Valid()
      modifies this
      ensures Valid()
      ensures userId !in old(userMap) ==> o == Fail(NullDereference) && userMap == old(userMap) && setEmail == old(setEmail)
      ensures userId in old(userMap) ==> (o == Pass && userMap == old(userMap) - {userId}
                                          && setEmail == old(setEmail) - {old(userMap)[userId].email})
    {
      if userId !in userMap {
        return Fail(NullDereference);
      }
      var user := userMap[userId];
      setEmail := setEmail - {user.email};
      userMap := userMap - {userId};
      o := Pass;
    }
  }

  // ---------------------------------------------------------------- the e-mail set

  /** Some stored user has e-mail `e`. */
  ghost predicate Registered(users: map<int, User>, e: Option<string>)
  {
    exists k :: k in users && users[k].email == e
  }

  /** No two stored users share an e-mail. */
  ghost predicate UniqueEmailsIn(users: map<int, User>)
  {
    forall a, b :: a in users && b in users && a != b ==> users[a].email != users[b].email
  }

  /** What the e-mail set is for: it holds exactly the stored users' e-mails,
      and those are unique, so "already in the set" means "taken by another user". */
  ghost predicate EmailsInUse(users: map<int, User>, emails: set<Option<string>>)
  {
    (forall k :: k in users ==> users[k].email in emails)
    && (forall e :: e in emails ==> Registered(users, e))
    && UniqueEmailsIn(users)
  }

  /** Adding a user under a new id with an e-mail not yet in use, and its
      e-mail to the set, keeps the set exact. */
  lemma AddUserKeepsEmails(users: map<int, User>, emails: set<Option<string>>, u: User)
    requires EmailsInUse(users, emails)
    requires u.id !in users && u.email !in emails
    ensures EmailsInUse(users[u.id := u], emails + {u.email})
  {
    var users', emails' := users[u.id := u], emails + {u.email};
    forall e | e in emails' ensures Registered(users', e) {
      if e == u.email {
        var k := u.id;
        assert k in users' && users'[k].email == e;
      } else {
        var k :| k in users && users[k].email == e;
        assert k in users' && users'[k].email == e;
      }
    }
  }

  /** Replacing a stored user by one whose e-mail is its own or not yet in
      use, and swapping the e-mails in the set, keeps the set exact. */
  lemma ReplaceUserKeepsEmails(users: map<int, User>, emails: set<Option<string>>, u: User)
    requires EmailsInUse(users, emails)
    requires u.id in users
    requires u.email == users[u.id].email || u.email !in emails
    ensures EmailsInUse(users[u.id := u], emails - {users[u.id].email} + {u.email})
  {
    var users', emails' := users[u.id := u], emails - {users[u.id].email} + {u.email};
    forall e | e in emails' ensures Registered(users', e) {
      if e == u.email {
        var k := u.id;
        assert k in users' && users'[k].email == e;
      } else {
        var k :| k in users && users[k].email == e;
        assert k != u.id;
        assert k in users' && users'[k].email == e;
      }
    }
    forall k | k in users' ensures users'[k].email in emails' {
      if k != u.id {
        assert users[k].email != users[u.id].email;
      }
    }
  }

  /** Removing a stored user and its e-mail keeps the set exact. */
  lemma RemoveUserKeepsEmails(users: map<int, User>, emails: set<Option<string>>, id: int)
    requires EmailsInUse(users, emails)
    requires id in users
    ensures EmailsInUse(users - {id}, emails - {users[id].email})
  {
    var users', emails' := users - {id}, emails - {users[id].email};
    forall e | e in emails' ensures Registered(users', e) {
      var k :| k in users && users[k].email == e;
      assert k != id;
      assert k in users' && users'[k].email == e;
    }
    forall k | k in users' ensures users'[k].email in emails' {
      assert users[k].email != users[id].email;
    }
  }

  /** While the set is exact, an e-mail is in it exactly when a stored user has it. */
  lemma InSetMeansTaken(users: map<int, User>, emails: set<Option<string>>, e: Option<string>)
    requires EmailsInUse(users, emails)
    ensures e in emails <==> Registered(users, e)
  {
    if Registered(users, e) {
      var k :| k in users && users[k].email == e;
    }
  }
}
