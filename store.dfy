/** The JPA repositories as one mutable database of tables.

    Each table is a `seq` of rows with a unique primary key; `save` is an
    upsert by id and `findById` is Seqs.Find. Services share one Database
    object, as the Spring beans share one persistence context. */
module Store {
  import opened Domain
  import opened Seqs

  class Database {
    var users: seq<User>
    var items: seq<Item>
    var bookings: seq<Booking>
    var comments: seq<Comment>
    var requests: seq<ItemRequest>

    /** Every table keeps its primary key unique. */
    ghost predicate Valid()
      reads this
    {
      UniqueKeys(users, UserKey) && UniqueKeys(items, ItemKey) && UniqueKeys(bookings, BookingKey)
      && UniqueKeys(comments, CommentKey) && UniqueKeys(requests, RequestKey)
    }

    constructor ()
      ensures Valid()
      ensures users == [] && items == [] && bookings == [] && comments == [] && requests == []
    {
      users, items, bookings, comments, requests := [], [], [], [], [];
    }

    /** UserRepository.save. */
    method SaveUser(u: User)
      requires Valid()
      modifies this
      ensures Valid()
      ensures users == Upsert(old(users), u, UserKey)
      ensures items == old(items) && bookings == old(bookings) && comments == old(comments) && requests == old(requests)
    {
      UpsertUnique(users, u, UserKey);
      users := Upsert(users, u, UserKey);
    }

    /** ItemRepository.save. */
    method SaveItem(i: Item)
      requires Valid()
      modifies this
      ensures Valid()
      ensures items == Upsert(old(items), i, ItemKey)
      ensures users == old(users) && bookings == old(bookings) && comments == old(comments) && requests == old(requests)
    {
      UpsertUnique(items, i, ItemKey);
      items := Upsert(items, i, ItemKey);
    }

    /** BookingRepository.save. */
    method SaveBooking(b: Booking)
      requires Valid()
      modifies this
      ensures Valid()
      ensures bookings == Upsert(old(bookings), b, BookingKey)
      ensures users == old(users) && items == old(items) && comments == old(comments) && requests == old(requests)
    {
      UpsertUnique(bookings, b, BookingKey);
      bookings := Upsert(bookings, b, BookingKey);
    }

    /** CommentRepository.save. */
    method SaveComment(c: Comment)
      requires Valid()
      modifies this
      ensures Valid()
      ensures comments == Upsert(old(comments), c, CommentKey)
      ensures users == old(users) && items == old(items) && bookings == old(bookings) && requests == old(requests)
    {
      UpsertUnique(comments, c, CommentKey);
      comments := Upsert(comments, c, CommentKey);
    }

    /** ItemRequestRepository.save. */
    method SaveRequest(r: ItemRequest)
      requires Valid()
      modifies this
      ensures Valid()
      ensures requests == Upsert(old(requests), r, RequestKey)
      ensures users == old(users) && items == old(items) && bookings == old(bookings) && comments == old(comments)
    {
      UpsertUnique(requests, r, RequestKey);
      requests := Upsert(requests, r, RequestKey);
    }

    /** UserRepository.deleteById: drops the row with that id, if any. */
    method DeleteUserById(id: int)
      requires Valid()
      modifies this
      ensures Valid()
      ensures users == Filter(old(users), KeyIsNot(UserKey, id))
      ensures items == old(items) && bookings == old(bookings) && comments == old(comments) && requests == old(requests)
    {
      SubMultisetUniqueKeys(Filter(users, KeyIsNot(UserKey, id)), users, UserKey);
      users := Filter(users, KeyIsNot(UserKey, id));
    }

    /** ItemRepository.deleteById: drops the row with that id, if any. */
    method DeleteItemById(id: int)
      requires Valid()
      modifies this
      ensures Valid()
      ensures items == Filter(old(items), KeyIsNot(ItemKey, id))
      ensures users == old(users) && bookings == old(bookings) && comments == old(comments) && requests == old(requests)
    {
      SubMultisetUniqueKeys(Filter(items, KeyIsNot(ItemKey, id)), items, ItemKey);
      items := Filter(items, KeyIsNot(ItemKey, id));
    }
  }

  /** The rows `deleteById(id)` keeps. */
  function KeyIsNot<T>(key: T -> int, id: int): T -> bool
  {
    (x: T) => key(x) != id
  }

  /** After deleteById, findById of that id finds nothing and every other id finds what it found before. */
  lemma {:induction false} DeleteFind<T(!new)>(s: seq<T>, key: T -> int, id: int, other: int)
    ensures Find(Filter(s, KeyIsNot(key, id)), key, id).None?
    ensures other != id ==> Find(Filter(s, KeyIsNot(key, id)), key, other) == Find(s, key, other)
  {
    var r := Filter(s, KeyIsNot(key, id));
    assert forall x :: x in r ==> KeyIsNot(key, id)(x);
    if s != [] && other != id {
      FilterCons(s, KeyIsNot(key, id));
      DeleteFind(s[1..], key, id, other);
      var rest := Filter(s[1..], KeyIsNot(key, id));
      if key(s[0]) != id {
        assert r == [s[0]] + rest;
        assert r[0] == s[0] && r[1..] == rest;
      } else {
        assert r == rest;
      }
    }
  }
}
