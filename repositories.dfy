/** The smaller JPA repositories: comments of an item, item requests by
    requester, and items by owner or by request.

    Their `group by id` is a no-op on a table with a unique primary key, and
    an `order by count(distinct id)` sorts on a value that is 1 in every
    group, so it promises no order: those results are given in table order. */
module CommentQueries {
  import opened Domain
  import opened Seqs

  /** The `where` clause of getAllCommentsByItem. */
  function OnItem(itemId: int): Comment -> bool
  {
    (c: Comment) => c.item.id == itemId
  }

  /** getAllCommentsByItem: every comment on the item, highest id first, unpaged. */
  function CommentsByItem(table: seq<Comment>, itemId: int): (r: seq<Comment>)
    ensures forall c :: c in r <==> c in table && c.item.id == itemId
    ensures SortedDesc(r, CommentKey)
    ensures multiset(r) == multiset(Filter(table, OnItem(itemId)))
  {
    var rows := Filter(table, OnItem(itemId));
    SortDescMembers(rows, CommentKey);
    SortDesc(rows, CommentKey)
  }

  /** Each comment appears at most once when comment ids are unique. */
  lemma CommentsByItemUnique(table: seq<Comment>, itemId: int)
    requires UniqueKeys(table, CommentKey)
    ensures UniqueKeys(CommentsByItem(table, itemId), CommentKey)
  {
    SubMultisetUniqueKeys(CommentsByItem(table, itemId), table, CommentKey);
  }
}

/** The server's ItemRequestRepository. */
module RequestQueries {
  import opened Domain
  import opened Seqs

  /** The `where` clause of getAllItemRequestsByRequester. */
  function ByRequester(userId: int): ItemRequest -> bool
  {
    (r: ItemRequest) => r.requester.id == userId
  }

  /** The `where` clause of findAllItemRequests: requests made by anyone else. */
  function ByOthers(userId: int): ItemRequest -> bool
  {
    (r: ItemRequest) => r.requester.id != userId
  }

  /** getAllItemRequestsByRequester: the user's own requests, unpaged. */
  function RequestsByRequester(table: seq<ItemRequest>, userId: int): (r: seq<ItemRequest>)
    ensures forall x :: x in r <==> x in table && x.requester.id == userId
    ensures multiset(r) <= multiset(table)
  {
    Filter(table, ByRequester(userId))
  }

  /** findAllItemRequests: one page of the requests made by other users. */
  function OtherUsersRequests(table: seq<ItemRequest>, userId: int, page: PageRequest): (r: seq<ItemRequest>)
    ensures forall x :: x in r ==> x in table && x.requester.id != userId
    ensures |r| <= page.size
    ensures multiset(r) <= multiset(table)
    ensures PageOf(r, Filter(table, ByOthers(userId)), page)
  {
    var rows := Filter(table, ByOthers(userId));
    WindowSubMultiset(rows, page);
    Window(rows, page)
  }

  /** For one user, the own requests and (on a page as large as the table)
      the others' requests never share a request and together are the whole table. */
  lemma RequestsPartition(table: seq<ItemRequest>, userId: int, page: PageRequest)
    requires page.page == 0 && |table| <= page.size
    ensures forall x :: !(x in RequestsByRequester(table, userId) && x in OtherUsersRequests(table, userId, page))
    ensures multiset(RequestsByRequester(table, userId)) + multiset(OtherUsersRequests(table, userId, page)) == multiset(table)
  {
    WindowWhole(Filter(table, ByOthers(userId)), page);
    FilterSplit(table, ByRequester(userId), ByOthers(userId));
  }

  /** A result page of unique requests lists each request once. */
  lemma OtherUsersRequestsUnique(table: seq<ItemRequest>, userId: int, page: PageRequest)
    requires UniqueKeys(table, RequestKey)
    ensures UniqueKeys(OtherUsersRequests(table, userId, page), RequestKey)
  {
    SubMultisetUniqueKeys(OtherUsersRequests(table, userId, page), table, RequestKey);
  }
}

/** The monolith's JPA ItemRepository. */
module ItemQueries {
  import opened Domain
  import opened Seqs

  /** The `where` clause of getAllItemsByUser. */
  function OwnedBy(userId: int): Item -> bool
  {
    (i: Item) => i.owner.id == userId
  }

  /** The `where` clause of getAllItemsByRequest; an item without a request
      has a null `itemRequest` and never matches. */
  function AnswersRequest(requestId: int): Item -> bool
  {
    (i: Item) => i.request.Some? && i.request.value.id == requestId
  }

  /** getAllItemsByUser: one page of the items the user owns. */
  function ItemsByOwner(table: seq<Item>, userId: int, page: PageRequest): (r: seq<Item>)
    ensures forall i :: i in r ==> i in table && i.owner.id == userId
    ensures |r| <= page.size
    ensures multiset(r) <= multiset(table)
    ensures PageOf(r, Filter(table, OwnedBy(userId)), page)
  {
    var rows := Filter(table, OwnedBy(userId));
    WindowSubMultiset(rows, page);
    Window(rows, page)
  }

  /** A page as large as the table holds every item the user owns. */
  lemma ItemsByOwnerComplete(table: seq<Item>, userId: int, page: PageRequest)
    requires page.page == 0 && |table| <= page.size
    ensures forall i :: i in ItemsByOwner(table, userId, page) <==> i in table && i.owner.id == userId
  {
    WindowWhole(Filter(table, OwnedBy(userId)), page);
  }

  /** getAllItemsByRequest: the items offered in answer to the request, unpaged. */
  function ItemsByRequest(table: seq<Item>, requestId: int): (r: seq<Item>)
    ensures forall i :: i in r <==> i in table && i.request.Some? && i.request.value.id == requestId
    ensures multiset(r) <= multiset(table)
  {
    Filter(table, AnswersRequest(requestId))
  }

  /** Both queries list an item at most once when item ids are unique. */
  lemma ItemQueriesUnique(table: seq<Item>, userId: int, page: PageRequest, requestId: int)
    requires UniqueKeys(table, ItemKey)
    ensures UniqueKeys(ItemsByOwner(table, userId, page), ItemKey)
    ensures UniqueKeys(ItemsByRequest(table, requestId), ItemKey)
  {
    SubMultisetUniqueKeys(ItemsByOwner(table, userId, page), table, ItemKey);
    SubMultisetUniqueKeys(ItemsByRequest(table, requestId), table, ItemKey);
  }
}
