/** The monolith's ItemRequestService over the JPA repositories: users ask
    for items they need, and other users' items may answer a request. */
module ItemRequests {
  import opened Base
  import opened Domain
  import opened Seqs
  import opened Store
  import opened RequestQueries
  import opened ItemQueries
  import ItemMapper
  import ItemRequestMapper

  /** getUser: `findById(...).orElseThrow` with a plain RuntimeException. */
  function GetUser(users: seq<User>, userId: int): (r: Result<User>)
    ensures r.Err? <==> Find(users, UserKey, userId).None?
    ensures r.Err? ==> r.error == Missing(UserEntity)
    ensures r.Ok? ==> r.value in users && r.value.id == userId
  {
    match Find(users, UserKey, userId)
    case None => Err(Missing(UserEntity))
    case Some(u) => Ok(u)
  }

  /** validateItemRequest: a request needs a description, else BAD_REQUEST. */
  function ValidateItemRequest(dto: ItemRequestDtoIn): (o: Outcome)
    ensures o == Pass <==> dto.description.Some?
    ensures o.Fail? ==> o.error == DescriptionMissing && StatusOf(o.error) == HttpBadRequest
  {
    if dto.description.None? then Fail(DescriptionMissing) else Pass
  }

  /** createItemRequest: the requester, then the description, then the
      request under the next id, stamped with the current time. */
  function CreateResult(users: seq<User>, userId: int, dto: ItemRequestDtoIn, newId: int, now: Time): (r: Result<ItemRequest>)
    ensures r.Ok? <==> Find(users, UserKey, userId).Some? && dto.description.Some?
    ensures Find(users, UserKey, userId).None? ==> r == Err(Missing(UserEntity))
    ensures Find(users, UserKey, userId).Some? && dto.description.None? ==> r == Err(DescriptionMissing)
    ensures r.Ok? ==> (r.value.requester in users && r.value.requester.id == userId
                       && ItemRequestMapper.ToItemRequestDto(r.value) == ItemRequestDto(newId, dto.description, r.value.requester, now))
  {
    match GetUser(users, userId)
    case Err(e) => Err(e)
    case Ok(user) =>
      match ValidateItemRequest(dto)
      case Fail(e) => Err(e)
      case Pass => Ok(ItemRequestMapper.ToItemRequest(newId, user, dto, now))
  }

  /** getItemRequestById: the caller, then the request (NOT_FOUND), shown
      with the items that answer it; the item transfer objects carry no request id. */
  function GetItemRequestById(users: seq<User>, requests: seq<ItemRequest>, items: seq<Item>, requestId: int, userId: int): (r: Result<ItemRequestByIdDto>)
    ensures Find(users, UserKey, userId).None? ==> r == Err(Missing(UserEntity))
    ensures Find(users, UserKey, userId).Some? ==> (r.Err? <==> Find(requests, RequestKey, requestId).None?)
    ensures r.Err? && Find(users, UserKey, userId).Some? ==> r.error == NotFound(RequestEntity)
    ensures r.Ok? ==> (
      var stored := Find(requests, RequestKey, requestId).value;
      && r.value.id == requestId && r.value.description == stored.description && r.value.created == stored.created
      && |r.value.items| == |ItemsByRequest(items, requestId)|
      && forall k :: 0 <= k < |r.value.items| ==>
           r.value.items[k].id == ItemsByRequest(items, requestId)[k].id && r.value.items[k].requestId.None?)
  {
    match GetUser(users, userId)
    case Err(e) => Err(e)
    case Ok(_) =>
      match Find(requests, RequestKey, requestId)
      case None => Err(NotFound(RequestEntity))
      case Some(request) =>
        Ok(ItemRequestMapper.ToItemRequestByIdDto(request, ItemMapper.ToItemDtoCollection(ItemsByRequest(items, requestId))))
  }

  /** `getItemRequestById(request.getId(), userId)` over listed, stored
      requests for a stored caller; it never throws. */
  function ViewsOf(users: seq<User>, requests: seq<ItemRequest>, items: seq<Item>, listed: seq<ItemRequest>, userId: int): (r: seq<ItemRequestByIdDto>)
    requires Find(users, UserKey, userId).Some?
    requires forall x :: x in listed ==> x in requests
    ensures |r| == |listed|
    ensures forall k :: 0 <= k < |listed| ==> GetItemRequestById(users, requests, items, listed[k].id, userId) == Ok(r[k])
  {
    assert forall k :: 0 <= k < |listed| ==> listed[k] in requests && RequestKey(listed[k]) == listed[k].id;
    seq(|listed|, k requires 0 <= k < |listed| =>
      assert listed[k] in listed;
      GetItemRequestById(users, requests, items, listed[k].id, userId).value)
  }


  /** getAllItemRequestsByRequester: the caller's own requests, each shown as
      getItemRequestById shows it. */
  function GetAllItemRequestsByRequester(users: seq<User>, requests: seq<ItemRequest>, items: seq<Item>, userId: int): (r: Result<seq<ItemRequestByIdDto>>)
    ensures r.Err? <==> Find(users, UserKey, userId).None?
    ensures r.Err? ==> r.error == Missing(UserEntity)
    ensures r.Ok? ==> (
      var own := RequestsByRequester(requests, userId);
      && |r.value| == |own|
      && forall k :: 0 <= k < |own| ==> (own[k].requester.id == userId
           && GetItemRequestById(users, requests, items, own[k].id, userId) == Ok(r.value[k])))
  {
    match GetUser(users, userId)
    case Err(e) => Err(e)
    case Ok(_) =>
      var own := RequestsByRequester(requests, userId);
      assert forall k :: 0 <= k < |own| ==> own[k] in own;
      Ok(ViewsOf(users, requests, items, own, userId))
  }

  /** Every request on a page of the others' requests is stored and made by another user. */
  lemma OthersListed(requests: seq<ItemRequest>, userId: int, page: PageRequest)
    ensures var others := OtherUsersRequests(requests, userId, page);
      forall k :: 0 <= k < |others| ==> others[k] in requests && others[k].requester.id != userId
  {
    var others := OtherUsersRequests(requests, userId, page);
    assert forall k :: 0 <= k < |others| ==> others[k] in others;
  }

  /** getAllItemRequestsByPage: one page of the other users' requests, each
      shown as getItemRequestById shows it. */
  function GetAllItemRequestsByPage(users: seq<User>, requests: seq<ItemRequest>, items: seq<Item>, userId: int, page: PageRequest): (r: Result<seq<ItemRequestByIdDto>>)
    ensures r.Err? <==> Find(users, UserKey, userId).None?
    ensures r.Err? ==> r.error == Missing(UserEntity)
    ensures r.Ok? ==> (
      var others := OtherUsersRequests(requests, userId, page);
      && |r.value| == |others| && |r.value| <= page.size
      && forall k :: 0 <= k < |others| ==> (others[k].requester.id != userId
           && GetItemRequestById(users, requests, items, others[k].id, userId) == Ok(r.value[k])))
  {
    match GetUser(users, userId)
    case Err(e) => Err(e)
    case Ok(_) =>
      var others := OtherUsersRequests(requests, userId, page);
      OthersListed(requests, userId, page);
      Ok(ViewsOf(users, requests, items, others, userId))
  }

  /** A request just created under a fresh id is found again with the
      description and time it was created with. */
  lemma CreatedRequestIsFound(users: seq<User>, requests: seq<ItemRequest>, items: seq<Item>, userId: int, dto: ItemRequestDtoIn, newId: int, now: Time)
    requires CreateResult(users, userId, dto, newId, now).Ok?
    requires forall x :: x in requests ==> x.id != newId
    ensures var saved := Upsert(requests, CreateResult(users, userId, dto, newId, now).value, RequestKey);
      var r := GetItemRequestById(users, saved, items, newId, userId);
      r.Ok? && r.value.description == dto.description && r.value.created == now
  {
    var request := CreateResult(users, userId, dto, newId, now).value;
    UpsertFind(requests, request, RequestKey, newId);
  }

  class ItemRequestService {
    /** The last id handed out by generateItemRequestId. */
    var itemRequestId: int
    const db: Database

    /** The database is consistent and no stored request has an id above the counter. */
    ghost predicate Valid()
      reads this, db
    {
      db.Valid() && 0 <= itemRequestId && (forall x :: x in db.requests ==> x.id <= itemRequestId)
    }

    constructor (db: Database)
      requires db.Valid() && db.requests == []
      ensures Valid() && this.db == db && itemRequestId == 0
    {
      this.db := db;
      itemRequestId := 0;
    }

    /** generateItemRequestId: 1, 2, 3, ... in call order. */
    method GenerateItemRequestId() returns (id: int)
      modifies this
      ensures itemRequestId == old(itemRequestId) + 1 && id == itemRequestId
    {
      itemRequestId := itemRequestId + 1;
      id := itemRequestId;
    }

    /** createItemRequest: on success exactly one request is appended, and
        it is found again by id; on failure nothing changes. */
    method CreateItemRequest(userId: int, dto: ItemRequestDtoIn, now: Time) returns (r: Result<ItemRequest>)
      requires Valid()
      modifies this, db
      ensures Valid()
      ensures r == CreateResult(old(db.users), userId, dto, old(itemRequestId) + 1, now)
      ensures r.Ok? ==> itemRequestId == old(itemRequestId) + 1 && db.requests == old(db.requests) + [r.value]
      ensures r.Ok? ==> GetItemRequestById(db.users, db.requests, db.items, r.value.id, userId).Ok?
      ensures r.Err? ==> itemRequestId == old(itemRequestId) && db.requests == old(db.requests)
      ensures db.users == old(db.users) && db.items == old(db.items) && db.bookings == old(db.bookings) && db.comments == old(db.comments)
    {
      var user := GetUser(db.users, userId);
      if user.Err? {
        return Err(user.error);
      }
      var valid := ValidateItemRequest(dto);
      if valid.Fail? {
        return Err(valid.error);
      }
      var id := GenerateItemRequestId();
      var request := ItemRequestMapper.ToItemRequest(id, user.value, dto, now);
      CreatedRequestIsFound(db.users, db.requests, db.items, userId, dto, id, now);
      db.SaveRequest(request);
      r := Ok(request);
    }
  }
}
