/** The monolith's BookingService: creating, deciding on and reading bookings.

    The service holds its own id counter and works on the shared Database;
    the list operations run the paged queries of the server BookingRepository. */
module BookingLifecycle {
  import opened Base
  import opened Domain
  import opened Seqs
  import opened Store
  import opened BookingQueries
  import BookingMapper
  import SP = StateParsing

  // ---------------------------------------------------------------- creation

  /** validateDate: end before start, then end before now, then start before
      now; `start == end` passes because each test is a strict `compareTo > 0`.
      The code reads the clock once per test; both reads are the one `now`. */
  function ValidateDate(dto: BookingDtoIn, now: Time): (o: Outcome)
    ensures o == Pass <==> dto.start <= dto.end && now <= dto.end && now <= dto.start
    ensures dto.start > dto.end ==> o == Fail(EndBeforeStart)
    ensures dto.start <= dto.end && now > dto.end ==> o == Fail(EndBeforeNow)
    ensures dto.start <= dto.end && now <= dto.end && now > dto.start ==> o == Fail(StartBeforeNow)
  {
    if dto.start > dto.end then Fail(EndBeforeStart)
    else if now > dto.end then Fail(EndBeforeNow)
    else if now > dto.start then Fail(StartBeforeNow)
    else Pass
  }

  /** A booking that starts and ends at the same instant, not in the past, is accepted. */
  lemma InstantBookingAccepted(dto: BookingDtoIn, now: Time)
    requires dto.start == dto.end && now <= dto.start
    ensures ValidateDate(dto, now) == Pass
  {
  }

  /** The checks of createBooking in source order; on success, the booking it
      saves under the id `bookingId`. `item.getAvailable()` on a null value throws. */
  function CreateResult(users: seq<User>, items: seq<Item>, userId: int, dto: BookingDtoIn, now: Time, bookingId: int): (r: Result<Booking>)
    ensures ValidateDate(dto, now).Fail? ==> r == Err(ValidateDate(dto, now).error)
    ensures ValidateDate(dto, now) == Pass && Find(users, UserKey, userId).None? ==> r == Err(NotFound(UserEntity))
    ensures ValidateDate(dto, now) == Pass && Find(users, UserKey, userId).Some? && Find(items, ItemKey, dto.itemId).None?
      ==> r == Err(NotFound(ItemEntity))
    ensures ValidateDate(dto, now) == Pass && Find(users, UserKey, userId).Some? && Find(items, ItemKey, dto.itemId).Some? ==>
      var item := Find(items, ItemKey, dto.itemId).value;
      (item.available.None? ==> r == Err(NullDereference))
      && (item.available == Some(false) ==> r == Err(ItemUnavailable))
      && (item.available == Some(true) && item.owner.id == userId ==> r == Err(OwnerBooksOwnItem))
  {
    match ValidateDate(dto, now)
    case Fail(e) => Err(e)
    case Pass =>
      match Find(users, UserKey, userId)
      case None => Err(NotFound(UserEntity))
      case Some(booker) =>
        match Find(items, ItemKey, dto.itemId)
        case None => Err(NotFound(ItemEntity))
        case Some(item) =>
          if item.available.None? then Err(NullDereference)
          else if !item.available.value then Err(ItemUnavailable)
          else if item.owner.id == userId then Err(OwnerBooksOwnItem)
          else Ok(BookingMapper.ToBooking(bookingId, booker, item, dto.(status := Waiting)))
  }

  /** What a successful createBooking promises: a WAITING booking of an
      available stored item, by the stored requesting user who does not own
      it, with valid dates; and what each failure means. */
  lemma CreateResultMeaning(users: seq<User>, items: seq<Item>, userId: int, dto: BookingDtoIn, now: Time, bookingId: int)
    ensures var r := CreateResult(users, items, userId, dto, now, bookingId);
      r.Ok? <==> (ValidateDate(dto, now) == Pass && Find(users, UserKey, userId).Some?
                  && Find(items, ItemKey, dto.itemId).Some? && Find(items, ItemKey, dto.itemId).value.available == Some(true)
                  && Find(items, ItemKey, dto.itemId).value.owner.id != userId)
    ensures var r := CreateResult(users, items, userId, dto, now, bookingId);
      r.Ok? ==> (r.value.id == bookingId && r.value.status == Waiting
                 && r.value.start == dto.start && r.value.end == dto.end
                 && r.value.booker in users && r.value.booker.id == userId
                 && r.value.item in items && r.value.item.id == dto.itemId
                 && r.value.item.available == Some(true) && r.value.item.owner.id != userId)
    ensures var r := CreateResult(users, items, userId, dto, now, bookingId);
      r.Err? && ValidateDate(dto, now) == Pass ==> (r.error == NotFound(UserEntity) <==> Find(users, UserKey, userId).None?)
  {
  }

  /** A booking accepted at `now` is not yet current or past; it is a future
      booking unless it starts exactly at `now`. */
  lemma CreatedBookingIsUpcoming(users: seq<User>, items: seq<Item>, userId: int, dto: BookingDtoIn, now: Time, bookingId: int)
    requires CreateResult(users, items, userId, dto, now, bookingId).Ok?
    ensures var b := CreateResult(users, items, userId, dto, now, bookingId).value;
      b.start <= b.end && !InPeriod(b, CurrentAt(now)) && !InPeriod(b, PastAt(now))
      && (now < b.start ==> InPeriod(b, FutureAt(now)))
  {
    CreateResultMeaning(users, items, userId, dto, now, bookingId);
  }

  // ---------------------------------------------------------------- decision

  /** The guard of approveBooking on a found booking: only the item's owner may
      decide, and only a repeat of the same decision is refused. */
  function Decide(b: Booking, ownerId: int, approved: bool): (r: Result<BookingStatus>)
    ensures r.Ok? <==> b.item.owner.id == ownerId
                       && !(approved && b.status == Approved) && !(!approved && b.status == Rejected)
    ensures r.Ok? ==> r.value == (if approved then Approved else Rejected) && r.value != b.status
    ensures b.item.owner.id != ownerId ==> r == Err(NotItemOwner)
  {
    if b.item.owner.id != ownerId then Err(NotItemOwner)
    else if approved && b.status == Approved then Err(AlreadyApproved)
    else if !approved && b.status == Rejected then Err(AlreadyRejected)
    else Ok(if approved then Approved else Rejected)
  }

  /** approveBooking on a table: the stored booking with only its status replaced. */
  function Approval(bookings: seq<Booking>, ownerId: int, bookingId: int, approved: bool): (r: Result<Booking>)
    ensures Find(bookings, BookingKey, bookingId).None? ==> r == Err(NotFound(BookingEntity))
    ensures r.Ok? ==> var old_ := Find(bookings, BookingKey, bookingId).value;
      r.value == old_.(status := r.value.status) && old_.item.owner.id == ownerId
      && r.value.status == (if approved then Approved else Rejected) && r.value.status != old_.status
    ensures Find(bookings, BookingKey, bookingId).Some? ==>
      (r.Ok? <==> Decide(Find(bookings, BookingKey, bookingId).value, ownerId, approved).Ok?)
    ensures Find(bookings, BookingKey, bookingId).Some? && Decide(Find(bookings, BookingKey, bookingId).value, ownerId, approved).Err?
      ==> r == Err(Decide(Find(bookings, BookingKey, bookingId).value, ownerId, approved).error)
  {
    match Find(bookings, BookingKey, bookingId)
    case None => Err(NotFound(BookingEntity))
    case Some(b) =>
      match Decide(b, ownerId, approved)
      case Err(e) => Err(e)
      case Ok(s) => Ok(b.(status := s))
  }

  /** Repeating a decision that was just saved fails, whichever it was. */
  lemma RepeatedDecisionFails(bookings: seq<Booking>, ownerId: int, bookingId: int, approved: bool)
    requires Approval(bookings, ownerId, bookingId, approved).Ok?
    ensures var saved := Upsert(bookings, Approval(bookings, ownerId, bookingId, approved).value, BookingKey);
      Approval(saved, ownerId, bookingId, approved) == Err(if approved then AlreadyApproved else AlreadyRejected)
  {
    var b := Approval(bookings, ownerId, bookingId, approved).value;
    UpsertFind(bookings, b, BookingKey, bookingId);
  }

  /** A decision can be reversed: the opposite decision on the saved booking succeeds. */
  lemma DecisionCanBeReversed(bookings: seq<Booking>, ownerId: int, bookingId: int, approved: bool)
    requires Approval(bookings, ownerId, bookingId, approved).Ok?
    ensures var saved := Upsert(bookings, Approval(bookings, ownerId, bookingId, approved).value, BookingKey);
      Approval(saved, ownerId, bookingId, !approved).Ok?
  {
    var b := Approval(bookings, ownerId, bookingId, approved).value;
    UpsertFind(bookings, b, BookingKey, bookingId);
  }

  // ---------------------------------------------------------------- reading

  /** getBookingById: the stored booking, unchanged, for its booker or its item's owner. */
  function GetBookingById(bookings: seq<Booking>, userId: int, bookingId: int): (r: Result<Booking>)
    ensures r.Ok? <==> Find(bookings, BookingKey, bookingId).Some?
                       && (Find(bookings, BookingKey, bookingId).value.item.owner.id == userId
                           || Find(bookings, BookingKey, bookingId).value.booker.id == userId)
    ensures r.Ok? ==> r.value == Find(bookings, BookingKey, bookingId).value
    ensures r.Err? ==> r.error == (if Find(bookings, BookingKey, bookingId).None? then NotFound(BookingEntity) else NotOwnerOrBooker)
  {
    match Find(bookings, BookingKey, bookingId)
    case None => Err(NotFound(BookingEntity))
    case Some(b) =>
      if b.item.owner.id == userId || b.booker.id == userId then Ok(b) else Err(NotOwnerOrBooker)
  }

  /** The query each state dispatches to; WAITING and REJECTED pass that status. */
  function PeriodOf(state: SP.State, now: Time): Period
  {
    match state
    case All => AnyTime
    case Current => CurrentAt(now)
    case Past => PastAt(now)
    case Future => FutureAt(now)
    case Waiting => HavingStatus(BookingStatus.Waiting)
    case Rejected => HavingStatus(BookingStatus.Rejected)
  }

  /** What each state means for one booking, stated directly. */
  predicate Admits(state: SP.State, b: Booking, now: Time)
  {
    match state
    case All => true
    case Current => b.start < now < b.end
    case Past => b.end < now
    case Future => now < b.start
    case Waiting => b.status == BookingStatus.Waiting
    case Rejected => b.status == BookingStatus.Rejected
  }

  /** The order of each state's list: by start for FUTURE, by end otherwise. */
  function StateOrder(state: SP.State): Booking -> int
  {
    if state == SP.Future then BookingStart else BookingEnd
  }

  /** Each state's query selects exactly what the state admits, in the state's order. */
  lemma PeriodOfMeans(state: SP.State, now: Time)
    ensures forall b :: InPeriod(b, PeriodOf(state, now)) == Admits(state, b, now)
    ensures OrderKey(PeriodOf(state, now)) == StateOrder(state)
  {
  }

  /** getBookingsByUser (Booker) and getBookingsByOwner (Owner): the caller
      must be a stored user; then one page of the bookings on the caller's
      side that the state admits, newest first. */
  function BookingsFor(users: seq<User>, bookings: seq<Booking>, party: Party, userId: int, state: SP.State, now: Time, page: PageRequest): (r: Result<seq<Booking>>)
    ensures r.Err? <==> Find(users, UserKey, userId).None?
    ensures r.Err? ==> r.error == NotFound(UserEntity)
    ensures r.Ok? ==> forall b :: b in r.value ==> b in bookings && Involves(b, party, userId) && Admits(state, b, now)
    ensures r.Ok? ==> SortedDesc(r.value, StateOrder(state)) && |r.value| <= page.size
    ensures r.Ok? ==> PageOf(r.value, SortDesc(Filter(bookings, Where(party, userId, PeriodOf(state, now))), StateOrder(state)), page)
  {
    if Find(users, UserKey, userId).None? then Err(NotFound(UserEntity))
    else
      PeriodOfMeans(state, now);
      Ok(Bookings(bookings, party, userId, PeriodOf(state, now), page))
  }

  /** On a first page large enough for the table, the list holds every booking
      on the caller's side that the state admits. */
  lemma BookingsForComplete(users: seq<User>, bookings: seq<Booking>, party: Party, userId: int, state: SP.State, now: Time, page: PageRequest)
    requires Find(users, UserKey, userId).Some?
    requires page.page == 0 && |bookings| <= page.size
    ensures forall b :: b in bookings && Involves(b, party, userId) && Admits(state, b, now) ==>
      b in BookingsFor(users, bookings, party, userId, state, now, page).value
  {
    PeriodOfMeans(state, now);
    BookingsComplete(bookings, party, userId, PeriodOf(state, now), page);
  }

  // ---------------------------------------------------------------- the service object

  class BookingService {
    /** The last id handed out by generateBookingId. */
    var bookingId: int
    const db: Database

    /** The database is consistent and no stored booking has an id above the counter. */
    ghost predicate Valid()
      reads this, db
    {
      db.Valid() && 0 <= bookingId && forall b :: b in db.bookings ==> b.id <= bookingId
    }

    constructor (db: Database)
      requires db.Valid() && db.bookings == []
      ensures Valid() && this.db == db && bookingId == 0
    {
      this.db := db;
      bookingId := 0;
    }

    /** generateBookingId: 1, 2, 3, ... in call order. */
    method GenerateBookingId() returns (id: int)
      modifies this
      ensures bookingId == old(bookingId) + 1 && id == bookingId
    {
      bookingId := bookingId + 1;
      id := bookingId;
    }

    /** createBooking: on success the counter advances and exactly one new
        booking is appended; on failure nothing changes. */
    method CreateBooking(userId: int, dto: BookingDtoIn, now: Time) returns (r: Result<Booking>)
      requires Valid()
      modifies this, db
      ensures Valid()
      ensures r == CreateResult(old(db.users), old(db.items), userId, dto, now, old(bookingId) + 1)
      ensures r.Ok? ==> bookingId == old(bookingId) + 1 && db.bookings == old(db.bookings) + [r.value]
      ensures r.Err? ==> bookingId == old(bookingId) && db.bookings == old(db.bookings)
      ensures db.users == old(db.users) && db.items == old(db.items)
      ensures db.comments == old(db.comments) && db.requests == old(db.requests)
    {
      var dateCheck := ValidateDate(dto, now);
      if dateCheck.Fail? {
        return Err(dateCheck.error);
      }
      var booker := Find(db.users, UserKey, userId);
      if booker.None? {
        return Err(NotFound(UserEntity));
      }
      var item := Find(db.items, ItemKey, dto.itemId);
      if item.None? {
        return Err(NotFound(ItemEntity));
      }
      if item.value.available.None? {
        return Err(NullDereference);
      }
      if !item.value.available.value {
        return Err(ItemUnavailable);
      }
      if item.value.owner.id == userId {
        return Err(OwnerBooksOwnItem);
      }
      var waiting := dto.(status := Waiting);
      var id := GenerateBookingId();
      var booking := BookingMapper.ToBooking(id, booker.value, item.value, waiting);
      db.SaveBooking(booking);
      r := Ok(booking);
    }

    /** approveBooking: on success the stored booking is replaced by the
        decided one; on failure nothing changes. */
    method ApproveBooking(ownerId: int, bookingId: int, approved: bool) returns (r: Result<Booking>)
      requires Valid()
      modifies db
      ensures Valid()
      ensures r == Approval(old(db.bookings), ownerId, bookingId, approved)
      ensures r.Ok? ==> db.bookings == Upsert(old(db.bookings), r.value, BookingKey)
      ensures r.Err? ==> db.bookings == old(db.bookings)
      ensures db.users == old(db.users) && db.items == old(db.items)
      ensures db.comments == old(db.comments) && db.requests == old(db.requests)
    {
      var found := Find(db.bookings, BookingKey, bookingId);
      if found.None? {
        return Err(NotFound(BookingEntity));
      }
      var booking := found.value;
      if booking.item.owner.id != ownerId {
        return Err(NotItemOwner);
      }
      if approved {
        if booking.status == Approved {
          return Err(AlreadyApproved);
        }
        booking := booking.(status := Approved);
      }
      if !approved {
        if booking.status == Rejected {
          return Err(AlreadyRejected);
        }
        booking := booking.(status := Rejected);
      }
      db.SaveBooking(booking);
      r := Ok(booking);
    }
  }
}
