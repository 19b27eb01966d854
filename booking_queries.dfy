/** The JPQL queries of the server BookingRepository, over a table of bookings.

    Each list query selects the bookings one user takes part in (as booker or
    as owner of the booked item), restricts them to a period relative to
    `now` or to one status, orders them by a timestamp, newest first, and
    cuts out one page. `group by b.id` changes nothing because the id is the
    primary key (UniqueIdsKept). */
module BookingQueries {
  import opened Base
  import opened Domain
  import opened Seqs

  /** The side of a booking a user is on: `b.booker.id` or `b.item.owner.id`. */
  datatype Party = Booker | Owner

  predicate Involves(b: Booking, party: Party, userId: int)
  {
    match party
    case Booker => b.booker.id == userId
    case Owner => b.item.owner.id == userId
  }

  /** The second conjunct of the `where` clause. */
  datatype Period =
    | AnyTime                         // no condition
    | CurrentAt(now: Time)            // ?2 > b.start and ?2 < b.end
    | PastAt(now: Time)               // ?2 > b.end
    | FutureAt(now: Time)             // ?2 < b.start
    | HavingStatus(status: BookingStatus)   // b.status = ?2

  predicate InPeriod(b: Booking, period: Period)
  {
    match period
    case AnyTime => true
    case CurrentAt(now) => now > b.start && now < b.end
    case PastAt(now) => now > b.end
    case FutureAt(now) => now < b.start
    case HavingStatus(s) => b.status == s
  }

  /** The `where` clause of a list query. */
  function Where(party: Party, userId: int, period: Period): Booking -> bool
  {
    b => Involves(b, party, userId) && InPeriod(b, period)
  }

  /** `order by b.start desc` for the future bookings, `order by b.end desc` otherwise. */
  function OrderKey(period: Period): Booking -> int
  {
    if period.FutureAt? then BookingStart else BookingEnd
  }

  /** getAll/Current/Past/Future/WaitingRejectedBookingsBy{User,Booker,Owner}:
      one page of the matching bookings, newest first. */
  function Bookings(table: seq<Booking>, party: Party, userId: int, period: Period, page: PageRequest): (r: seq<Booking>)
    ensures forall b :: b in r ==> b in table && Involves(b, party, userId) && InPeriod(b, period)
    ensures SortedDesc(r, OrderKey(period))
    ensures |r| <= page.size
    ensures multiset(r) <= multiset(table)
    ensures PageOf(r, SortDesc(Filter(table, Where(party, userId, period)), OrderKey(period)), page)
  {
    Select(table, Where(party, userId, period), OrderKey(period), page)
  }

  /** A first page large enough for the whole table returns every matching booking. */
  lemma BookingsComplete(table: seq<Booking>, party: Party, userId: int, period: Period, page: PageRequest)
    requires page.page == 0 && |table| <= page.size
    ensures forall b :: b in table && Involves(b, party, userId) && InPeriod(b, period) ==> b in Bookings(table, party, userId, period, page)
    ensures multiset(Bookings(table, party, userId, period, page)) == multiset(Filter(table, Where(party, userId, period)))
  {
    SelectComplete(table, Where(party, userId, period), OrderKey(period), page);
  }

  /** `group by b.id` is a no-op: with unique ids in the table, a page has unique ids. */
  lemma UniqueIdsKept(table: seq<Booking>, party: Party, userId: int, period: Period, page: PageRequest)
    requires UniqueKeys(table, BookingKey)
    ensures UniqueKeys(Bookings(table, party, userId, period, page), BookingKey)
  {
    SubMultisetUniqueKeys(Bookings(table, party, userId, period, page), table, BookingKey);
  }

  /** A booking that does not end before it starts is in at most one of the
      current, past and future views; unless `now` is exactly its start or
      its end, it is in exactly one, and when it is, it is in none. */
  lemma TimeViewsExclusive(b: Booking, now: Time)
    requires b.start <= b.end
    ensures !(InPeriod(b, CurrentAt(now)) && InPeriod(b, PastAt(now)))
    ensures !(InPeriod(b, CurrentAt(now)) && InPeriod(b, FutureAt(now)))
    ensures !(InPeriod(b, PastAt(now)) && InPeriod(b, FutureAt(now)))
    ensures now != b.start && now != b.end ==>
      InPeriod(b, CurrentAt(now)) || InPeriod(b, PastAt(now)) || InPeriod(b, FutureAt(now))
    ensures now == b.start || now == b.end ==>
      !InPeriod(b, CurrentAt(now)) && !InPeriod(b, PastAt(now)) && !InPeriod(b, FutureAt(now))
  {
  }

  /** The rows of the current, past and future selections of a user, together. */
  ghost function TimedRows(table: seq<Booking>, party: Party, userId: int, now: Time): multiset<Booking>
  {
    multiset(Filter(table, Where(party, userId, CurrentAt(now))))
      + multiset(Filter(table, Where(party, userId, PastAt(now))))
      + multiset(Filter(table, Where(party, userId, FutureAt(now))))
  }

  /** A selection of a non-empty table: the head's share plus the rest's. */
  lemma SelectionCons(table: seq<Booking>, where: Booking -> bool)
    requires table != []
    ensures multiset(Filter(table, where)) == Share(table[0], where) + multiset(Filter(table[1..], where))
  {
    FilterCons(table, where);
  }

  /** TimedRows of a non-empty table: the head's shares plus the rest's. */
  lemma TimedRowsCons(table: seq<Booking>, party: Party, userId: int, now: Time)
    requires table != []
    ensures TimedRows(table, party, userId, now)
         == Share(table[0], Where(party, userId, CurrentAt(now)))
          + Share(table[0], Where(party, userId, PastAt(now)))
          + Share(table[0], Where(party, userId, FutureAt(now)))
          + TimedRows(table[1..], party, userId, now)
  {
    var cur, past, fut := Where(party, userId, CurrentAt(now)), Where(party, userId, PastAt(now)), Where(party, userId, FutureAt(now));
    SelectionCons(table, cur);
    SelectionCons(table, past);
    SelectionCons(table, fut);
  }

  /** Over a table in which no booking ends before it starts, the current, past
      and future selections of a user are disjoint parts of the ALL selection. */
  lemma {:induction false} TimeViewsDisjoint(table: seq<Booking>, party: Party, userId: int, now: Time)
    requires forall b :: b in table ==> b.start <= b.end
    ensures TimedRows(table, party, userId, now) <= multiset(Filter(table, Where(party, userId, AnyTime)))
  {
    if table != [] {
      assert forall c :: c in table[1..] ==> c in table;
      TimedRowsCons(table, party, userId, now);
      SelectionCons(table, Where(party, userId, AnyTime));
      TimeViewsDisjoint(table[1..], party, userId, now);
      assert table[0] in table;
      ShareDisjoint(table[0], party, userId, now);
      SubMultisetSum(Share(table[0], Where(party, userId, CurrentAt(now))) + Share(table[0], Where(party, userId, PastAt(now)))
                       + Share(table[0], Where(party, userId, FutureAt(now))),
                     TimedRows(table[1..], party, userId, now),
                     Share(table[0], Where(party, userId, AnyTime)),
                     multiset(Filter(table[1..], Where(party, userId, AnyTime))));
    }
  }

  /** Sub-multisets add up. */
  lemma SubMultisetSum(a: multiset<Booking>, b: multiset<Booking>, c: multiset<Booking>, d: multiset<Booking>)
    requires a <= c && b <= d
    ensures a + b <= c + d
  {
  }

  /** A booking of the user that does not end before it starts falls in at most one time view. */
  lemma ShareDisjoint(b: Booking, party: Party, userId: int, now: Time)
    requires b.start <= b.end
    ensures Share(b, Where(party, userId, CurrentAt(now))) + Share(b, Where(party, userId, PastAt(now)))
          + Share(b, Where(party, userId, FutureAt(now))) <= Share(b, Where(party, userId, AnyTime))
  {
    var w := Involves(b, party, userId);
    assert Where(party, userId, AnyTime)(b) == w;
    assert Where(party, userId, CurrentAt(now))(b) == (w && now > b.start && now < b.end);
    assert Where(party, userId, PastAt(now))(b) == (w && now > b.end);
    assert Where(party, userId, FutureAt(now))(b) == (w && now < b.start);
  }

  /** A booking's own share of a selection: itself if it passes `where`, nothing otherwise. */
  ghost function Share(b: Booking, where: Booking -> bool): multiset<Booking>
  {
    multiset(if where(b) then [b] else [])
  }

  /** A booking of the user that does not start or end at `now` falls in exactly one time view. */
  lemma ShareCover(b: Booking, party: Party, userId: int, now: Time)
    requires b.start <= b.end && b.start != now && b.end != now
    ensures Share(b, Where(party, userId, CurrentAt(now))) + Share(b, Where(party, userId, PastAt(now)))
          + Share(b, Where(party, userId, FutureAt(now))) == Share(b, Where(party, userId, AnyTime))
  {
    var w := Involves(b, party, userId);
    assert Where(party, userId, AnyTime)(b) == w;
    assert Where(party, userId, CurrentAt(now))(b) == (w && now > b.start && now < b.end);
    assert Where(party, userId, PastAt(now))(b) == (w && now > b.end);
    assert Where(party, userId, FutureAt(now))(b) == (w && now < b.start);
  }

  /** When in addition no booking starts or ends exactly at `now`, the three
      selections cover the ALL selection. */
  lemma {:induction false} TimeViewsCover(table: seq<Booking>, party: Party, userId: int, now: Time)
    requires forall b :: b in table ==> b.start <= b.end && b.start != now && b.end != now
    ensures TimedRows(table, party, userId, now) == multiset(Filter(table, Where(party, userId, AnyTime)))
  {
    if table != [] {
      assert forall c :: c in table[1..] ==> c in table;
      TimedRowsCons(table, party, userId, now);
      SelectionCons(table, Where(party, userId, AnyTime));
      TimeViewsCover(table[1..], party, userId, now);
      assert table[0] in table;
      ShareCover(table[0], party, userId, now);
    }
  }

  /** The `where` clause of findLastBookingsByItemId: a booking of the item that has started. */
  function Started(itemId: int, now: Time): Booking -> bool
  {
    (b: Booking) => b.item.id == itemId && now > b.start
  }

  /** The `where` clause of findNextBookingsByItemId: a booking of the item still to start. */
  function Upcoming(itemId: int, now: Time): Booking -> bool
  {
    (b: Booking) => b.item.id == itemId && now < b.start
  }

  /** findLastBookingsByItemId: the bookings of an item that have started, highest id first. */
  function LastBookingsByItem(table: seq<Booking>, itemId: int, now: Time, page: PageRequest): (r: seq<Booking>)
    ensures forall b :: b in r ==> b in table && b.item.id == itemId && now > b.start
    ensures SortedDesc(r, BookingKey)
    ensures |r| <= page.size
  {
    Select(table, Started(itemId, now), BookingKey, page)
  }

  /** findNextBookingsByItemId: the bookings of an item still to start, lowest id first. */
  function NextBookingsByItem(table: seq<Booking>, itemId: int, now: Time, page: PageRequest): (r: seq<Booking>)
    ensures forall b :: b in r ==> b in table && b.item.id == itemId && now < b.start
    ensures SortedDesc(r, NegatedBookingKey)
    ensures |r| <= page.size
  {
    Select(table, Upcoming(itemId, now), NegatedBookingKey, page)
  }

  /** With PageRequest.of(0, 1), the last booking is the started booking of the
      item with the highest id, and there is one whenever any booking of the item has started. */
  lemma LastIsHighestId(table: seq<Booking>, itemId: int, now: Time)
    ensures forall b, c :: b in LastBookingsByItem(table, itemId, now, PageRequest(0, 1)) && c in table && Started(itemId, now)(c) ==> c.id <= b.id
    ensures (exists c :: c in table && Started(itemId, now)(c)) ==>
      LastBookingsByItem(table, itemId, now, PageRequest(0, 1)) != []
  {
    SelectTop(table, Started(itemId, now), BookingKey);
    forall b, c | b in LastBookingsByItem(table, itemId, now, PageRequest(0, 1)) && c in table && Started(itemId, now)(c)
      ensures c.id <= b.id
    {
      assert BookingKey(c) <= BookingKey(b);
    }
  }

  /** With PageRequest.of(0, 1), the next booking is the booking of the item
      still to start with the lowest id, and there is one whenever any such booking exists. */
  lemma NextIsLowestId(table: seq<Booking>, itemId: int, now: Time)
    ensures forall b, c :: b in NextBookingsByItem(table, itemId, now, PageRequest(0, 1)) && c in table && Upcoming(itemId, now)(c) ==> b.id <= c.id
    ensures (exists c :: c in table && Upcoming(itemId, now)(c)) ==>
      NextBookingsByItem(table, itemId, now, PageRequest(0, 1)) != []
  {
    SelectTop(table, Upcoming(itemId, now), NegatedBookingKey);
    forall b, c | b in NextBookingsByItem(table, itemId, now, PageRequest(0, 1)) && c in table && Upcoming(itemId, now)(c)
      ensures b.id <= c.id
    {
      assert NegatedBookingKey(c) <= NegatedBookingKey(b);
    }
  }

  /** The `where` clause of findBookerByItemId: a finished booking of the item by the author. */
  predicate FinishedBookingBy(b: Booking, itemId: int, authorId: int, now: Time)
  {
    b.item.id == itemId && b.booker.id == authorId && now > b.end
  }

  /** Two finished bookings of the item by the author, at two positions of the table. */
  ghost predicate TwoFinished(table: seq<Booking>, itemId: int, authorId: int, now: Time)
  {
    exists i, j :: 0 <= i < j < |table| && FinishedBookingBy(table[i], itemId, authorId, now)
                                       && FinishedBookingBy(table[j], itemId, authorId, now)
  }

  /** findBookerByItemId: declared to return one Booking, so no match gives
      null, one match gives that booking, and more than one makes Spring
      throw IncorrectResultSizeDataAccessException. */
  function FindBookerByItemId(table: seq<Booking>, itemId: int, authorId: int, now: Time): (r: Result<Option<Booking>>)
    ensures r == Ok(None) <==> forall b :: b in table ==> !FinishedBookingBy(b, itemId, authorId, now)
    ensures r.Ok? && r.value.Some? ==> r.value.value in table && FinishedBookingBy(r.value.value, itemId, authorId, now)
    ensures r.Err? ==> r.error == NonUniqueResult
    ensures r.Err? <==> TwoFinished(table, itemId, authorId, now)
  {
    var rows := Filter(table, (b: Booking) => FinishedBookingBy(b, itemId, authorId, now));
    TwoMatchesAtTwoPositions(table, (b: Booking) => FinishedBookingBy(b, itemId, authorId, now));
    if rows == [] then Ok(None)
    else if |rows| == 1 then Ok(Some(rows[0]))
    else Err(NonUniqueResult)
  }

  /** A filter keeps at least two rows exactly when two distinct positions of the table pass it. */
  lemma TwoMatchesAtTwoPositions(table: seq<Booking>, p: Booking -> bool)
    ensures |Filter(table, p)| >= 2 <==> exists i, j :: 0 <= i < j < |table| && p(table[i]) && p(table[j])
  {
    if |Filter(table, p)| >= 2 {
      var i, j := TwoKept(table, p);
    }
    if exists i, j :: 0 <= i < j < |table| && p(table[i]) && p(table[j]) {
      var i, j :| 0 <= i < j < |table| && p(table[i]) && p(table[j]);
      TwoPositionsKept(table, p, i, j);
    }
  }

}

/** The monolith's older BookingRepository: unpaged queries over the bookings
    a user takes part in either as booker or as owner of the item. */
module LegacyBookingQueries {
  import opened Base
  import opened Domain
  import opened Seqs
  import opened BookingQueries

  /** `b.booker.id = ?1 or b.item.owner.id = ?1`. */
  predicate Participates(b: Booking, userId: int)
  {
    b.booker.id == userId || b.item.owner.id == userId
  }

  /** The name a BookingStatus is stored and compared under. */
  function StatusName(s: BookingStatus): string
  {
    match s
    case Waiting => "WAITING"
    case Approved => "APPROVED"
    case Rejected => "REJECTED"
    case Canceled => "CANCELED"
  }

  function ParticipatesIn(userId: int, period: Period): Booking -> bool
  {
    (b: Booking) => Participates(b, userId) && InPeriod(b, period)
  }

  /** getAll/Current/Past/FutureBookingsByUser: every booking the user takes
      part in that lies in the period, newest first. */
  function BookingsOfUser(table: seq<Booking>, userId: int, period: Period): (r: seq<Booking>)
    requires !period.HavingStatus?
    ensures forall b :: b in r <==> b in table && Participates(b, userId) && InPeriod(b, period)
    ensures SortedDesc(r, OrderKey(period))
    ensures multiset(r) <= multiset(table)
  {
    var rows := Filter(table, ParticipatesIn(userId, period));
    SortDescMembers(rows, OrderKey(period));
    SortDesc(rows, OrderKey(period))
  }

  function HasStatusNamed(userId: int, textStatus: string): Booking -> bool
  {
    (b: Booking) => Participates(b, userId) && StatusName(b.status) == textStatus
  }

  /** getWaitingRejectedBookingsByUser: the status is passed as its name. */
  function BookingsOfUserWithStatus(table: seq<Booking>, userId: int, textStatus: string): (r: seq<Booking>)
    ensures forall b :: b in r <==> b in table && Participates(b, userId) && StatusName(b.status) == textStatus
    ensures SortedDesc(r, BookingEnd)
    ensures multiset(r) <= multiset(table)
  {
    var rows := Filter(table, HasStatusNamed(userId, textStatus));
    SortDescMembers(rows, BookingEnd);
    SortDesc(rows, BookingEnd)
  }

  /** Distinct statuses have distinct names, so comparing names is comparing statuses. */
  lemma StatusNameInjective(s: BookingStatus, t: BookingStatus)
    ensures StatusName(s) == StatusName(t) <==> s == t
  {
    if s != t {
      assert StatusName(s)[0] != StatusName(t)[0] || |StatusName(s)| != |StatusName(t)|;
    }
  }

  /** The older query returns what the booker query and the owner query of the
      server repository return together, taken on one page large enough for the table. */
  lemma LegacyIsUnion(table: seq<Booking>, userId: int, period: Period, page: PageRequest)
    requires !period.HavingStatus?
    requires page.page == 0 && |table| <= page.size
    ensures forall b :: b in BookingsOfUser(table, userId, period) <==>
      b in Bookings(table, Booker, userId, period, page) || b in Bookings(table, Owner, userId, period, page)
  {
    BookingsComplete(table, Booker, userId, period, page);
    BookingsComplete(table, Owner, userId, period, page);
  }

  /** Asking for a status by its name selects exactly the bookings the user
      takes part in that are in that status. */
  lemma StatusByName(table: seq<Booking>, userId: int, s: BookingStatus)
    ensures forall b :: b in BookingsOfUserWithStatus(table, userId, StatusName(s)) <==>
      b in table && Participates(b, userId) && b.status == s
  {
    forall b | b in table ensures StatusName(b.status) == StatusName(s) <==> b.status == s {
      StatusNameInjective(b.status, s);
    }
  }
}
