# ShareIt booking and item core in Dafny

ShareIt is an item-lending service. Users put items up for rent, other users
book them for a period, and the owner approves or rejects each booking.
Users who have finished renting an item may comment on it. Users may also
post requests for items they need, and other users' items can answer those
requests. The repository holds three snapshots of the same service:
- an early monolith over in-memory hash maps;
- a later monolith over JPA repositories;
- a server behind a gateway that checks parameters before forwarding them.

This project models the core of all three snapshots:
- the booking lifecycle: creation, approval or rejection, reading one booking, and the per-state lists;
- the JPQL queries behind the booking lists, and the last/next booking of an item;
- the item services of all three snapshots: creation, patch updates, case-insensitive search, the owner-only view of bookings, and comments;
- the two parsers of the `state` query parameter, and the paging parameters;
- the in-memory item and user storage, and the e-mail set the early user service keeps beside it;
- the user services and the item request service;
- the e-mail check, the mappers, and the smaller repositories.

How the code becomes Dafny:
- Every exception becomes an error value. `Base.Result` and `Base.Outcome` carry a `Failure`; `Base.StatusOf` gives the HTTP status a failure is reported with. A ValidationException carries its own status. An UnknownStateException is BAD_REQUEST, as the server's ErrorHandler answers it (server/src/main/java/ru/practicum/shareit/common/ErrorHandler.java:13-17). Any other exception is an internal server error.
- The JPA repositories become the class `Store.Database`. It holds one `seq` per table. `save` is an upsert by id, and `findById` is `Seqs.Find`.
- A JPQL query becomes a function of the table: a filter, a stable sort by the `order by` key, and a page window (`Seqs.Select`). `Seqs.PageOf` states which rows a page holds, and `Seqs.PageOfUnique` shows that this fixes the page.
- The services that keep id counters or update maps in place become classes. Their methods are proved against the specification functions beside them: each method's `ensures` ties its result and the new state to those functions.
- `LocalDateTime.now()` becomes a `now: Time` parameter, and timestamps are integers.
- A Java `HashMap` is iterated in an order the model takes as a parameter. `Seqs.IterationOrder` states that this order lists every key once.

Behaviour of the code worth knowing:
- The last and next booking of an item are chosen by id: `findLastBookingsByItemId` and `findNextBookingsByItemId` order by `b.id`, not by start. The last booking is the started booking with the highest id, and the next booking is the upcoming booking with the lowest id.
- APPROVED and REJECTED are not final states. The owner may reverse either decision; only repeating the same decision fails (`BookingLifecycle.DecisionCanBeReversed`).
- A booking with `start == end` is accepted, because each date test is a strict comparison (`BookingLifecycle.InstantBookingAccepted`).
- `findBookerByItemId` is declared to return one booking. When an author has finished renting the same item twice, Spring throws instead of returning a booking (`BookingQueries.FindBookerByItemId`).

## Model

| member | source | states |
|---|---|---|
| BookingQueries.Bookings | server/src/main/java/ru/practicum/shareit/booking/repository/BookingRepository.java:15-83 | every row of a page is a booking of the table on the caller's side (booker, or owner of the booked item) that the view's time or status condition admits; rows are sorted by end descending, by start descending for FUTURE; at most `size` rows; no booking appears more often than in the table; row `k` of the page is row `page * size + k` of the ordered matches, and the page is short of `size` rows only at the end of them (`Seqs.PageOf`) |
| BookingQueries.BookingsComplete | server/src/main/java/ru/practicum/shareit/booking/repository/BookingRepository.java:15-83 | a first page as large as the table holds every matching booking, and as a multiset it is exactly the filtered table |
| BookingQueries.UniqueIdsKept | server/src/main/java/ru/practicum/shareit/booking/repository/BookingRepository.java:17-82 | `group by b.id` adds nothing: a table with unique ids gives a page with unique ids |
| BookingQueries.TimeViewsExclusive | server/src/main/java/ru/practicum/shareit/booking/repository/BookingRepository.java:22-41 | a booking with start <= end is in at most one of CURRENT (`start < now < end`), PAST (`end < now`) and FUTURE (`now < start`); unless `now` equals its start or its end it is in exactly one; when `now` equals its start or its end it is in none of them |
| BookingQueries.TimedRowsCons | server/src/main/java/ru/practicum/shareit/booking/repository/BookingRepository.java:22-41 | the rows of the three time views over a non-empty table are the first booking's rows plus the rest's |
| BookingQueries.TimeViewsDisjoint | server/src/main/java/ru/practicum/shareit/booking/repository/BookingRepository.java:15-41 | when no booking ends before it starts, the CURRENT, PAST and FUTURE results of a user together are contained in the ALL result (as multisets, so no booking is in two of them) |
| BookingQueries.ShareDisjoint | server/src/main/java/ru/practicum/shareit/booking/repository/BookingRepository.java:22-41 | a booking that does not end before it starts adds itself to at most one time view, and only when the ALL view holds it |
| BookingQueries.ShareCover | server/src/main/java/ru/practicum/shareit/booking/repository/BookingRepository.java:22-41 | a booking of the user that neither starts nor ends at `now` falls into exactly one time view |
| BookingQueries.TimeViewsCover | server/src/main/java/ru/practicum/shareit/booking/repository/BookingRepository.java:15-41 | when in addition no booking starts or ends at `now`, the three time views together are exactly the ALL result |
| BookingQueries.LastBookingsByItem | server/src/main/java/ru/practicum/shareit/booking/repository/BookingRepository.java:85-90 | every row is a booking of the item that started before `now`, whatever its status; rows by id descending; at most one page |
| BookingQueries.NextBookingsByItem | server/src/main/java/ru/practicum/shareit/booking/repository/BookingRepository.java:92-97 | every row is a booking of the item that starts after `now`, whatever its status; rows by id ascending; at most one page |
| BookingQueries.LastIsHighestId | server/src/main/java/ru/practicum/shareit/booking/repository/BookingRepository.java:85-90 | on the page PageRequest.of(0, 1) the row is the started booking with the highest id, and there is a row whenever any booking of the item has started |
| BookingQueries.NextIsLowestId | server/src/main/java/ru/practicum/shareit/booking/repository/BookingRepository.java:92-97 | on the page PageRequest.of(0, 1) the row is the upcoming booking with the lowest id, and there is a row whenever one exists |
| BookingQueries.FindBookerByItemId | server/src/main/java/ru/practicum/shareit/booking/repository/BookingRepository.java:99-104 | null exactly when no booking of the item by the author ended before `now`; a returned booking is such a booking; the error is NonUniqueResult, and it occurs exactly when two such bookings sit at two positions of the table |
| BookingQueries.TwoMatchesAtTwoPositions | server/src/main/java/ru/practicum/shareit/booking/repository/BookingRepository.java:99-104 | a filter keeps at least two rows exactly when two distinct positions of the table pass it |
| LegacyBookingQueries.BookingsOfUser | src/main/java/ru/practicum/shareit/booking/repository/BookingRepository.java:12-38 | a booking is listed exactly when the user is its booker or its item's owner and the time condition holds; sorted by end descending (start for FUTURE); a sub-multiset of the table |
| LegacyBookingQueries.BookingsOfUserWithStatus | src/main/java/ru/practicum/shareit/booking/repository/BookingRepository.java:40-45 | a booking is listed exactly when the user takes part in it and its status has the given name, with no time condition; sorted by end descending |
| LegacyBookingQueries.StatusNameInjective | src/main/java/ru/practicum/shareit/booking/repository/BookingRepository.java:40-45 | two statuses have the same name exactly when they are the same status |
| LegacyBookingQueries.LegacyIsUnion | src/main/java/ru/practicum/shareit/booking/repository/BookingRepository.java:12-38 | the older booker-or-owner query returns exactly the union of the server's booker query and owner query |
| LegacyBookingQueries.StatusByName | src/main/java/ru/practicum/shareit/booking/repository/BookingRepository.java:40-45 | asking by a status's name selects exactly the user's bookings in that status |
| BookingLifecycle.ValidateDate | src/main/java/ru/practicum/shareit/booking/service/BookingService.java:168-181 | passes exactly when start <= end, now <= end and now <= start; otherwise the first violated check (start after end, end before now, start before now) is reported |
| BookingLifecycle.InstantBookingAccepted | src/main/java/ru/practicum/shareit/booking/service/BookingService.java:168-181 | a booking that starts and ends at the same instant, not in the past, passes |
| BookingLifecycle.CreateResult | src/main/java/ru/practicum/shareit/booking/service/BookingService.java:48-71 | the first failing check decides the error, in source order: the dates (validateDate's error), an unknown booker, an unknown item, a null `available` (null dereference), an unavailable item, a booker who owns the item |
| BookingLifecycle.CreateResultMeaning | src/main/java/ru/practicum/shareit/booking/service/BookingService.java:48-71 | createBooking succeeds exactly when the dates pass, the booker and the item are stored, the item is available and the booker does not own it; the booking has the next id, the dto's dates, status WAITING, the stored booker and the stored item; an unknown booker is reported after the dates and before the item |
| BookingLifecycle.CreatedBookingIsUpcoming | src/main/java/ru/practicum/shareit/booking/service/BookingService.java:48-71 | a booking just accepted at `now` is neither current nor past, and is future unless it starts at `now` |
| BookingLifecycle.Decide | src/main/java/ru/practicum/shareit/booking/service/BookingService.java:78-96 | only the item's owner may decide; the decision fails exactly when it repeats the current status; otherwise the new status is APPROVED or REJECTED as asked, and differs from the old one |
| BookingLifecycle.Approval | src/main/java/ru/practicum/shareit/booking/service/BookingService.java:73-99 | an unknown booking is NOT_FOUND; a found booking succeeds exactly when `Decide` allows the decision (the caller owns the item and does not repeat the stored decision), and otherwise fails with `Decide`'s error; on success the stored booking comes back with only its status replaced |
| BookingLifecycle.RepeatedDecisionFails | src/main/java/ru/practicum/shareit/booking/service/BookingService.java:83-96 | after a decision is saved, the same decision fails with "already approved" or "already rejected" |
| BookingLifecycle.DecisionCanBeReversed | src/main/java/ru/practicum/shareit/booking/service/BookingService.java:83-98 | after a decision is saved, the opposite decision succeeds (REJECTED to APPROVED and back) |
| BookingLifecycle.GetBookingById | src/main/java/ru/practicum/shareit/booking/service/BookingService.java:101-114 | succeeds exactly when the booking is stored and the caller is its booker or its item's owner, and then returns the stored booking unchanged; otherwise NOT_FOUND or "neither owner nor booker" |
| BookingLifecycle.BookingsFor | src/main/java/ru/practicum/shareit/booking/service/BookingService.java:116-166 | an unknown caller fails NOT_FOUND before any query; otherwise every listed booking is stored, on the caller's side and admitted by the state (WAITING and REJECTED by status only); sorted as the state's query sorts; at most one page; row `k` of the page is row `page * size + k` of the ordered matches, and the page is short of `size` rows only at the end of them (`Seqs.PageOf`) |
| BookingLifecycle.BookingsForComplete | src/main/java/ru/practicum/shareit/booking/service/BookingService.java:116-166 | on a first page as large as the table, every booking on the caller's side that the state admits is listed |
| BookingLifecycle.BookingService.constructor | src/main/java/ru/practicum/shareit/booking/service/BookingService.java:42 | the counter starts at 0 over an empty booking table |
| BookingLifecycle.BookingService.GenerateBookingId | src/main/java/ru/practicum/shareit/booking/service/BookingService.java:42-46 | each call returns the previous counter plus one |
| BookingLifecycle.BookingService.CreateBooking | src/main/java/ru/practicum/shareit/booking/service/BookingService.java:48-71 | returns what the creation checks give for the next id; on success the counter advances and exactly that booking is appended; on failure no table and no counter changes |
| BookingLifecycle.BookingService.ApproveBooking | src/main/java/ru/practicum/shareit/booking/service/BookingService.java:73-99 | returns Approval of the stored table; on success the booking is replaced by the decided one; on failure nothing changes |
| StateParsing.Named | server/src/main/java/ru/practicum/shareit/booking/model/BookingStatus.java:14-26 | the constant found has exactly the text as its name; none is found exactly when no constant has that name |
| StateParsing.ValuesComplete | server/src/main/java/ru/practicum/shareit/booking/model/BookingStatus.java:16 | every State is among State.values() |
| StateParsing.NamedRoundTrip | server/src/main/java/ru/practicum/shareit/booking/model/BookingStatus.java:14-26 | `findState(s.toString()) == s` for every state |
| StateParsing.LowerCaseRejected | server/src/main/java/ru/practicum/shareit/booking/model/BookingStatus.java:17 | the match is case-sensitive: "all" is not a state |
| StateParsing.FindState | server/src/main/java/ru/practicum/shareit/booking/model/BookingStatus.java:14-26 | succeeds exactly when some state's name equals the text, returning that state; otherwise fails with "Unknown state: " followed by the text, never falling back to ALL |
| GatewayStates.Matching | gateway/src/main/java/ru/practicum/shareit/booking/dto/BookingState.java:21-28 | the constant found equals the text up to case; none is found exactly when no name equals the text up to case |
| GatewayStates.NamesDistinctIgnoringCase | gateway/src/main/java/ru/practicum/shareit/booking/dto/BookingState.java:7-19 | the six names differ even up to case |
| GatewayStates.ValuesComplete | gateway/src/main/java/ru/practicum/shareit/booking/dto/BookingState.java:7-19 | every BookingState is among values() |
| GatewayStates.MatchingFirst | gateway/src/main/java/ru/practicum/shareit/booking/dto/BookingState.java:23-28 | the scan returns the first constant whose name matches |
| GatewayStates.MatchingIgnoresCase | gateway/src/main/java/ru/practicum/shareit/booking/dto/BookingState.java:21-28 | any text equal to a constant's name up to case parses to that constant |
| GatewayStates.LowerIgnoresCase | gateway/src/main/java/ru/practicum/shareit/booking/dto/BookingState.java:24 | a string and its lower-case form are equal ignoring case |
| GatewayStates.FromRoundTrip | gateway/src/main/java/ru/practicum/shareit/booking/dto/BookingState.java:21-28 | `from(s.name())` and `from` of its lower-case spelling both give `s` |
| GatewayStates.From | gateway/src/main/java/ru/practicum/shareit/booking/dto/BookingState.java:21-33 | returns a state exactly when some name equals the text ignoring case, and then always a present one; otherwise fails with "Unknown state: " followed by the text |
| PageParams.ValidatePageParam | gateway/src/main/java/ru/practicum/shareit/common/ValidationPageParam.java:16-29 | passes exactly when from >= 0, size >= 0 and not both are zero; the first violated rule is reported, so a negative `from` wins over a negative `size`; every failure is BAD_REQUEST |
| PageParams.ZeroSizeAccepted | gateway/src/main/java/ru/practicum/shareit/common/ValidationPageParam.java:16-29 | from = 1 with size = 0 passes |
| BookingPaging.FindPageRequest | src/main/java/ru/practicum/shareit/booking/controller/BookingController.java:80-99 | a page is built exactly when validation passes and size > 0; it has the given size and its offset satisfies offset <= from < offset + size; a validation failure is passed on; a zero size that validation lets through divides by zero |
| BookingPaging.PageStartsAtFrom | src/main/java/ru/practicum/shareit/booking/controller/BookingController.java:80-84 | row `from` of the table is at position `from % size` of the page, and when `from` is a multiple of `size` the page starts at row `from` |
| BookingPaging.ZeroSizeDividesByZero | src/main/java/ru/practicum/shareit/booking/controller/BookingController.java:82-99 | from = 1 with size = 0 passes validation and then fails with a division by zero |
| EmailValidation.ValidateUser | src/main/java/ru/practicum/shareit/user/validation/ValidationUser.java:12-18 | passes exactly when the e-mail is present and contains '@' (so "@" alone passes); otherwise BAD_REQUEST; the older copy in src/main/java/ru/practicum/shareit/user/ValidationUser.java:11-19 is the same predicate |
| EmailValidation.AtSignIsNotBlank | src/main/java/ru/practicum/shareit/user/validation/ValidationUser.java:13 | a string holding '@' is not blank, so the blank test never decides the outcome |
| ItemRules.ValidateItem | server/src/main/java/ru/practicum/shareit/item/service/ItemService.java:108-117 | passes exactly when the name and the description are present; a missing name is reported first; failures are BAD_REQUEST |
| ItemRules.MergeFields | server/src/main/java/ru/practicum/shareit/item/service/ItemService.java:142-150 | each of available, name and description is the patch's value when sent and the stored value when null; id and request id are the patch's |
| ItemRules.EmptyPatchKeepsItem | server/src/main/java/ru/practicum/shareit/item/service/ItemService.java:142-150 | a patch that sends none of the three fields reproduces the stored item's fields |
| ItemRules.MergeIdempotent | server/src/main/java/ru/practicum/shareit/item/service/ItemService.java:142-150 | merging the merged patch again with the same stored item changes nothing |
| ItemRules.MergeKeepsValid | server/src/main/java/ru/practicum/shareit/item/service/ItemService.java:142-150 | a stored item with a name and a description still passes validateItem after any patch |
| ItemRules.IsContain | server/src/main/java/ru/practicum/shareit/item/service/ItemService.java:174-176 | throws exactly for a null line; otherwise true exactly when the lower-cased line contains the lower-cased text |
| ItemRules.Keep | server/src/main/java/ru/practicum/shareit/item/service/ItemService.java:166-168 | the only exception the two filters throw is a null dereference |
| ItemRules.KeepMeaning | server/src/main/java/ru/practicum/shareit/item/service/ItemService.java:166-168 | an item is kept exactly when it has a name, is available and its name or description contains the text ignoring case; the filter throws exactly when a null field it reaches is dereferenced |
| ItemRules.KeptAreMentioned | server/src/main/java/ru/practicum/shareit/item/service/ItemService.java:166-168 | every kept item is available and mentions the text |
| ItemRules.KeepAllMentioned | server/src/main/java/ru/practicum/shareit/item/service/ItemService.java:166-168 | every available, named item that mentions the text is kept |
| ItemRules.Filtered | server/src/main/java/ru/practicum/shareit/item/service/ItemService.java:166-169 | throws exactly when some item's filter throws; otherwise an item is in the result exactly when it is kept, with no more copies than in the input |
| ItemRules.FilteredInOrder | server/src/main/java/ru/practicum/shareit/item/service/ItemService.java:166-169 | when nothing throws, the result is the kept items in input order |
| ItemRules.Search | server/src/main/java/ru/practicum/shareit/item/service/ItemService.java:163-172 | empty text gives an empty list without fetching; otherwise the filtered items, all of them fetched and kept |
| ItemRules.SearchIgnoresCase | server/src/main/java/ru/practicum/shareit/item/service/ItemService.java:174-176 | searching for the lower-cased text gives the same result as searching for the text |
| ItemRules.FilteredIgnoresCase | server/src/main/java/ru/practicum/shareit/item/service/ItemService.java:174-176 | lower-casing the text changes no item's decision |
| ServerItems.CommentResult | server/src/main/java/ru/practicum/shareit/item/service/ItemService.java:68-90 | an unknown author, then an unknown item, then an empty text are reported in that order; then an author with no booking of the item that ended before `now` gets NotABooker (BAD_REQUEST), and one with two such bookings gets NonUniqueResult; the comment succeeds exactly when every check passes and there is one such booking; a comment carries the next id, the text, the stored item and author, and `created == now` |
| ServerItems.ToItem | server/src/main/java/ru/practicum/shareit/item/service/ItemService.java:104 | the item built from a dto has the dto's fields, the given id, owner and request |
| ServerItems.RequestOf | server/src/main/java/ru/practicum/shareit/item/service/ItemService.java:97-103 | no request id gives no request; an unknown request id fails; a known one gives the stored request with that id |
| ServerItems.NewItemResult | server/src/main/java/ru/practicum/shareit/item/service/ItemService.java:92-106 | succeeds exactly when the owner is stored, name and description are present and any request id is known; failures in that order, an unknown request id last with Missing(RequestEntity); the item has the next id, the stored owner and the dto's fields |
| ServerItems.UpdateResult | server/src/main/java/ru/practicum/shareit/item/service/ItemService.java:130-161 | an unknown caller, then an unknown item, then a caller who does not own it, then an unknown request id of the merged dto fail; it succeeds exactly when none of these fails; the result keeps the id, fills each null field from the stored item and takes the stored request the merged dto names |
| ServerItems.EmptyUpdateDropsRequest | server/src/main/java/ru/practicum/shareit/item/service/ItemService.java:152-160 | an update with no fields and no request id keeps the stored fields but clears the item's request |
| ServerItems.SearchItems | server/src/main/java/ru/practicum/shareit/item/service/ItemService.java:163-176 | empty text gives an empty list; otherwise the result is exactly the kept items of the fetched page in page order: each is available and mentions the text, and every available named item of the page that mentions the text is there; it throws a null dereference exactly when some item of the page has a null field the filters read; at most one page |
| ServerItems.LastBooking | server/src/main/java/ru/practicum/shareit/item/service/ItemService.java:183-189 | present exactly when a booking of the item has started; it is the started booking with the highest id |
| ServerItems.NextBooking | server/src/main/java/ru/practicum/shareit/item/service/ItemService.java:191-197 | present exactly when a booking of the item is still to start; it is the upcoming booking with the lowest id |
| ServerItems.ItemView | server/src/main/java/ru/practicum/shareit/item/service/ItemService.java:199-206 | the item's own fields; last and next booking only when the caller owns the item, and then the ones the queries give; the item's comments for every caller |
| ServerItems.OwnerSeesBookings | server/src/main/java/ru/practicum/shareit/item/service/ItemService.java:183-206 | the owner sees a last booking exactly when one has started and a next booking exactly when one is still to start |
| ServerItems.CommentsForEveryone | server/src/main/java/ru/practicum/shareit/item/service/ItemService.java:199-206 | any two callers see the same comments, which are the item's comments, newest first |
| ServerItems.GetItemById | server/src/main/java/ru/practicum/shareit/item/service/ItemService.java:178-207 | an unknown item is NOT_FOUND; otherwise the caller's view of the stored item |
| ServerItems.ViewsOf | server/src/main/java/ru/practicum/shareit/item/service/ItemService.java:212-214 | one view per listed item, each what getItemById gives for it, in list order |
| ServerItems.GetAllItemsByUser | server/src/main/java/ru/practicum/shareit/item/service/ItemService.java:209-215 | one entry per item of the owner's page, in page order, with that item's id |
| ServerItems.OwnerSeesOwnBookings | server/src/main/java/ru/practicum/shareit/item/service/ItemService.java:209-215 | with unique item ids, each entry is the owner's view of the listed item, so its last and next bookings are shown |
| ServerItems.ItemService.constructor | server/src/main/java/ru/practicum/shareit/item/service/ItemService.java:56-66 | both counters start at 0 over empty item and comment tables |
| ServerItems.ItemService.GenerateItemId | server/src/main/java/ru/practicum/shareit/item/service/ItemService.java:56-60 | returns the previous item counter plus one; the comment counter is untouched |
| ServerItems.ItemService.GenerateCommentId | server/src/main/java/ru/practicum/shareit/item/service/ItemService.java:62-66 | returns the previous comment counter plus one; the item counter is untouched |
| ServerItems.ItemService.CreateComment | server/src/main/java/ru/practicum/shareit/item/service/ItemService.java:68-77 | returns CommentResult for the next comment id; on success exactly that comment is appended; on failure nothing changes |
| ServerItems.ItemService.CreateItem | server/src/main/java/ru/practicum/shareit/item/service/ItemService.java:92-106 | returns NewItemResult for the next item id; on success exactly that item is appended; on failure nothing changes |
| ServerItems.ItemService.UpdateItem | server/src/main/java/ru/practicum/shareit/item/service/ItemService.java:130-161 | returns UpdateResult; on success the stored item is replaced; on failure nothing changes |
| ServerItems.ItemService.DeleteItem | server/src/main/java/ru/practicum/shareit/item/service/ItemService.java:217-219 | the rows with that id are dropped and no other table changes |
| MonolithItems.NewItemResult | src/main/java/ru/practicum/shareit/item/service/ItemService.java:84-103 | succeeds exactly when the owner is stored and name and description are present; failures in that order; the item has the next id, the stored owner, the dto's fields and no request |
| MonolithItems.UpdateResult | src/main/java/ru/practicum/shareit/item/service/ItemService.java:116-139 | an unknown caller, then an unknown item, then a non-owner fail; otherwise the item keeps its id, fills each null field from the stored one and has no request |
| MonolithItems.UpdateKeepsValid | src/main/java/ru/practicum/shareit/item/service/ItemService.java:128-136 | a stored item with a name and a description keeps both after an update |
| MonolithItems.SearchItems | src/main/java/ru/practicum/shareit/item/service/ItemService.java:141-154 | empty text gives an empty list; otherwise it throws a null dereference exactly when some stored item has a null field the filters read, and else returns exactly the kept items in table order: each is stored, available and mentions the text, and every available named item that mentions it is found |
| MonolithItems.ItemView | src/main/java/ru/practicum/shareit/item/service/ItemService.java:161-182 | the item's fields; last and next booking only for the owner, the last one started before `now`, the next one starting after it; the item's comments for every caller |
| MonolithItems.GetItemById | src/main/java/ru/practicum/shareit/item/service/ItemService.java:157-183 | an unknown item is NOT_FOUND; otherwise the caller's view of the stored item |
| MonolithItems.ViewsOf | src/main/java/ru/practicum/shareit/item/service/ItemService.java:188-190 | one view per listed item, each what getItemById gives for it |
| MonolithItems.OwnItems | src/main/java/ru/practicum/shareit/item/service/ItemService.java:187 | an item is listed exactly when it is stored and the user owns it |
| MonolithItems.GetAllItemsByUser | src/main/java/ru/practicum/shareit/item/service/ItemService.java:185-191 | one entry per item the user owns, in table order |
| MonolithItems.ItemService.constructor | src/main/java/ru/practicum/shareit/item/service/ItemService.java:48-58 | both counters start at 0 over empty item and comment tables |
| MonolithItems.ItemService.GenerateItemId | src/main/java/ru/practicum/shareit/item/service/ItemService.java:48-52 | returns the previous item counter plus one |
| MonolithItems.ItemService.GenerateCommentId | src/main/java/ru/practicum/shareit/item/service/ItemService.java:54-58 | returns the previous comment counter plus one |
| MonolithItems.ItemService.CreateComment | src/main/java/ru/practicum/shareit/item/service/ItemService.java:60-82 | the same checks as the server's createComment; on success exactly one comment is appended; on failure nothing changes |
| MonolithItems.ItemService.CreateItem | src/main/java/ru/practicum/shareit/item/service/ItemService.java:84-92 | returns NewItemResult for the next id; on success exactly that item is appended; on failure nothing changes |
| MonolithItems.ItemService.UpdateItem | src/main/java/ru/practicum/shareit/item/service/ItemService.java:116-139 | returns UpdateResult; the setters on the dto give the merged item, which replaces the stored one; on failure nothing changes |
| MonolithItems.ItemService.DeleteItem | src/main/java/ru/practicum/shareit/item/service/ItemService.java:193-195 | the rows with that id are dropped and no other table changes |
| InMemoryStore.ItemStorage.constructor | src/main/java/ru/practicum/shareit/item/storage/ItemStorageInMemory.java:16 | the map starts empty |
| InMemoryStore.ItemStorage.CreateItem | src/main/java/ru/practicum/shareit/item/storage/ItemStorageInMemory.java:19-22 | the item is put under its id and returned; it is then found by that id; other entries are unchanged |
| InMemoryStore.ItemStorage.UpdateItem | src/main/java/ru/practicum/shareit/item/storage/ItemStorageInMemory.java:25-28 | the same put as createItem, replacing any item with that id |
| InMemoryStore.ItemStorage.SearchItems | src/main/java/ru/practicum/shareit/item/storage/ItemStorageInMemory.java:31-36 | every stored item, each exactly as stored and once |
| InMemoryStore.ItemStorage.GetItemById | src/main/java/ru/practicum/shareit/item/storage/ItemStorageInMemory.java:39-41 | null exactly for an absent id; otherwise the item stored under it |
| InMemoryStore.ItemStorage.GetAllItemsByUser | src/main/java/ru/practicum/shareit/item/storage/ItemStorageInMemory.java:44-50 | for a present user id, a stored item is listed exactly when its owner has that id, each once; a null user id throws on the first entry and gives an empty list on an empty map |
| InMemoryStore.ItemStorage.DeleteItem | src/main/java/ru/practicum/shareit/item/storage/ItemStorageInMemory.java:53-55 | only that key is removed |
| InMemoryStore.UserStorage.constructor | src/main/java/ru/practicum/shareit/user/UserStorageInMemory.java:19-21 | the map and the e-mail set start empty |
| InMemoryStore.UserStorage.CreateUser | src/main/java/ru/practicum/shareit/user/UserStorageInMemory.java:29-33 | the user is put under its id and its e-mail is added to the set |
| InMemoryStore.UserStorage.UpdateUser | src/main/java/ru/practicum/shareit/user/UserStorageInMemory.java:36-41 | the user is put under its id; its e-mail is removed and added again, so the set gains it and keeps the user's previous e-mail |
| InMemoryStore.UserStorage.GetUserById | src/main/java/ru/practicum/shareit/user/UserStorageInMemory.java:44-46 | null exactly for a null or absent id; otherwise the user stored under it |
| InMemoryStore.UserStorage.GetAllUsers | src/main/java/ru/practicum/shareit/user/UserStorageInMemory.java:49-54 | every stored user, each exactly as stored and once |
| InMemoryStore.UserStorage.DeleteUser | src/main/java/ru/practicum/shareit/user/UserStorageInMemory.java:57-61 | an absent id throws and changes nothing; otherwise the entry and its e-mail are removed and nothing else |
| InMemoryStore.AddUserKeepsEmails | src/main/java/ru/practicum/shareit/user/UserStorageInMemory.java:29-33 | adding a new user whose e-mail is not in use keeps the set equal to the stored e-mails, all distinct |
| InMemoryStore.ReplaceUserKeepsEmails | src/main/java/ru/practicum/shareit/user/UserStorageInMemory.java:36-41 | replacing a user by one with its own e-mail or an unused one, and swapping the e-mails in the set, keeps the set exact |
| InMemoryStore.RemoveUserKeepsEmails | src/main/java/ru/practicum/shareit/user/UserStorageInMemory.java:57-61 | removing a user together with its e-mail keeps the set exact |
| InMemoryStore.InSetMeansTaken | src/main/java/ru/practicum/shareit/user/service/UserService.java:89-97 | while the set is exact, an e-mail is in it exactly when a stored user has it |
| InMemoryItems.CheckUser | src/main/java/ru/practicum/shareit/item/ItemService.java:57-66 | a null user id, then a missing owner, both NOT_FOUND; passes otherwise |
| InMemoryItems.CreateResult | src/main/java/ru/practicum/shareit/item/ItemService.java:37-44 | succeeds exactly when the user id is given, the owner is stored and name and description are present; failures in that order; the item has the next id, the owner, the dto's fields and no request |
| InMemoryItems.UpdateResult | src/main/java/ru/practicum/shareit/item/ItemService.java:68-88 | an unknown item throws before any check; then the user checks; then a non-owner fails; otherwise the merged item under the path id, owned by the caller's current record |
| InMemoryItems.EmptyUpdateKeepsItem | src/main/java/ru/practicum/shareit/item/ItemService.java:68-88 | an update by the owner that sends no field gives the stored item back |
| InMemoryItems.UpdateKeepsValid | src/main/java/ru/practicum/shareit/item/ItemService.java:77-87 | a stored item with a name and a description keeps both after an update |
| InMemoryItems.ItemService.constructor | src/main/java/ru/practicum/shareit/item/ItemService.java:25-31 | the counter starts at 0 over an empty item map |
| InMemoryItems.ItemService.GenerateItemId | src/main/java/ru/practicum/shareit/item/ItemService.java:31-35 | returns the previous counter plus one |
| InMemoryItems.ItemService.CreateItem | src/main/java/ru/practicum/shareit/item/ItemService.java:37-44 | returns CreateResult for the next id; on success the item goes under a key that was free; on failure nothing changes |
| InMemoryItems.ItemService.UpdateItem | src/main/java/ru/practicum/shareit/item/ItemService.java:68-88 | returns UpdateResult; on success the stored item under that id is replaced; on failure nothing changes |
| InMemoryItems.ItemService.SearchItems | src/main/java/ru/practicum/shareit/item/ItemService.java:90-103 | empty text gives an empty list; otherwise it throws a null dereference exactly when some stored item has a null field the filters read, and else returns exactly the kept items in the map's iteration order: each is stored, available and mentions the text, and every available named item that mentions it is found |
| InMemoryUsers.CreateResult | src/main/java/ru/practicum/shareit/user/service/UserService.java:34-41 | succeeds exactly when the e-mail is present, contains '@' and is not in the set; the form is checked before uniqueness (BAD_REQUEST, then CONFLICT); the user gets the next id |
| InMemoryUsers.Patched | src/main/java/ru/practicum/shareit/user/service/UserService.java:44-59 | the stored user keeps the path id, and takes the dto's name and e-mail where sent and its own where null |
| InMemoryUsers.EmptyPatchKeepsUser | src/main/java/ru/practicum/shareit/user/service/UserService.java:44-59 | a patch that sends no field leaves the user as stored |
| InMemoryUsers.UpdateResult | src/main/java/ru/practicum/shareit/user/service/UserService.java:43-63 | an unknown id is NOT_FOUND; an e-mail held in the set other than the user's own is CONFLICT; then a failed form check is BAD_REQUEST (InvalidEmail); otherwise the patched user |
| InMemoryUsers.KeepingEmailNeverConflicts | src/main/java/ru/practicum/shareit/user/service/UserService.java:51-54 | an update that keeps the user's own valid e-mail always succeeds |
| InMemoryUsers.UserService.constructor | src/main/java/ru/practicum/shareit/user/service/UserService.java:28 | the counter starts at 0 over an empty storage |
| InMemoryUsers.UserService.GenerateUserId | src/main/java/ru/practicum/shareit/user/service/UserService.java:28-32 | returns the previous counter plus one |
| InMemoryUsers.UserService.CreateUser | src/main/java/ru/practicum/shareit/user/service/UserService.java:34-41 | returns CreateResult for the next id; on success the user goes under a free key and its e-mail into the set; on failure nothing changes; an exact e-mail set stays exact |
| InMemoryUsers.UserService.UpdateUser | src/main/java/ru/practicum/shareit/user/service/UserService.java:43-63 | returns UpdateResult; a CONFLICT leaves the set without the user's old e-mail, a bad form leaves it without the old and with the new one; a success keeps an exact set exact |
| InMemoryUsers.UserService.UpdateUserChecked | src/main/java/ru/practicum/shareit/user/service/UserService.java:43-63 | the same results with both e-mail checks made before the set is touched: every failure changes nothing, and the set stays exact on every path |
| InMemoryUsers.UserService.GetUserById | src/main/java/ru/practicum/shareit/user/service/UserService.java:65-70 | NOT_FOUND exactly for an unknown id; otherwise the stored user |
| InMemoryUsers.UserService.DeleteUser | src/main/java/ru/practicum/shareit/user/service/UserService.java:76-87 | NOT_FOUND for an unknown id and nothing changes; otherwise the user and its e-mail are removed, and an exact set stays exact |
| InMemoryUsers.TwoRegisteredUsers | src/main/java/ru/practicum/shareit/user/service/UserService.java:34-41 | on a fresh service, registering Ann and then Bob with distinct well-formed e-mails gives them ids 1 and 2 and puts both e-mails in the set |
| InMemoryUsers.DuplicateEmailAfterFailedUpdate | src/main/java/ru/practicum/shareit/user/service/UserService.java:51-55 | after a failed update, a new user can register an e-mail a stored user still has, leaving two users with one e-mail |
| InMemoryUsers.DuplicateEmailRefusedWhenChecked | src/main/java/ru/practicum/shareit/user/service/UserService.java:89-97 | the same calls with the checked update end in CONFLICT for the new user |
| ServerUsers.ValidateUserByEmailChecked | server/src/main/java/ru/practicum/shareit/user/service/UserServiceImpl.java:90-95 | fails exactly when another stored user has the e-mail, with CONFLICT |
| ServerUsers.CreateResult | server/src/main/java/ru/practicum/shareit/user/service/UserServiceImpl.java:34-42 | as written, succeeds exactly when the e-mail is present and contains '@', whatever other users hold; the user gets the next id |
| ServerUsers.CreateResultChecked | server/src/main/java/ru/practicum/shareit/user/service/UserServiceImpl.java:34-42 | with the intended uniqueness check, succeeds exactly when in addition no other stored user has the e-mail |
| ServerUsers.GetUserById | server/src/main/java/ru/practicum/shareit/user/service/UserServiceImpl.java:64-71 | NOT_FOUND exactly for an unknown id; otherwise the stored user with that id |
| ServerUsers.UpdateResult | server/src/main/java/ru/practicum/shareit/user/service/UserServiceImpl.java:44-62 | an unknown id is NOT_FOUND; otherwise the user patched as the in-memory service patches it, refused exactly when the patched e-mail fails the form check |
| ServerUsers.SaveKeepsEmailsUnique | server/src/main/java/ru/practicum/shareit/user/service/UserServiceImpl.java:40-41 | saving a user whose e-mail no other stored user has keeps the e-mails unique |
| ServerUsers.CheckedCreateKeepsEmailsUnique | server/src/main/java/ru/practicum/shareit/user/service/UserServiceImpl.java:34-42 | the corrected createUser keeps the e-mails unique |
| ServerUsers.DuplicateEmailAccepted | server/src/main/java/ru/practicum/shareit/user/service/UserServiceImpl.java:90-95 | as written, a second user registers a stored user's e-mail and the table then holds two users with it; the checked version refuses with CONFLICT |
| ServerUsers.UserService.constructor | server/src/main/java/ru/practicum/shareit/user/service/UserServiceImpl.java:28 | the counter starts at 0 over an empty user table |
| ServerUsers.UserService.GenerateUserId | server/src/main/java/ru/practicum/shareit/user/service/UserServiceImpl.java:28-32 | returns the previous counter plus one |
| ServerUsers.UserService.CreateUser | server/src/main/java/ru/practicum/shareit/user/service/UserServiceImpl.java:34-42 | returns CreateResult for the next id; on success exactly that user is appended; on failure nothing changes |
| ServerUsers.UserService.UpdateUser | server/src/main/java/ru/practicum/shareit/user/service/UserServiceImpl.java:44-62 | returns UpdateResult; on success the stored user is replaced; on failure nothing changes |
| ServerUsers.UserService.DeleteUser | server/src/main/java/ru/practicum/shareit/user/service/UserServiceImpl.java:78-82 | no existence check: the rows with that id, if any, are dropped |
| ItemRequests.GetUser | src/main/java/ru/practicum/shareit/requests/service/ItemRequestService.java:95-98 | fails exactly when no user has the id; otherwise the stored user |
| ItemRequests.ValidateItemRequest | src/main/java/ru/practicum/shareit/requests/service/ItemRequestService.java:88-93 | passes exactly when the description is present; BAD_REQUEST otherwise |
| ItemRequests.CreateResult | src/main/java/ru/practicum/shareit/requests/service/ItemRequestService.java:46-56 | an unknown user, then a null description fail; the request has the next id, the description, the stored user as requester and `created == now` |
| ItemRequests.GetItemRequestById | src/main/java/ru/practicum/shareit/requests/service/ItemRequestService.java:58-68 | the caller is checked before the request; an unknown request is NOT_FOUND; otherwise the request's fields with exactly the items that answer it, in table order |
| ItemRequests.ViewsOf | src/main/java/ru/practicum/shareit/requests/service/ItemRequestService.java:70-86 | one view per listed request, each what getItemRequestById gives for it |
| ItemRequests.GetAllItemRequestsByRequester | src/main/java/ru/practicum/shareit/requests/service/ItemRequestService.java:70-77 | an unknown caller fails; otherwise one view per own request, in fetched order |
| ItemRequests.GetAllItemRequestsByPage | src/main/java/ru/practicum/shareit/requests/service/ItemRequestService.java:79-86 | an unknown caller fails; otherwise one view per other users' request on the page, in fetched order |
| ItemRequests.CreatedRequestIsFound | src/main/java/ru/practicum/shareit/requests/service/ItemRequestService.java:46-68 | a request just saved under a fresh id is found by id with the description and time it was created with |
| ItemRequests.ItemRequestService.constructor | src/main/java/ru/practicum/shareit/requests/service/ItemRequestService.java:40 | the counter starts at 0 over an empty request table |
| ItemRequests.ItemRequestService.GenerateItemRequestId | src/main/java/ru/practicum/shareit/requests/service/ItemRequestService.java:40-44 | returns the previous counter plus one |
| ItemRequests.ItemRequestService.CreateItemRequest | src/main/java/ru/practicum/shareit/requests/service/ItemRequestService.java:46-56 | returns CreateResult for the next id; on success exactly that request is appended and is found by id; on failure nothing changes |
| CommentQueries.CommentsByItem | server/src/main/java/ru/practicum/shareit/item/repository/CommentRepository.java:14-19 | a comment is listed exactly when its item has the id; ordered by id descending; exactly the item's comments, unpaged |
| CommentQueries.CommentsByItemUnique | server/src/main/java/ru/practicum/shareit/item/repository/CommentRepository.java:17 | unique comment ids give a list with unique ids |
| RequestQueries.RequestsByRequester | server/src/main/java/ru/practicum/shareit/requests/repository/ItemRequestRepository.java:15-20 | a request is listed exactly when the user made it |
| RequestQueries.OtherUsersRequests | server/src/main/java/ru/practicum/shareit/requests/repository/ItemRequestRepository.java:22-27 | every listed request was made by another user; at most one page; row `k` of the page is row `page * size + k` of the other users' requests, and the page is short only at their end |
| RequestQueries.RequestsPartition | server/src/main/java/ru/practicum/shareit/requests/repository/ItemRequestRepository.java:15-27 | for one user, the two results are disjoint and together are the whole table (on a page as large as it) |
| RequestQueries.OtherUsersRequestsUnique | server/src/main/java/ru/practicum/shareit/requests/repository/ItemRequestRepository.java:25 | unique request ids give a page with unique ids |
| ItemQueries.ItemsByOwner | src/main/java/ru/practicum/shareit/item/repository/ItemRepository.java:13-18 | every listed item is owned by the user; at most one page; row `k` of the page is row `page * size + k` of the user's items, and the page is short only at their end |
| ItemQueries.ItemsByOwnerComplete | src/main/java/ru/practicum/shareit/item/repository/ItemRepository.java:13-18 | on a page as large as the table, an item is listed exactly when the user owns it |
| ItemQueries.ItemsByRequest | src/main/java/ru/practicum/shareit/item/repository/ItemRepository.java:20-25 | an item is listed exactly when it answers that request |
| ItemQueries.ItemQueriesUnique | src/main/java/ru/practicum/shareit/item/repository/ItemRepository.java:16-23 | unique item ids give lists with unique ids |
| BookingMapper.ToBooking | src/main/java/ru/practicum/shareit/booking/mapper/BookingMapper.java:30-39 | mapping the booking back gives the given id, the dto's dates and status, the item's id and the booker's id |
| BookingMapper.ToBookingDtoCollection | src/main/java/ru/practicum/shareit/booking/mapper/BookingMapper.java:13-17 | one transfer object per booking, same length and order |
| ServerBookingMapper.ToBookingDtoItem | server/src/main/java/ru/practicum/shareit/booking/mapper/BookingMapper.java:33-44 | the same fields as toBookingDto, with the booker replaced by its id |
| ServerBookingMapper.ToBooking | server/src/main/java/ru/practicum/shareit/booking/mapper/BookingMapper.java:46-55 | mapping the booking back gives the given id, booker and item with the dto's dates and status |
| ServerBookingMapper.ToBookingDtoCollection | server/src/main/java/ru/practicum/shareit/booking/mapper/BookingMapper.java:14-18 | one transfer object per booking, same length and order |
| ItemMapper.ToCommentDtoCollection | src/main/java/ru/practicum/shareit/item/mapper/ItemMapper.java:19-32 | one transfer object per comment, same length and order, the author shown by name |
| ItemMapper.ToItemDtoCollection | src/main/java/ru/practicum/shareit/item/mapper/ItemMapper.java:34-47 | one transfer object per item, same length and order |
| ItemMapper.ToItem | src/main/java/ru/practicum/shareit/item/mapper/ItemMapper.java:62-70 | the item has the given id and owner and no request, and toItemDto gives back the dto's fields under that id |
| ItemMapper.ItemRoundTrip | src/main/java/ru/practicum/shareit/item/mapper/ItemMapper.java:40-70 | an item without a request is rebuilt exactly from its transfer object, id and owner |
| LegacyItemMapper.ToItemDtoCollection | src/main/java/ru/practicum/shareit/item/ItemMapper.java:15-22 | the loop yields one transfer object per item, in iteration order |
| UserMapper.ToUserDto | src/main/java/ru/practicum/shareit/user/mapper/UserMapper.java:19-33 | `toUser(toUserDto(u)) == u` |
| UserMapper.DtoRoundTrip | src/main/java/ru/practicum/shareit/user/mapper/UserMapper.java:19-33 | `toUserDto(toUser(d)) == d` |
| UserMapper.ToUserDtoCollection | src/main/java/ru/practicum/shareit/user/mapper/UserMapper.java:13-17 | one transfer object per user, same length and order |
| LegacyUserMapper.ToUserDtoCollection | src/main/java/ru/practicum/shareit/user/UserMapper.java:12-19 | the loop yields one transfer object per user, in iteration order |
| ItemRequestMapper.ToItemRequest | server/src/main/java/ru/practicum/shareit/requests/mapper/ItemRequestMapper.java:29-46 | toItemRequestDto of the result gives back the id, the dto's description, the user and the timestamp |
| Store.Database.SaveUser | server/src/main/java/ru/practicum/shareit/user/service/UserServiceImpl.java:40 | the user is upserted by id; the other tables are unchanged |
| Store.Database.SaveItem | server/src/main/java/ru/practicum/shareit/item/service/ItemService.java:105 | the item is upserted by id; the other tables are unchanged |
| Store.Database.SaveBooking | src/main/java/ru/practicum/shareit/booking/service/BookingService.java:70 | the booking is upserted by id; the other tables are unchanged |
| Store.Database.SaveComment | server/src/main/java/ru/practicum/shareit/item/service/ItemService.java:76 | the comment is upserted by id; the other tables are unchanged |
| Store.Database.SaveRequest | src/main/java/ru/practicum/shareit/requests/service/ItemRequestService.java:55 | the request is upserted by id; the other tables are unchanged |
| Store.Database.DeleteUserById | server/src/main/java/ru/practicum/shareit/user/service/UserServiceImpl.java:81 | the rows with that id are dropped; the other tables are unchanged |
| Store.Database.DeleteItemById | server/src/main/java/ru/practicum/shareit/item/service/ItemService.java:218 | the rows with that id are dropped; the other tables are unchanged |
| Store.DeleteFind | server/src/main/java/ru/practicum/shareit/item/service/ItemService.java:217-219 | after deleteById the id is not found and every other id finds what it found before |
| Text.Lower | server/src/main/java/ru/practicum/shareit/item/service/ItemService.java:175 | same length, every ASCII capital replaced by its lower-case letter |
| Text.LowerIdempotent | server/src/main/java/ru/practicum/shareit/item/service/ItemService.java:175 | lower-casing twice is lower-casing once |
| Text.UpperAscii | gateway/src/main/java/ru/practicum/shareit/booking/dto/BookingState.java:24 | lower-case ASCII letters become their capitals, other characters are unchanged |
| Text.LowerAscii | server/src/main/java/ru/practicum/shareit/item/service/ItemService.java:175 | ASCII capitals become their lower-case letters, other characters are unchanged |

## Left out

- The HTTP controllers, the gateway clients and the exception handler. The state token's default "ALL" and the `@Positive`/`@PositiveOrZero` parameter annotations live there. The monolith BookingController has no class-level `@Validated`, so the model takes those annotations as not enforced.
- The wall clock: `LocalDateTime.now()` is a `now` parameter, one value per service call. `BookingLifecycle.ValidateDate` compares both dates with that one `now`, although validateDate reads the clock twice (src/main/java/ru/practicum/shareit/booking/service/BookingService.java:173 and :177); the two reads are taken to be the same instant.
- Unicode case folding: `toLowerCase` and `equalsIgnoreCase` are modelled over ASCII letters only.
- Java integer widths: ids, counters and `from`/`size` are unbounded integers, and `Integer`/`Long` overflow is not modelled.
- Null `Long` ids passed to the JPA services. Spring's `findById(null)` throws, so a null id never reaches the checks after it. In particular, the null tests in ItemRequestService.validateUser (src/main/java/ru/practicum/shareit/requests/service/ItemRequestService.java:100-109) are unreachable and are not modelled.
- The `Sort` inside a PageRequest, and how it combines with a query's own `order by`. `order by count(distinct id)` puts no order on rows, and the model keeps table order for it.
- Spring's `deleteById` on a missing id is modelled as a no-op.
- HashMap iteration order is a parameter (`Seqs.IterationOrder`), not a fixed order.
- Logging.
- Pure delegations that add nothing to the call they make: the in-memory ItemService's getItemById, getAllItemsOfUser and deleteItem; the in-memory UserService's getAllUsers; the server's getAllUsers. The storage members they call are modelled.
- The server's four-argument ItemMapper.toItem is not part of this model. `ServerItems.ToItem` takes it to copy the dto's fields with the given id, owner and request, as its three-argument counterpart does.
- The server's ValidationUser is not part of this model. It is taken to be the same e-mail predicate as the monolith's (`EmailValidation.ValidateUser`).
- The monolith's ItemRequestMapper is not part of this model. The server's mapper is used for the item request service.
- The single-result last/next booking queries that the monolith's item service calls are not part of this model. They are taken to return the first row of the server's paged queries (`ServerItems.LastBooking`, `ServerItems.NextBooking`).
- The storage behind user.service.UserService is not part of this model. It is taken to behave as UserStorageInMemory does (`InMemoryStore.UserStorage`).
- A null `text` in CommentDtoIn is not modelled. The text is a string, possibly empty.
- The transfer-object constructors with no logic (toBookingDto, toCommentDto, toItemDto, toItemByIdDto, toItemRequestDto, toItemRequestByIdDto, toUser) have no contracts of their own. Their fields are stated through the round trips and the views that use them.
- A database-level unique constraint on e-mails is not part of this model.
- The monolith's BookingRepository (src/main/java/ru/practicum/shareit/booking/repository/BookingRepository.java) does not declare the `findBookerByItemId` that its item service calls (src/main/java/ru/practicum/shareit/item/service/ItemService.java:77). `MonolithItems.ItemService.CreateComment` takes it to be the server's query, through `ServerItems.CommentResult`.
- The monolith's BookingRepository (src/main/java/ru/practicum/shareit/booking/repository/BookingRepository.java:12-45) declares only unpaged booker-or-owner queries and `getWaitingRejectedBookingsByUser(Long, String)`. Its BookingService (src/main/java/ru/practicum/shareit/booking/service/BookingService.java:116-166) calls paged per-side queries that it does not declare, such as `getAllBookingsByUser(userId, pageRequest)`, `getAllBookingsByOwner` and `getWaitingRejectedBookingsByBooker`. `BookingLifecycle.BookingsFor` and `BookingLifecycle.BookingsForComplete` take these calls to be the server's queries (`BookingQueries.Bookings`).
- The monolith's ItemRepository declares `getAllItemsByUser` with a PageRequest (src/main/java/ru/practicum/shareit/item/repository/ItemRepository.java:13-18), but its item service calls a one-argument form (src/main/java/ru/practicum/shareit/item/service/ItemService.java:187). `MonolithItems.OwnItems` takes that call to be the paged query on one page as large as the table.
- The mapping of BookingStatus to its database column is not part of this model. `LegacyBookingQueries.BookingsOfUserWithStatus` takes the `String textStatus` bound against `b.status` to match the status's name (`LegacyBookingQueries.StatusName`).
- The services start from an empty database only: each constructor requires empty tables and sets its id counter to 0. With rows already stored, a counter that restarts at 0 would hand out ids that collide with them, and the model does not cover that case.
- CANCELED is declared in BookingStatus but never assigned. `BookingLifecycle.CreateResultMeaning` and `BookingLifecycle.Decide` show that only WAITING, APPROVED and REJECTED are ever set.

## Findings

| source | as written | input that shows it | evidently intended | confidence | as-written member | corrected member |
|---|---|---|---|---|---|---|
| src/main/java/ru/practicum/shareit/user/service/UserService.java:51-55 | updateUser removes the user's old e-mail from the e-mail set before checking the new e-mail's uniqueness and form, and does not put it back when a check throws | users 1 "ann@mail" and 2 "bob@mail"; user 1 updates to "bob@mail", which fails with CONFLICT; a new user then registers "ann@mail", which succeeds while user 1 still has it | a failed update leaves the e-mail set unchanged, so e-mails stay unique | not executed | InMemoryUsers.DuplicateEmailAfterFailedUpdate | InMemoryUsers.UserService.UpdateUserChecked |
| server/src/main/java/ru/practicum/shareit/user/service/UserServiceImpl.java:90-95 | validateUserByEmail asks the list of all users whether it contains the e-mail string; no user equals a string, so the check never fails | user 1 "ann@mail" is stored; a new user registers with "ann@mail" and is saved as user 2 | CONFLICT when another stored user already has the e-mail | not executed | ServerUsers.DuplicateEmailAccepted | ServerUsers.CreateResultChecked |
