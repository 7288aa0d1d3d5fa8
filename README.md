# Seat reservation: a Dafny model

This project models the core of a small cinema-style booking application. Users pick seats
of a show on a grid. The `book-seats` edge function holds those seats for two minutes with
a PENDING booking. The `confirm-booking` edge function turns a booking still inside its
hold into a CONFIRMED booking, with its seats BOOKED. An admin form creates shows.

The model has these parts:

- `Seqs` and `Store` (store.dfy): the two tables (`seats`, `bookings`) held by a `Database`
  class. Each query and update the handlers issue is a method on that class, including:
  - the guarded `update … .eq('status', …)`;
  - the insert under a fresh id;
  - the writes of a concurrent invocation.
- `Api` (api.dfy): request bodies and JSON responses.
- `BookSeats` (book_seats.dfy) and `ConfirmBooking` (confirm_booking.dfy): the two handlers
  as imperative methods over a `Database`.
  - Every path (each store failure, the race between reading a seat and writing it, the
    rollbacks) is spelled out by a ghost outcome predicate that each method is proved
    against.
  - Lemmas over those predicates state what the handlers guarantee.
- `BookingContext` (booking_context.dfy): the client's selection list and current booking,
  as a `BookingProvider` class with the context's update operations.
- `SeatGrid` (seat_grid.dfy): the grid's display class, its disabled rule and its click rule
  for a seat.
- `CreateShowForm` (create_show_form.dfy): the show form's validation. It covers:
  - JavaScript's `trim` and `parseInt`;
  - the form's schema rules;
  - the loop that builds the error map;
  - `handleSubmit` over a `ShowForm` class.
- `Scenarios` (scenarios.dfy): properties of several handler calls in a row.

Outside effects are parameters of the operations:
- the `expire_pending_bookings` sweep (the tables it leaves);
- store failures (booleans);
- the clock (`now`, in milliseconds);
- the id the store assigns;
- a concurrent invocation's writes;
- the result of `new Date(…).toISOString()`;
- the reply a client call receives.

Behaviour worth knowing, as the code has it:
- A request naming a seat that does not exist, belongs to another show, or is named twice
  is answered with 400 "Some seats were not found" (`BookSeats.NotFoundIffShortRead`,
  `BookSeats.DuplicateIdsRejected`).
- A retried confirm of an expired booking reports "Booking cannot be confirmed. Current
  status: FAILED", not "Booking has expired" again (`Scenarios.ExpiredRetryReportsFailed`).
- The guarded CONFIRMED write reports success even when it changes no row
  (`ConfirmBooking.ZeroRowConfirmUndetected`). A failed seat write after the confirmation
  also still reports success (`ConfirmBooking.SeatFailureStillSucceeds`).
- The name rule accepts exactly 100 characters, although its message says "less than 100".
- A seat count too large for a double (2^1024 - 2^970 or more, at least 309 digits) reads as
  Infinity, which fails both `int()` and `max(500)`. The form then shows "Maximum 500 seats
  allowed", the later of the two messages (`CreateShowForm.DecimalSeatCount`,
  `CreateShowForm.FormErrors`).
- Toggling a selected seat twice moves it to the end of the selection
  (`BookingContext.ToggleTwiceReorders`). The list comes back unchanged only when the seat
  was not selected or was already last (`BookingContext.ToggleTwiceAbsent`,
  `BookingContext.ToggleTwiceLast`).

## Model

| member | source | states |
|---|---|---|
| Store.BookingStatusName | supabase/functions/confirm-booking/index.ts:50-56 | each booking status has its own column text: PENDING, CONFIRMED or FAILED, each exactly for its status |
| Store.SeatStatusName | src/components/booking/SeatGrid.tsx:54-63 | each seat status has its own column text: AVAILABLE, PENDING or BOOKED, each exactly for its status |
| Store.Rows | supabase/functions/book-seats/index.ts:36-40 | the ids a `.in('id', ids)` query returns with its filters; characterised by `Store.RowsFacts` |
| Store.RowsFacts | supabase/functions/book-seats/index.ts:36-56 | a seat query returns exactly the matching requested ids, each once; as many rows as ids exactly when the ids are distinct and all match, and then the rows are the request |
| Store.RollbackRestores | supabase/functions/book-seats/index.ts:89-97 | setting back to AVAILABLE the seats an AVAILABLE-to-PENDING write caught gives back the table before that write |
| Store.Database.ExpirePendingBookings | supabase/functions/book-seats/index.ts:31-32 | the sweep leaves the tables it is given, or changes nothing |
| Store.Database.UpdateSeats | supabase/functions/book-seats/index.ts:92-97 | an unguarded seat write sets the status of the named seats and touches no other seat and no booking |
| Store.Database.UpdateSeatsWhere | supabase/functions/book-seats/index.ts:73-78 | the guarded write changes exactly the named seats still in the guard status, and returns exactly those ids |
| Store.Database.OtherSeatWrites | supabase/functions/book-seats/index.ts:71-78 | a concurrent invocation's seat writes land between the read and the guarded write, and change no booking |
| Store.Database.OtherBookingWrite | supabase/functions/confirm-booking/index.ts:78-83 | a concurrent invocation's write sets one booking's status, and changes no seat |
| Store.Database.InsertBooking | supabase/functions/book-seats/index.ts:107-117 | the insert succeeds exactly when the id is fresh, and adds that one row |
| Store.Database.UpdateBookingStatus | supabase/functions/confirm-booking/index.ts:79-83 | the status write changes the booking only when it exists and passes the status guard, without error otherwise |
| BookSeats.Unavailable | supabase/functions/book-seats/index.ts:59 | lists exactly the requested existing seats that are not AVAILABLE; it is empty exactly when every requested seat is AVAILABLE |
| BookSeats.WellFormed | supabase/functions/book-seats/index.ts:24 | the field check: a show id, a non-empty array of seat ids and an e-mail; its consequences are stated by `BookSeats.Reserve` and `BookingContext.BookRequestWellFormed` |
| BookSeats.Reserve | supabase/functions/book-seats/index.ts:20-146 | non-JSON gives the catch-all 500, and a request missing a field gives 400; both leave the store untouched. Otherwise the sweep runs and the response and both tables satisfy the outcome predicate on every path |
| BookSeats.ReserveSwept | supabase/functions/book-seats/index.ts:36-69 | read failure 500; missing, foreign or repeated seats 400; unavailable seats 409 with exactly their numbers; all without writes. Otherwise it proceeds to the writes |
| BookSeats.Acquire | supabase/functions/book-seats/index.ts:71-146 | guarded write failure 500; lost race 409 with the rollback of the caught seats; insert failure 500 with the rollback of all seats; else 200, seats PENDING and one new booking |
| BookSeats.NotFoundIffShortRead | supabase/functions/book-seats/index.ts:50-56 | "not found" is answered exactly when the query returns fewer rows than ids, and then nothing is written |
| BookSeats.DuplicateIdsRejected | supabase/functions/book-seats/index.ts:36-56 | a request naming a seat twice is refused as not found, with no write |
| BookSeats.NoBookingUnlessSuccess | supabase/functions/book-seats/index.ts:107-131 | every non-200 outcome leaves the bookings table as the sweep left it |
| BookSeats.OnlyRequestedSeatsWritten | supabase/functions/book-seats/index.ts:73-125 | a seat not requested keeps its row, apart from a concurrent writer's status |
| BookSeats.SuccessHoldsSeats | supabase/functions/book-seats/index.ts:105-146 | on success every requested seat is PENDING; the bookings table gains exactly one PENDING booking of the request, expiring 120000 ms after now; the response carries its id, status, expiry and the seat numbers |
| BookSeats.LostRaceRollsBack | supabase/functions/book-seats/index.ts:89-102 | after a lost race with the rollback through, seats are as the concurrent writer left them, the caught ones AVAILABLE, and no booking is made |
| BookSeats.FailedInsertRollsBack | supabase/functions/book-seats/index.ts:119-131 | after a failed insert with the rollback through, every requested seat is AVAILABLE and no booking is made |
| ConfirmBooking.Confirm | supabase/functions/confirm-booking/index.ts:20-114 | non-JSON gives the catch-all 500, and a request with no id gives 400; both leave the store untouched. Otherwise the sweep runs and the response and both tables satisfy the outcome predicate on every path |
| ConfirmBooking.HasExpired | supabase/functions/confirm-booking/index.ts:59 | a hold has expired when its deadline lies strictly before now; its boundary is stated by `ConfirmBooking.DeadlineIsInTime` |
| ConfirmBooking.NotPendingMessage | supabase/functions/confirm-booking/index.ts:53 | the refusal text for a booking no longer PENDING; `ConfirmBooking.NotPendingNamesStatus` shows it names the status |
| ConfirmBooking.NotPendingNamesStatus | supabase/functions/confirm-booking/index.ts:50-56 | two not-PENDING messages are equal exactly when the statuses are |
| ConfirmBooking.NotPendingRejected | supabase/functions/confirm-booking/index.ts:50-57 | a booking no longer PENDING is refused with 400, the message names its status, and nothing is written |
| ConfirmBooking.ExpiredReleases | supabase/functions/confirm-booking/index.ts:59-76 | when both writes succeed, a PENDING booking past its deadline ends FAILED with all its seats AVAILABLE, answered with 400 "Booking has expired" |
| ConfirmBooking.DeadlineIsInTime | supabase/functions/confirm-booking/index.ts:59 | a booking confirmed exactly at its deadline is still confirmed |
| ConfirmBooking.InTimeConfirms | supabase/functions/confirm-booking/index.ts:78-114 | a PENDING booking in time becomes CONFIRMED (no other booking changes) with its seats BOOKED, and the response is `{id, status: CONFIRMED}` |
| ConfirmBooking.SeatFailureStillSucceeds | supabase/functions/confirm-booking/index.ts:93-114 | a failed seat write after the confirmation still gives 200 with the booking CONFIRMED and the seats unchanged |
| ConfirmBooking.ZeroRowConfirmUndetected | supabase/functions/confirm-booking/index.ts:78-114 | if a concurrent writer moved the booking to FAILED before the guarded write, it stays FAILED, yet its seats are BOOKED and 200 is answered |
| ConfirmBooking.SecondConfirmRefused | supabase/functions/confirm-booking/index.ts:50-83 | when the sweep in between changes nothing, a second confirm after a successful one is refused with status CONFIRMED and writes nothing |
| Scenarios.HeldSeatRefused | supabase/functions/book-seats/index.ts:59-69 | when the sweep in between changes nothing, a reservation naming a seat held by an earlier successful one is refused with 400 or with 409 listing that seat, and writes nothing |
| Scenarios.RaceLoserTakesNothing | supabase/functions/book-seats/index.ts:73-102 | a reservation whose seat is taken between read and write answers 409, makes no booking and leaves the winner's status on the seat |
| Scenarios.ReserveThenConfirm | supabase/functions/confirm-booking/index.ts:59-114 | when the sweep in between changes nothing, no concurrent write lands and the confirm's writes succeed, reserving and then confirming within two minutes leaves the booking CONFIRMED with its seats BOOKED |
| Scenarios.ExpiredThenFreshReserve | supabase/functions/confirm-booking/index.ts:59-76 | when the sweeps in between change nothing and the writes succeed, a confirm after the hold expired reports the expiry and fails the booking, and a fresh reservation of the same seats then succeeds (a sweep that already failed the booking leads to `Scenarios.ExpiredRetryReportsFailed`'s reply instead) |
| Scenarios.ExpiredRetryReportsFailed | supabase/functions/confirm-booking/index.ts:50-76 | when the sweep in between changes nothing and both expiry writes succeed, retrying an expired confirm is refused as not PENDING with status FAILED, and writes nothing |
| BookingContext.RemoveAll | src/contexts/BookingContext.tsx:117 | the filtered list holds exactly the elements other than the id |
| BookingContext.RemoveAllConcat | src/contexts/BookingContext.tsx:117 | filtering works piece by piece and keeps order |
| BookingContext.RemoveAllAbsent | src/contexts/BookingContext.tsx:117 | filtering out an id that does not occur changes nothing |
| BookingContext.Toggled | src/contexts/BookingContext.tsx:114-120 | the id is present afterwards exactly when it was absent before; other ids keep their membership; an absent id is appended at the end |
| BookingContext.ToggleTwiceAbsent | src/contexts/BookingContext.tsx:114-120 | toggling an unselected id twice gives back the list |
| BookingContext.ToggleTwicePresent | src/contexts/BookingContext.tsx:114-120 | toggling a selected id twice, on a duplicate-free list, moves it to the end: same multiset |
| BookingContext.ToggleTwiceLast | src/contexts/BookingContext.tsx:114-120 | toggling twice the id that is last gives back the list |
| BookingContext.ToggleTwiceReorders | src/contexts/BookingContext.tsx:114-120 | toggling twice can reorder: ["a","b"] becomes ["b","a"] |
| BookingContext.BookingProvider.constructor | src/contexts/BookingContext.tsx:50-51 | the provider starts with no selection and no current booking |
| BookingContext.BookingProvider.ToggleSeatSelection | src/contexts/BookingContext.tsx:114-120 | the selection becomes the toggled list; the current booking is unchanged |
| BookingContext.BookingProvider.ClearSelection | src/contexts/BookingContext.tsx:122-125 | no seat selected and no current booking |
| BookingContext.BookRequestWellFormed | src/contexts/BookingContext.tsx:131-133 | the body `bookSeats` sends passes the handler's field check exactly when the show id and e-mail are not empty and a seat is selected: an empty selection gets the 400 |
| BookingContext.BookingProvider.BookSeats | src/contexts/BookingContext.tsx:127-158 | a success reply records a booking under the reply's id, status and expiry, with the selection as its seats. An invocation error or an error body is thrown with its message, and the state is kept |
| BookingContext.BookingProvider.ConfirmBooking | src/contexts/BookingContext.tsx:160-182 | without an error the current booking becomes CONFIRMED (nothing else changes) and the selection is emptied; with one the error is thrown and the state is kept |
| SeatGrid.SeatClick | src/components/booking/SeatGrid.tsx:66-70 | the selection after a click; characterised by `SeatGrid.DisabledIffNoEffect`, `SeatGrid.SelectedCanBeDeselected` and `SeatGrid.UnavailableNeverSelected` |
| SeatGrid.Disabled | src/components/booking/SeatGrid.tsx:94 | the button's `disabled` test; characterised by `SeatGrid.DisabledIffNoEffect` and `SeatGrid.EnabledIffSelectableClass` |
| SeatGrid.SeatClass | src/components/booking/SeatGrid.tsx:50-64 | a selected seat shows as selected; otherwise each class is shown exactly for its status, and unknown statuses show as booked |
| SeatGrid.DisabledIffNoEffect | src/components/booking/SeatGrid.tsx:66-94 | a button is disabled exactly when clicking it would leave the selection unchanged |
| SeatGrid.EnabledIffSelectableClass | src/components/booking/SeatGrid.tsx:50-94 | a button is enabled exactly when its seat shows as selected or available |
| SeatGrid.StoredStatusShown | src/components/booking/SeatGrid.tsx:54-63 | an unselected seat with a stored status shows that status's class, and is enabled exactly when AVAILABLE |
| SeatGrid.SelectedCanBeDeselected | src/components/booking/SeatGrid.tsx:66-70 | a selected seat is always enabled, and a click removes only it |
| SeatGrid.UnavailableNeverSelected | src/components/booking/SeatGrid.tsx:66-70 | a click on an unavailable, unselected seat never selects it |
| CreateShowForm.Trim | src/components/admin/CreateShowForm.tsx:12 | `String.prototype.trim`; characterised by `CreateShowForm.TrimIsInnerSlice` and `CreateShowForm.TrimIdempotent` |
| CreateShowForm.TrimStartFacts | src/components/admin/CreateShowForm.tsx:12 | trimming the start keeps a suffix after white space only, starting with a non-space |
| CreateShowForm.TrimEndFacts | src/components/admin/CreateShowForm.tsx:12 | trimming the end keeps a prefix before white space only, ending with a non-space |
| CreateShowForm.TrimIsInnerSlice | src/components/admin/CreateShowForm.tsx:12 | `trim` keeps one slice of the input with only white space around it, neither starting nor ending in white space |
| CreateShowForm.TrimIdempotent | src/components/admin/CreateShowForm.tsx:12 | trimming twice is trimming once |
| CreateShowForm.TrimStartSkips | src/components/admin/CreateShowForm.tsx:33 | leading white space is skipped up to the first non-space |
| CreateShowForm.Digits | src/components/admin/CreateShowForm.tsx:33 | the decimal digits of a number: none empty, all digits, no leading zero |
| CreateShowForm.ParseInt | src/components/admin/CreateShowForm.tsx:33 | `parseInt` with no radix, as an exact integer or NaN; characterised by `CreateShowForm.ParseIntReadsDecimal` |
| CreateShowForm.ParseIntReadsDecimal | src/components/admin/CreateShowForm.tsx:33 | `parseInt` reads back any integer written in decimal, after leading white space and before any non-digit tail |
| CreateShowForm.SeatCount | src/components/admin/CreateShowForm.tsx:33 | `parseInt(totalSeats)`, with NaN and zero turned into 0, as a JavaScript number, finite or infinite; characterised by `CreateShowForm.DecimalSeatCount`, `CreateShowForm.UnparsableSeatsRejected` and `CreateShowForm.AcceptedSeatsParsed` |
| CreateShowForm.DecimalSeatCount | src/components/admin/CreateShowForm.tsx:33 | a decimal seat count reads as itself inside the double range; from 2^1024 - 2^970 on it reads as Infinity, and the seat rule reports the `int()` issue, then the `max(500)` issue |
| CreateShowForm.Validate | src/components/admin/CreateShowForm.tsx:30-34 | `safeParse`'s issue list, field by field in schema order; characterised by `CreateShowForm.ValidateByField` |
| CreateShowForm.NameIssues | src/components/admin/CreateShowForm.tsx:12 | the name rule's issues; characterised by `CreateShowForm.FieldPaths` and `CreateShowForm.FieldMessages` |
| CreateShowForm.StartTimeIssues | src/components/admin/CreateShowForm.tsx:13 | the start-time rule's issues; characterised by `CreateShowForm.FieldPaths` and `CreateShowForm.FieldMessages` |
| CreateShowForm.SeatIssues | src/components/admin/CreateShowForm.tsx:14 | the seat-count rule's issues, from `int()`, `min(1)` and `max(500)` in that order; characterised by `CreateShowForm.FieldPaths` and `CreateShowForm.FieldMessages` |
| CreateShowForm.FieldPaths | src/components/admin/CreateShowForm.tsx:11-15 | each field rule reports one issue for its own field when the field fails and none otherwise, except an infinite seat count, which reports two |
| CreateShowForm.ValidateByField | src/components/admin/CreateShowForm.tsx:11-15 | the schema passes exactly when all three field rules hold; it reports issues for exactly the failing fields, in schema order, and names a field twice exactly when the seat count is infinite |
| CreateShowForm.FieldMessages | src/components/admin/CreateShowForm.tsx:12-14 | each rule reports exactly its own message, and one exactly when its field fails; an infinite seat count reports "Expected integer, received float" before its bound's message |
| CreateShowForm.UnparsableSeatsRejected | src/components/admin/CreateShowForm.tsx:33 | a seat count `parseInt` cannot read counts as 0 and is rejected with "At least 1 seat is required" |
| CreateShowForm.AcceptedSeatsParsed | src/components/admin/CreateShowForm.tsx:48 | a seat count that passes the schema is exactly what `parseInt` reads |
| CreateShowForm.CollectErrors | src/components/admin/CreateShowForm.tsx:37-42 | the map has one entry per non-empty field path of the issues, holding the message of the last issue for that field |
| CreateShowForm.ErrorMapUnique | src/components/admin/CreateShowForm.tsx:36-45 | at most one error map fits a list of issues |
| CreateShowForm.ErrorMapOfDistinct | src/components/admin/CreateShowForm.tsx:37-42 | when no two issues share a field, every issue's message is in the map |
| CreateShowForm.ErrorMapDropShadowed | src/components/admin/CreateShowForm.tsx:37-42 | an issue followed later by another issue for the same field leaves no trace in the error map |
| CreateShowForm.FormErrors | src/components/admin/CreateShowForm.tsx:36-45 | for the show schema the error map holds an entry exactly for each failing field, with that rule's message; for an infinite seat count, the bound's message, not `int()`'s |
| CreateShowForm.ShowForm.constructor | src/components/admin/CreateShowForm.tsx:21-24 | the inputs start empty and no error is shown |
| CreateShowForm.ShowForm.HandleSubmit | src/components/admin/CreateShowForm.tsx:26-63 | a rejected form shows the error map of its issues and keeps its inputs. An accepted one shows no errors and calls `createShow` with the untrimmed name, the ISO start time and the `parseInt` seat count, within 1..500. The inputs are cleared exactly when that call returns normally |

## Left out

- The `expire_pending_bookings` database function: its body is not part of this model. Each handler takes the tables it leaves as a parameter (or "no change").
- HTTP, CORS, `OPTIONS` requests, logging and the `success: true` / `details` fields of the responses: they do not affect any state or decision. A body that is not JSON is modelled as `None` and gets the catch-all 500 of the `catch` block.
- The clock: `Date.now()` and the timestamps are integer milliseconds passed in. ISO-8601 formatting and parsing are not modelled; `HandleSubmit` takes the result of `toISOString` as a parameter.
- The order of rows returned by `.in('id', ids)`: the store gives no order. The model returns them in the order the ids first occur in the request.
- Network calls on the client: `fetchSeats` after booking or confirming, `fetchShows`, and `createShow`'s insert. Whether `createShow` throws is a parameter. How supabase-js turns a non-2xx reply into `invokeError` is the `Invocation` parameter.
- The realtime seat subscription, the grid's column layout, the loading and error flags, toasts and all rendering: presentation only.
- The e-mail check of the booking form: that form is not part of this model.
- `parseInt` above 2^53: JavaScript numbers lose precision there, and the model keeps the exact integer while it stays below the Infinity threshold. Such values fail the 1..500 rule either way, and every finite double that large is an integer, so `int()` passes for them in both.
- The Infinity threshold of `parseInt`: the model rounds correctly to the nearest double. The language lets an engine ignore digits after the 20th, which may move the threshold by a hair's width; it does not change which rules fail for a seat count.
- Failed store writes: a store call that reports an error is taken to have written nothing. This covers the guarded seat write (`updateFails`) and the ignored errors of the rollbacks and the expiry writes.
- Concurrent writers: other invocations' writes are modelled at one point per handler. For `book-seats` that point is between the seat read and the guarded write; for `confirm-booking` it is between the expiry check and the guarded CONFIRMED write. Nothing lands between the guarded write and its rollback, or before confirm's FAILED write.
- Multi-call properties: each later call in `Scenarios` (and `ConfirmBooking.SecondConfirmRefused`) starts from the tables the earlier call left. That is, the sweep in between is assumed to change nothing.
- String lengths: `trim().min/max` count UTF-16 code units, and the model counts Dafny characters. They agree except on characters outside the Basic Multilingual Plane.
