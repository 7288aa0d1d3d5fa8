/**
 * The `book-seats` edge function: validate the request, check that every requested
 * seat of the show exists and is AVAILABLE, flip them to PENDING with a write guarded
 * on that status, and record a PENDING booking that expires two minutes later,
 * undoing the seat writes when a later step fails.
 */
module BookSeats {
  import opened Seqs
  import opened Store
  import opened Api

  /**
   * Everything outside the handler that decides its course: what the expiry sweep
   * leaves, which store calls fail, what another invocation writes between the read
   * and the guarded write, and the id the store gives the new booking.
   */
  datatype ReserveEnv = ReserveEnv(
    sweep: Option<Tables>,
    fetchFails: bool,
    interference: map<SeatId, SeatStatus>,
    updateFails: bool,
    newId: BookingId,
    insertFails: bool,
    rollbackFails: bool)

  const MissingFields := "Missing required fields: showId, seatIds (array), userEmail"
  const FetchFailed := "Failed to fetch seats"
  const NotFound := "Some seats were not found"
  const NotAvailable := "Some seats are not available"
  const ReserveFailed := "Failed to reserve seats"
  const JustTaken := "Some seats were just taken by another user. Please try again."
  const CreateFailed := "Failed to create booking"

  /** The request names a show, a user and a non-empty array of seat ids. */
  predicate WellFormed(r: ReserveRequest)
  {
    Truthy(r.showId) && r.seatIds.SeatIdList? && |r.seatIds.ids| > 0 && Truthy(r.userEmail)
  }

  /** The requested seats that are not AVAILABLE, in request order. */
  function Unavailable(seats: map<SeatId, Seat>, ids: seq<SeatId>): (r: seq<SeatId>)
    ensures forall x :: x in r <==> x in ids && x in seats && seats[x].status != AVAILABLE
    ensures r == [] <==> forall x :: x in ids && x in seats ==> seats[x].status == AVAILABLE
    ensures |r| <= |ids|
    decreases |ids|
  {
    if ids == [] then []
    else
      var rest := Unavailable(seats, ids[1..]);
      assert forall x :: x in ids[1..] ==> x in ids;
      var x := ids[0];
      if x in seats && seats[x].status != AVAILABLE then [x] + rest else rest
  }

  /** The seat numbers of the given seats, in the same order. */
  function SeatNumbers(seats: map<SeatId, Seat>, ids: seq<SeatId>): (r: seq<int>)
    requires forall x :: x in ids ==> x in seats
    ensures |r| == |ids|
    ensures forall i :: 0 <= i < |ids| ==> r[i] == seats[ids[i]].seatNumber
  {
    seq(|ids|, i requires 0 <= i < |ids| => seats[ids[i]].seatNumber)
  }

  /** The seats that the guarded AVAILABLE -> PENDING write catches. */
  function Caught(seats: map<SeatId, Seat>, ids: seq<SeatId>): set<SeatId>
  {
    set x | x in ids && x in seats && seats[x].status == AVAILABLE
  }

  /**
   * The response and the tables S, B that the handler may leave, for a well-formed
   * request, starting from the tables S0, B0 the sweep left. S1 is the seats table
   * after the writes of another invocation between the read and the guarded write.
   */
  ghost predicate ReserveOutcome(S0: map<SeatId, Seat>, B0: map<BookingId, Booking>,
                                 show: ShowId, ids: seq<SeatId>, email: string, now: int, env: ReserveEnv,
                                 res: Response, S: map<SeatId, Seat>, B: map<BookingId, Booking>)
  {
    var found := NoDup(ids) && AllMatch(S0, ids, Some(show), None);
    // the seat read fails
    && (env.fetchFails ==>
          res == Error(500, FetchFailed) && S == S0 && B == B0)
    // a seat is missing, belongs to another show, or is asked for twice
    && (!env.fetchFails && !found ==>
          res == Error(400, NotFound) && S == S0 && B == B0)
    // some seat is not AVAILABLE: the numbers of exactly those seats are reported
    && (!env.fetchFails && found && Unavailable(S0, ids) != [] ==>
          res == Response(409, ErrorBody(NotAvailable, Some(SeatNumbers(S0, Unavailable(S0, ids)))))
          && S == S0 && B == B0)
    // every requested seat exists and was AVAILABLE at the read
    && (!env.fetchFails && found && Unavailable(S0, ids) == [] ==>
          AcquireOutcome(Interfere(S0, env.interference), B0, show, ids, email, now, env, res, S, B)
          && SeatNumbers(S0, ids) == SeatNumbers(Interfere(S0, env.interference), ids))
  }

  /**
   * The outcome of the writes, from the seats S1 that the guarded write sees and the
   * bookings B0.
   */
  ghost predicate AcquireOutcome(S1: map<SeatId, Seat>, B0: map<BookingId, Booking>,
                                 show: ShowId, ids: seq<SeatId>, email: string, now: int, env: ReserveEnv,
                                 res: Response, S: map<SeatId, Seat>, B: map<BookingId, Booking>)
    requires forall x :: x in ids ==> x in S1
  {
    var expiresAt := now + HoldDuration;
    // the guarded write fails
    && (env.updateFails ==>
          res == Error(500, ReserveFailed) && S == S1 && B == B0)
    // the guarded write catches fewer rows: those are set back unless that write fails
    && (!env.updateFails && Unavailable(S1, ids) != [] ==>
          res == Error(409, JustTaken) && B == B0
          && S == (if env.rollbackFails then SetStatus(S1, Caught(S1, ids), PENDING) else S1))
    // the insert fails: every requested seat is set back unless that write fails
    && (!env.updateFails && Unavailable(S1, ids) == [] && (env.insertFails || env.newId in B0) ==>
          res == Error(500, CreateFailed) && B == B0
          && S == (if env.rollbackFails then SetStatus(S1, Elems(ids), PENDING) else S1))
    // success: the seats are PENDING and one new PENDING booking holds them
    && (!env.updateFails && Unavailable(S1, ids) == [] && !env.insertFails && env.newId !in B0 ==>
          res == Response(200, SuccessBody(BookingPayload(env.newId, BookingPending, Some(expiresAt),
                                                          Some(SeatNumbers(S1, ids)))))
          && B == B0[env.newId := Booking(show, email, ids, BookingPending, expiresAt)]
          && S == SetStatus(S1, Elems(ids), PENDING))
  }

  /**
   * The handler. `body` is the parsed JSON (`None`: not JSON); `now` is the clock in
   * milliseconds. A malformed request touches nothing; otherwise the sweep runs and
   * `ReserveOutcome` gives the response and both tables for every path.
   */
  method Reserve(db: Database, body: Option<ReserveRequest>, now: int, env: ReserveEnv) returns (res: Response)
    modifies db
    ensures body.None? ==> res == Unexpected() && db.seats == old(db.seats) && db.bookings == old(db.bookings)
    ensures body.Some? && !WellFormed(body.value) ==>
              res == Error(400, MissingFields) && db.seats == old(db.seats) && db.bookings == old(db.bookings)
    ensures body.Some? && WellFormed(body.value) ==>
              ReserveOutcome(SweptSeats(old(db.seats), env.sweep), SweptBookings(old(db.bookings), env.sweep),
                             body.value.showId.value, body.value.seatIds.ids, body.value.userEmail.value,
                             now, env, res, db.seats, db.bookings)
  {
    if body.None? {
      return Unexpected();
    }
    var r := body.value;
    if !WellFormed(r) {
      return Error(400, MissingFields);
    }
    db.ExpirePendingBookings(env.sweep);
    res := ReserveSwept(db, r.showId.value, r.seatIds.ids, r.userEmail.value, now, env);
  }

  /** Lines 36-146 of the handler: everything after the sweep. */
  method ReserveSwept(db: Database, show: ShowId, ids: seq<SeatId>, email: string, now: int, env: ReserveEnv)
    returns (res: Response)
    modifies db
    ensures ReserveOutcome(old(db.seats), old(db.bookings), show, ids, email, now, env, res, db.seats, db.bookings)
  {
    if env.fetchFails {
      return Error(500, FetchFailed);
    }
    var rows := Rows(db.seats, ids, Some(show), None);
    RowsFacts(db.seats, ids, Some(show), None);
    if |rows| != |ids| {
      return Error(400, NotFound);
    }
    var unavailable := Unavailable(db.seats, rows);
    if |unavailable| > 0 {
      return Response(409, ErrorBody(NotAvailable, Some(SeatNumbers(db.seats, unavailable))));
    }
    var numbers := SeatNumbers(db.seats, rows);
    db.OtherSeatWrites(env.interference);
    res := Acquire(db, show, ids, email, now, numbers, env);
  }

  /** From the guarded write on: the seats are known to exist and `numbers` are their seat numbers. */
  method Acquire(db: Database, show: ShowId, ids: seq<SeatId>, email: string, now: int, numbers: seq<int>,
                 env: ReserveEnv) returns (res: Response)
    requires NoDup(ids)
    requires forall x :: x in ids ==> x in db.seats
    requires numbers == SeatNumbers(db.seats, ids)
    modifies db
    ensures AcquireOutcome(old(db.seats), old(db.bookings), show, ids, email, now, env, res, db.seats, db.bookings)
  {
    if env.updateFails {
      return Error(500, ReserveFailed);
    }
    ghost var S1 := db.seats;
    var updated := db.UpdateSeatsWhere(ids, AVAILABLE, PENDING);
    RowsFacts(S1, ids, None, Some(AVAILABLE));
    assert Elems(updated) == Caught(S1, ids);
    if |updated| != |ids| {
      if |updated| > 0 && !env.rollbackFails {
        db.UpdateSeats(Elems(updated), AVAILABLE);
        RollbackRestores(S1, Caught(S1, ids));
      } else if !env.rollbackFails {
        assert Caught(S1, ids) == {};
        assert db.seats == S1;
      }
      return Error(409, JustTaken);
    }
    assert Caught(S1, ids) == Elems(ids);

    var expiresAt := now + HoldDuration;
    var ok := false;
    if !env.insertFails {
      ok := db.InsertBooking(env.newId, Booking(show, email, ids, BookingPending, expiresAt));
    }
    if !ok {
      if !env.rollbackFails {
        db.UpdateSeats(Elems(ids), AVAILABLE);
        RollbackRestores(S1, Elems(ids));
      }
      return Error(500, CreateFailed);
    }
    return Response(200, SuccessBody(BookingPayload(env.newId, BookingPending, Some(expiresAt), Some(numbers))));
  }

  // Properties of every outcome the handler may leave

  /** The handler reports "not found" exactly when the seat query returns fewer rows than ids were asked for. */
  lemma NotFoundIffShortRead(S0: map<SeatId, Seat>, B0: map<BookingId, Booking>, show: ShowId, ids: seq<SeatId>,
                             email: string, now: int, env: ReserveEnv, res: Response, S: map<SeatId, Seat>,
                             B: map<BookingId, Booking>)
    requires ReserveOutcome(S0, B0, show, ids, email, now, env, res, S, B)
    requires !env.fetchFails
    ensures res == Error(400, NotFound) <==> |Rows(S0, ids, Some(show), None)| != |ids|
    ensures res == Error(400, NotFound) ==> S == S0 && B == B0
  {
    RowsFacts(S0, ids, Some(show), None);
  }

  /** A request that names a seat twice is refused as "not found", and nothing is written. */
  lemma DuplicateIdsRejected(S0: map<SeatId, Seat>, B0: map<BookingId, Booking>, show: ShowId, ids: seq<SeatId>,
                             email: string, now: int, env: ReserveEnv, res: Response, S: map<SeatId, Seat>,
                             B: map<BookingId, Booking>, i: nat, j: nat)
    requires ReserveOutcome(S0, B0, show, ids, email, now, env, res, S, B)
    requires !env.fetchFails && i < j < |ids| && ids[i] == ids[j]
    ensures res == Error(400, NotFound) && S == S0 && B == B0
  {
  }

  /** Every outcome short of success leaves the bookings table as the sweep left it. */
  lemma NoBookingUnlessSuccess(S0: map<SeatId, Seat>, B0: map<BookingId, Booking>, show: ShowId, ids: seq<SeatId>,
                               email: string, now: int, env: ReserveEnv, res: Response, S: map<SeatId, Seat>,
                               B: map<BookingId, Booking>)
    requires ReserveOutcome(S0, B0, show, ids, email, now, env, res, S, B)
    requires res.status != 200
    ensures B == B0
  {
  }

  /**
   * The handler writes no seat outside the request: a seat whose id was not asked
   * for keeps its row, apart from a status another invocation wrote.
   */
  lemma OnlyRequestedSeatsWritten(S0: map<SeatId, Seat>, B0: map<BookingId, Booking>, show: ShowId, ids: seq<SeatId>,
                                  email: string, now: int, env: ReserveEnv, res: Response, S: map<SeatId, Seat>,
                                  B: map<BookingId, Booking>, x: SeatId)
    requires ReserveOutcome(S0, B0, show, ids, email, now, env, res, S, B)
    requires x in S0 && x !in ids
    ensures x in S
    ensures S[x] == S0[x] || S[x] == Interfere(S0, env.interference)[x]
  {
  }

  /**
   * On success every requested seat is PENDING, and the bookings table gained exactly
   * one row: a PENDING booking of the request that expires two minutes after `now`.
   */
  lemma SuccessHoldsSeats(S0: map<SeatId, Seat>, B0: map<BookingId, Booking>, show: ShowId, ids: seq<SeatId>,
                          email: string, now: int, env: ReserveEnv, res: Response, S: map<SeatId, Seat>,
                          B: map<BookingId, Booking>)
    requires ReserveOutcome(S0, B0, show, ids, email, now, env, res, S, B)
    requires res.status == 200
    ensures forall x :: x in ids ==> x in S && S[x].status == PENDING
    ensures env.newId !in B0 && B.Keys == B0.Keys + {env.newId}
    ensures forall k :: k in B0 ==> B[k] == B0[k]
    ensures B[env.newId] == Booking(show, email, ids, BookingPending, now + 120000)
    ensures res.body == SuccessBody(BookingPayload(env.newId, BookingPending, Some(now + 120000), Some(SeatNumbers(S0, ids))))
  {
    RowsFacts(S0, ids, Some(show), None);
  }

  /**
   * When the guarded write loses the race and the rollback goes through, every seat
   * it caught is AVAILABLE again: the seats are as the other invocation left them.
   */
  lemma LostRaceRollsBack(S0: map<SeatId, Seat>, B0: map<BookingId, Booking>, show: ShowId, ids: seq<SeatId>,
                          email: string, now: int, env: ReserveEnv, res: Response, S: map<SeatId, Seat>,
                          B: map<BookingId, Booking>)
    requires ReserveOutcome(S0, B0, show, ids, email, now, env, res, S, B)
    requires res == Error(409, JustTaken) && !env.rollbackFails
    ensures S == Interfere(S0, env.interference) && B == B0
    ensures forall x :: x in Caught(Interfere(S0, env.interference), ids) ==> S[x].status == AVAILABLE
  {
  }

  /** When the insert fails and the rollback goes through, every requested seat is AVAILABLE again. */
  lemma FailedInsertRollsBack(S0: map<SeatId, Seat>, B0: map<BookingId, Booking>, show: ShowId, ids: seq<SeatId>,
                              email: string, now: int, env: ReserveEnv, res: Response, S: map<SeatId, Seat>,
                              B: map<BookingId, Booking>)
    requires ReserveOutcome(S0, B0, show, ids, email, now, env, res, S, B)
    requires res == Error(500, CreateFailed) && !env.rollbackFails
    ensures B == B0
    ensures forall x :: x in ids ==> x in S && S[x].status == AVAILABLE
  {
  }
}
