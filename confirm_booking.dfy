/**
 * The `confirm-booking` edge function: look the booking up, refuse anything that is
 * not PENDING, fail an expired hold and release its seats, and otherwise mark the
 * booking CONFIRMED (guarded on PENDING) and its seats BOOKED.
 */
module ConfirmBooking {
  import opened Seqs
  import opened Store
  import opened Api

  /**
   * Everything outside the handler that decides its course: what the sweep leaves,
   * which store calls fail, and a status another invocation may write to the booking
   * between the read and the guarded CONFIRMED write.
   */
  datatype ConfirmEnv = ConfirmEnv(
    sweep: Option<Tables>,
    fetchFails: bool,
    markFailedFails: bool,
    releaseFails: bool,
    interference: Option<BookingStatus>,
    confirmFails: bool,
    seatsFail: bool)

  const MissingId := "Missing required field: bookingId"
  const BookingNotFound := "Booking not found"
  const Expired := "Booking has expired"
  const ConfirmFailed := "Failed to confirm booking"

  /** The message for a booking that is no longer PENDING; it names the current status. */
  function NotPendingMessage(st: BookingStatus): string
  {
    "Booking cannot be confirmed. Current status: " + BookingStatusName(st)
  }

  /** A hold has expired when its deadline lies strictly before `now`. */
  predicate HasExpired(b: Booking, now: int)
  {
    b.expiresAt < now
  }

  /**
   * The response and the tables S, B that the handler may leave for booking `id`,
   * starting from the tables S0, B0 the sweep left.
   */
  ghost predicate ConfirmOutcome(S0: map<SeatId, Seat>, B0: map<BookingId, Booking>, id: BookingId, now: int,
                                 env: ConfirmEnv, res: Response, S: map<SeatId, Seat>, B: map<BookingId, Booking>)
  {
    // the read fails or finds nothing
    && (env.fetchFails || id !in B0 ==>
          res == Error(404, BookingNotFound) && S == S0 && B == B0)
    && (!env.fetchFails && id in B0 ==>
          var b := B0[id];
          // not PENDING: rejected with the current status, nothing written
          && (b.status != BookingPending ==>
                res == Error(400, NotPendingMessage(b.status)) && S == S0 && B == B0)
          // expired: marked FAILED and every seat of the booking released, unguarded
          && (b.status == BookingPending && HasExpired(b, now) ==>
                res == Error(400, Expired)
                && B == (if env.markFailedFails then B0 else B0[id := b.(status := Failed)])
                && S == (if env.releaseFails then S0 else SetStatus(S0, Elems(b.seatIds), AVAILABLE)))
          // still valid: the guarded write, then the seats
          && (b.status == BookingPending && !HasExpired(b, now) ==>
                var B1 := if env.interference.Some? then B0[id := b.(status := env.interference.value)] else B0;
                && (env.confirmFails ==>
                      res == Error(500, ConfirmFailed) && S == S0 && B == B1)
                && (!env.confirmFails ==>
                      // a booking another invocation moved off PENDING is not written, yet the
                      // seats are still booked and success is still reported
                      res == Response(200, SuccessBody(BookingPayload(id, Confirmed, None, None)))
                      && B == (if B1[id].status == BookingPending then B0[id := b.(status := Confirmed)] else B1)
                      && S == (if env.seatsFail then S0 else SetStatus(S0, Elems(b.seatIds), BOOKED)))))
  }

  /**
   * The handler. `body` is the parsed JSON (`None`: not JSON); `now` is the clock in
   * milliseconds. A request without a booking id touches nothing; otherwise the
   * sweep runs and `ConfirmOutcome` gives the response and both tables.
   */
  method Confirm(db: Database, body: Option<ConfirmRequest>, now: int, env: ConfirmEnv) returns (res: Response)
    modifies db
    ensures body.None? ==> res == Unexpected() && db.seats == old(db.seats) && db.bookings == old(db.bookings)
    ensures body.Some? && !Truthy(body.value.bookingId) ==>
              res == Error(400, MissingId) && db.seats == old(db.seats) && db.bookings == old(db.bookings)
    ensures body.Some? && Truthy(body.value.bookingId) ==>
              ConfirmOutcome(SweptSeats(old(db.seats), env.sweep),
                             SweptBookings(old(db.bookings), env.sweep),
                             body.value.bookingId.value, now, env, res, db.seats, db.bookings)
  {
    if body.None? {
      return Unexpected();
    }
    if !Truthy(body.value.bookingId) {
      return Error(400, MissingId);
    }
    var id := body.value.bookingId.value;

    db.ExpirePendingBookings(env.sweep);

    if env.fetchFails || id !in db.bookings {
      return Error(404, BookingNotFound);
    }
    var b := db.bookings[id];
    if b.status != BookingPending {
      return Error(400, NotPendingMessage(b.status));
    }
    if HasExpired(b, now) {
      if !env.markFailedFails {
        db.UpdateBookingStatus(id, None, Failed);
      }
      if !env.releaseFails {
        db.UpdateSeats(Elems(b.seatIds), AVAILABLE);
      }
      return Error(400, Expired);
    }

    if env.interference.Some? {
      db.OtherBookingWrite(id, env.interference.value);
    }
    if env.confirmFails {
      return Error(500, ConfirmFailed);
    }
    db.UpdateBookingStatus(id, Some(BookingPending), Confirmed);
    if !env.seatsFail {
      db.UpdateSeats(Elems(b.seatIds), BOOKED);
    }
    return Response(200, SuccessBody(BookingPayload(id, Confirmed, None, None)));
  }

  // Properties of every outcome the handler may leave

  /** The rejection message tells the statuses apart: it names the booking's current status. */
  lemma NotPendingNamesStatus(a: BookingStatus, b: BookingStatus)
    ensures NotPendingMessage(a) == NotPendingMessage(b) <==> a == b
  {
    var prefix := "Booking cannot be confirmed. Current status: ";
    if NotPendingMessage(a) == NotPendingMessage(b) {
      assert NotPendingMessage(a)[|prefix|..] == BookingStatusName(a);
      assert NotPendingMessage(b)[|prefix|..] == BookingStatusName(b);
    }
  }

  /** A booking that is no longer PENDING is refused with its status named, and nothing is written. */
  lemma NotPendingRejected(S0: map<SeatId, Seat>, B0: map<BookingId, Booking>, id: BookingId, now: int,
                           env: ConfirmEnv, res: Response, S: map<SeatId, Seat>, B: map<BookingId, Booking>)
    requires ConfirmOutcome(S0, B0, id, now, env, res, S, B)
    requires !env.fetchFails && id in B0 && B0[id].status != BookingPending
    ensures res.status == 400 && res.body.ErrorBody?
    ensures BookingStatusName(B0[id].status) == res.body.error[|"Booking cannot be confirmed. Current status: "|..]
    ensures S == S0 && B == B0
  {
  }

  /**
   * An expired PENDING booking ends FAILED with every one of its seats AVAILABLE
   * (when both writes go through), and the caller is told it expired.
   */
  lemma ExpiredReleases(S0: map<SeatId, Seat>, B0: map<BookingId, Booking>, id: BookingId, now: int,
                        env: ConfirmEnv, res: Response, S: map<SeatId, Seat>, B: map<BookingId, Booking>)
    requires ConfirmOutcome(S0, B0, id, now, env, res, S, B)
    requires !env.fetchFails && id in B0 && B0[id].status == BookingPending && B0[id].expiresAt < now
    requires !env.markFailedFails && !env.releaseFails
    ensures res == Error(400, Expired)
    ensures id in B && B[id].status == Failed && B[id].seatIds == B0[id].seatIds
    ensures forall x :: x in B0[id].seatIds && x in S0 ==> S[x].status == AVAILABLE
  {
  }

  /** The deadline itself still counts as in time: a booking confirmed at `expires_at` is not expired. */
  lemma DeadlineIsInTime(S0: map<SeatId, Seat>, B0: map<BookingId, Booking>, id: BookingId, now: int,
                         env: ConfirmEnv, res: Response, S: map<SeatId, Seat>, B: map<BookingId, Booking>)
    requires ConfirmOutcome(S0, B0, id, now, env, res, S, B)
    requires !env.fetchFails && id in B0 && B0[id].status == BookingPending && B0[id].expiresAt == now
    requires env.interference.None? && !env.confirmFails
    ensures res.status == 200 && B[id].status == Confirmed
  {
  }

  /**
   * A PENDING booking in time ends CONFIRMED with its seats BOOKED, and the response
   * is `{id, status: CONFIRMED}`.
   */
  lemma InTimeConfirms(S0: map<SeatId, Seat>, B0: map<BookingId, Booking>, id: BookingId, now: int,
                       env: ConfirmEnv, res: Response, S: map<SeatId, Seat>, B: map<BookingId, Booking>)
    requires ConfirmOutcome(S0, B0, id, now, env, res, S, B)
    requires !env.fetchFails && id in B0 && B0[id].status == BookingPending && !HasExpired(B0[id], now)
    requires env.interference.None? && !env.confirmFails && !env.seatsFail
    ensures res == Response(200, SuccessBody(BookingPayload(id, Confirmed, None, None)))
    ensures B == B0[id := B0[id].(status := Confirmed)]
    ensures forall x :: x in B0[id].seatIds && x in S0 ==> S[x].status == BOOKED
  {
  }

  /** A failed seat write after the confirmation changes nothing the caller sees: 200 and CONFIRMED. */
  lemma SeatFailureStillSucceeds(S0: map<SeatId, Seat>, B0: map<BookingId, Booking>, id: BookingId, now: int,
                                 env: ConfirmEnv, res: Response, S: map<SeatId, Seat>, B: map<BookingId, Booking>)
    requires ConfirmOutcome(S0, B0, id, now, env, res, S, B)
    requires !env.fetchFails && id in B0 && B0[id].status == BookingPending && !HasExpired(B0[id], now)
    requires env.interference.None? && !env.confirmFails && env.seatsFail
    ensures res.status == 200 && B[id].status == Confirmed && S == S0
  {
  }

  /**
   * The guarded CONFIRMED write that catches no row goes unnoticed: if another
   * invocation moved the booking off PENDING in between, the booking keeps that
   * status, yet its seats are booked and success is reported.
   */
  lemma ZeroRowConfirmUndetected(S0: map<SeatId, Seat>, B0: map<BookingId, Booking>, id: BookingId, now: int,
                                 env: ConfirmEnv, res: Response, S: map<SeatId, Seat>, B: map<BookingId, Booking>)
    requires ConfirmOutcome(S0, B0, id, now, env, res, S, B)
    requires !env.fetchFails && id in B0 && B0[id].status == BookingPending && !HasExpired(B0[id], now)
    requires env.interference == Some(Failed) && !env.confirmFails && !env.seatsFail
    ensures res.status == 200 && B[id].status == Failed
    ensures forall x :: x in B0[id].seatIds && x in S0 ==> S[x].status == BOOKED
  {
  }

  /**
   * Confirmation is not idempotent: once a confirm succeeded, a second confirm of the
   * same booking (with a sweep that leaves the tables alone) is refused with status
   * CONFIRMED, and writes nothing.
   */
  lemma SecondConfirmRefused(S0: map<SeatId, Seat>, B0: map<BookingId, Booking>, id: BookingId, now: int,
                             env: ConfirmEnv, res: Response, S1: map<SeatId, Seat>, B1: map<BookingId, Booking>,
                             now2: int, env2: ConfirmEnv, res2: Response, S2: map<SeatId, Seat>, B2: map<BookingId, Booking>)
    requires ConfirmOutcome(S0, B0, id, now, env, res, S1, B1)
    requires env.interference.None? && res.status == 200
    requires ConfirmOutcome(S1, B1, id, now2, env2, res2, S2, B2)
    requires !env2.fetchFails
    ensures res2 == Error(400, NotPendingMessage(Confirmed))
    ensures S2 == S1 && B2 == B1
  {
    assert id in B1 && B1[id].status == Confirmed;
  }
}
