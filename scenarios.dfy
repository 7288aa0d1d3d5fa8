/**
 * Properties of several handler calls in a row: each call's outcome starts from the
 * tables the previous one left (with a sweep that leaves them alone).
 */
module Scenarios {
  import opened Seqs
  import opened Store
  import opened Api
  import opened BookSeats
  import opened ConfirmBooking

  /** Setting statuses never moves a seat to another show. */
  lemma SetStatusKeepsShows(seats: map<SeatId, Seat>, ids: set<SeatId>, st: SeatStatus, xs: seq<SeatId>, show: ShowId)
    requires AllMatch(seats, xs, Some(show), None)
    ensures AllMatch(SetStatus(seats, ids, st), xs, Some(show), None)
  {
  }

  /**
   * A seat held by one successful reservation cannot be taken by the next one: that
   * call is refused at the read (400 or 409, and a 409 lists the held seat's number),
   * and it writes nothing.
   */
  lemma HeldSeatRefused(S0: map<SeatId, Seat>, B0: map<BookingId, Booking>, show: ShowId, ids: seq<SeatId>,
                        email: string, now: int, env: ReserveEnv, res: Response,
                        S1: map<SeatId, Seat>, B1: map<BookingId, Booking>,
                        show2: ShowId, ids2: seq<SeatId>, email2: string, now2: int, env2: ReserveEnv,
                        res2: Response, S2: map<SeatId, Seat>, B2: map<BookingId, Booking>, x: SeatId)
    requires ReserveOutcome(S0, B0, show, ids, email, now, env, res, S1, B1) && res.status == 200
    requires ReserveOutcome(S1, B1, show2, ids2, email2, now2, env2, res2, S2, B2) && !env2.fetchFails
    requires x in ids && x in ids2
    ensures S2 == S1 && B2 == B1
    ensures res2 == Error(400, NotFound) || (res2.status == 409 && x in Unavailable(S1, ids2))
  {
    SuccessHoldsSeats(S0, B0, show, ids, email, now, env, res, S1, B1);
  }

  /**
   * Two reservations that both read a seat as AVAILABLE race at the guarded write.
   * When the other invocation's write gets there first, this call reports the lost
   * race, creates no booking, and (its rollback going through) leaves every seat as
   * the winner left it: the winner keeps the seat.
   */
  lemma RaceLoserTakesNothing(S0: map<SeatId, Seat>, B0: map<BookingId, Booking>, show: ShowId, ids: seq<SeatId>,
                              email: string, now: int, env: ReserveEnv, res: Response,
                              S: map<SeatId, Seat>, B: map<BookingId, Booking>, x: SeatId)
    requires ReserveOutcome(S0, B0, show, ids, email, now, env, res, S, B)
    requires !env.fetchFails && NoDup(ids) && AllMatch(S0, ids, Some(show), None) && Unavailable(S0, ids) == []
    requires x in ids && x in env.interference && env.interference[x] != AVAILABLE
    requires !env.updateFails && !env.rollbackFails
    ensures res == Error(409, JustTaken) && B == B0
    ensures S == Interfere(S0, env.interference) && S[x].status == env.interference[x]
  {
    var S1 := Interfere(S0, env.interference);
    assert x in S1 && S1[x].status != AVAILABLE;
    assert x in Unavailable(S1, ids);
  }

  /**
   * Reserve, then confirm in time: the booking ends CONFIRMED and every seat it holds
   * ends BOOKED.
   */
  lemma ReserveThenConfirm(S0: map<SeatId, Seat>, B0: map<BookingId, Booking>, show: ShowId, ids: seq<SeatId>,
                           email: string, now: int, env: ReserveEnv, res: Response,
                           S1: map<SeatId, Seat>, B1: map<BookingId, Booking>,
                           now2: int, cenv: ConfirmEnv, res2: Response, S2: map<SeatId, Seat>, B2: map<BookingId, Booking>)
    requires ReserveOutcome(S0, B0, show, ids, email, now, env, res, S1, B1) && res.status == 200
    requires ConfirmOutcome(S1, B1, env.newId, now2, cenv, res2, S2, B2)
    requires !cenv.fetchFails && cenv.interference.None? && !cenv.confirmFails && !cenv.seatsFail
    requires now2 <= now + HoldDuration
    ensures res2 == Response(200, SuccessBody(BookingPayload(env.newId, Confirmed, None, None)))
    ensures B2[env.newId] == Booking(show, email, ids, Confirmed, now + HoldDuration)
    ensures forall y :: y in ids ==> y in S2 && S2[y].status == BOOKED
  {
    SuccessHoldsSeats(S0, B0, show, ids, email, now, env, res, S1, B1);
    InTimeConfirms(S1, B1, env.newId, now2, cenv, res2, S2, B2);
  }

  /**
   * Reserve, let the hold expire, try to confirm: the confirm reports the expiry and
   * frees the seats, and a fresh reservation of the same seats that meets no failure
   * then succeeds.
   */
  lemma ExpiredThenFreshReserve(S0: map<SeatId, Seat>, B0: map<BookingId, Booking>, show: ShowId, ids: seq<SeatId>,
                                email: string, now: int, env: ReserveEnv, res: Response,
                                S1: map<SeatId, Seat>, B1: map<BookingId, Booking>,
                                now2: int, cenv: ConfirmEnv, res2: Response, S2: map<SeatId, Seat>, B2: map<BookingId, Booking>,
                                email3: string, now3: int, env3: ReserveEnv, res3: Response,
                                S3: map<SeatId, Seat>, B3: map<BookingId, Booking>)
    requires ReserveOutcome(S0, B0, show, ids, email, now, env, res, S1, B1) && res.status == 200
    requires ConfirmOutcome(S1, B1, env.newId, now2, cenv, res2, S2, B2)
    requires !cenv.fetchFails && !cenv.markFailedFails && !cenv.releaseFails
    requires now2 > now + HoldDuration
    requires ReserveOutcome(S2, B2, show, ids, email3, now3, env3, res3, S3, B3)
    requires !env3.fetchFails && env3.interference == map[] && !env3.updateFails && !env3.insertFails
    requires env3.newId !in B2
    ensures res2 == Error(400, Expired)
    ensures B2[env.newId].status == Failed
    ensures res3.status == 200 && B3[env3.newId] == Booking(show, email3, ids, BookingPending, now3 + HoldDuration)
  {
    SuccessHoldsSeats(S0, B0, show, ids, email, now, env, res, S1, B1);
    RowsFacts(S0, ids, Some(show), None);
    var SI := Interfere(S0, env.interference);
    assert AllMatch(SI, ids, Some(show), None);
    SetStatusKeepsShows(SI, Elems(ids), PENDING, ids, show);
    ExpiredReleases(S1, B1, env.newId, now2, cenv, res2, S2, B2);
    SetStatusKeepsShows(S1, Elems(ids), AVAILABLE, ids, show);
    assert Unavailable(S2, ids) == [];
    assert Interfere(S2, env3.interference) == S2;
  }

  /**
   * Retrying an expired confirm does not report the expiry again: the first attempt
   * marked the booking FAILED, so the retry is refused as not PENDING, with status
   * FAILED, and writes nothing.
   */
  lemma ExpiredRetryReportsFailed(S0: map<SeatId, Seat>, B0: map<BookingId, Booking>, id: BookingId, now: int,
                                  env: ConfirmEnv, res: Response, S1: map<SeatId, Seat>, B1: map<BookingId, Booking>,
                                  now2: int, env2: ConfirmEnv, res2: Response, S2: map<SeatId, Seat>,
                                  B2: map<BookingId, Booking>)
    requires ConfirmOutcome(S0, B0, id, now, env, res, S1, B1)
    requires !env.fetchFails && id in B0 && B0[id].status == BookingPending && HasExpired(B0[id], now)
    requires !env.markFailedFails && !env.releaseFails
    requires ConfirmOutcome(S1, B1, id, now2, env2, res2, S2, B2) && !env2.fetchFails
    ensures res == Error(400, Expired)
    ensures res2 == Error(400, NotPendingMessage(Failed)) && S2 == S1 && B2 == B1
  {
    ExpiredReleases(S0, B0, id, now, env, res, S1, B1);
  }
}
